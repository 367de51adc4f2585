/** Properties of the interview service that relate its operations, the
    requests they send to the model and the shape of the history. */
module InterviewProperties {
  import opened Wrappers
  import opened Messages
  import opened InterviewService

  /** A started interview holds exactly one well-formed exchange. */
  lemma StartInterviewOpensExchange(jobTitle: string)
    requires jobTitle != ""
    ensures StartInterview(jobTitle).Ok?
    ensures ValidHistory(StartInterview(jobTitle).value.history)
    ensures RolesAlternate(StartInterview(jobTitle).value.history)
  {
  }

  /** Two started interviews differ only in the job title they mention: the
      same opening question, the same number of turns in the same roles. */
  lemma StartInterviewShapeIndependentOfTitle(a: string, b: string)
    requires a != "" && b != ""
    ensures StartInterview(a).value.question == StartInterview(b).value.question == OpeningQuestion
    ensures |StartInterview(a).value.history| == |StartInterview(b).value.history| == 2
    ensures forall i :: 0 <= i < 2 ==>
      StartInterview(a).value.history[i].role == StartInterview(b).value.history[i].role
    ensures StartInterview(a).value.history[1] == StartInterview(b).value.history[1]
  {
  }

  /** A successful `processResponse` keeps a well-formed history well formed. */
  lemma ProcessResponseKeepsValid(jobTitle: string, response: string, history: seq<Message>,
                                  send: ChatRequest -> Result<string>)
    requires ValidHistory(history)
    requires ProcessResponse(jobTitle, response, Some(history), send).Ok?
    ensures ValidHistory(ProcessResponse(jobTitle, response, Some(history), send).value.history)
  {
    AppendExchangeValid(history, response, send(ResponseChat(jobTitle, response, history)).value);
  }

  /** A successful `analyzeInterview` keeps a well-formed history well formed. */
  lemma AnalyzeInterviewKeepsValid(jobTitle: string, history: seq<Message>,
                                   send: ChatRequest -> Result<string>)
    requires ValidHistory(history)
    requires AnalyzeInterview(jobTitle, Some(history), send).Ok?
    ensures ValidHistory(AnalyzeInterview(jobTitle, Some(history), send).value.history)
  {
    AppendExchangeValid(history, AnalysisPrompt, send(AnalysisChat(history)).value);
  }

  /** The history `processResponse` returns is the conversation the model was
      shown, plus its reply, with the synthesised opening message dropped. */
  lemma ReturnedHistoryDropsSynthesisedOpening(jobTitle: string, response: string, history: seq<Message>,
                                               send: ChatRequest -> Result<string>)
    requires ProcessResponse(jobTitle, response, Some(history), send).Ok?
    ensures var r := ProcessResponse(jobTitle, response, Some(history), send).value;
      ResponseChat(jobTitle, response, history).history + [Say(Model, r.question)] ==
      (if history == [] then [Say(User, OpeningRequest(jobTitle))] else []) + r.history
    ensures var r := ProcessResponse(jobTitle, response, Some(history), send).value;
      history == [] && response != OpeningRequest(jobTitle) ==> Say(User, OpeningRequest(jobTitle)) !in r.history
  {
  }

  /** `processResponse` both appends the candidate's response to the chat
      history and sends it as the message, so the model is shown the
      response as two consecutive user turns. */
  lemma ResponseReachesModelTwice(jobTitle: string, response: string, history: seq<Message>)
    ensures var v := ModelView(ResponseChat(jobTitle, response, history));
      |v| >= 3 && v[|v| - 2] == v[|v| - 1] == Say(User, response)
    ensures var v := ModelView(ResponseChat(jobTitle, response, history));
      !RolesAlternate(v)
  {
  }

  /** The history `analyzeInterview` returns is exactly the conversation the
      model was shown, followed by its analysis. */
  lemma AnalysisRecordsWhatModelSaw(jobTitle: string, history: seq<Message>,
                                    send: ChatRequest -> Result<string>)
    requires AnalyzeInterview(jobTitle, Some(history), send).Ok?
    ensures var r := AnalyzeInterview(jobTitle, Some(history), send).value;
      r.history == ModelView(AnalysisChat(history)) + [Say(Model, send(AnalysisChat(history)).value)]
  {
  }

  /** Validation happens before the model is called: a rejected input gives
      the same error whatever the model would have answered. */
  lemma ValidationPrecedesModelCall(jobTitle: string, response: string, history: Option<seq<Message>>,
                                    send1: ChatRequest -> Result<string>, send2: ChatRequest -> Result<string>)
    ensures !RespondInputOk(jobTitle, response, history) ==>
      ProcessResponse(jobTitle, response, history, send1) == ProcessResponse(jobTitle, response, history, send2)
    ensures !AnalyzeInputOk(jobTitle, history) ==>
      AnalyzeInterview(jobTitle, history, send1) == AnalyzeInterview(jobTitle, history, send2)
  {
  }

  /** An empty history that is present passes both guards. */
  lemma EmptyHistoryAccepted(jobTitle: string, response: string, send: ChatRequest -> Result<string>)
    requires jobTitle != "" && response != ""
    requires send(ResponseChat(jobTitle, response, [])).Ok?
    ensures ProcessResponse(jobTitle, response, Some([]), send).Ok?
    ensures ProcessResponse(jobTitle, response, Some([]), send).value.history ==
      [Say(User, response), Say(Model, send(ResponseChat(jobTitle, response, [])).value)]
  {
  }
}
