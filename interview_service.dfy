/** The interview turn-taking service: `startInterview`, `processResponse`
    and `analyzeInterview`.  The generative model is the parameter `send`,
    which answers a chat request with its text or with the SDK's error. */
module InterviewService {
  import opened Wrappers
  import opened Messages

  /** The snapshot of an interview handed back and forth with the caller. */
  datatype InterviewState = InterviewState(jobTitle: string, question: string, history: seq<Message>)

  /** What `model.startChat({ history })` followed by `chat.sendMessage(message)`
      hands to the generative model. */
  datatype ChatRequest = ChatRequest(history: seq<Message>, message: string)

  const OpeningQuestion: string := "Tell me about yourself."
  const AnalysisPrompt: string := "Please provide your analysis of this interview conversation."

  const StartError: string := "Job title is required"
  const RespondError: string := "Job title, response, and history are required"
  const AnalyzeError: string := "Job title and history are required"

  /** JavaScript truthiness of a string: only the empty string is falsy. */
  predicate Truthy(s: string)
  {
    s != ""
  }

  /** JavaScript truthiness of an array field: any present array, the empty
      one included, is truthy; an absent one is not. */
  predicate Present(h: Option<seq<Message>>)
  {
    h.Some?
  }

  /** The guard of `processResponse`: `jobTitle && response && history`. */
  predicate RespondInputOk(jobTitle: string, response: string, history: Option<seq<Message>>)
  {
    Truthy(jobTitle) && Truthy(response) && Present(history)
  }

  /** The guard of `analyzeInterview`: `jobTitle && history`. */
  predicate AnalyzeInputOk(jobTitle: string, history: Option<seq<Message>>)
  {
    Truthy(jobTitle) && Present(history)
  }

  /** The user message that opens an interview for `jobTitle`. */
  function OpeningRequest(jobTitle: string): string
  {
    "I am applying for the " + jobTitle + " position. Please start the interview with your first question."
  }

  /** The conversation the model answers: the chat history, then the sent message as a user turn. */
  function ModelView(c: ChatRequest): seq<Message>
  {
    c.history + [Say(User, c.message)]
  }

  /** `startInterview`: validate the job title and build the opening exchange. */
  function StartInterview(jobTitle: string): (r: Result<InterviewState>)
    ensures r.Err? <==> jobTitle == ""
    ensures r.Err? ==> r.message == StartError
    ensures r.Ok? ==> r.value.jobTitle == jobTitle && r.value.question == OpeningQuestion
    ensures r.Ok? ==> r.value.history == [Say(User, OpeningRequest(jobTitle)), Say(Model, OpeningQuestion)]
  {
    if !Truthy(jobTitle) then
      Err(StartError)
    else
      var question := OpeningQuestion;
      Ok(InterviewState(jobTitle, question,
        [Say(User, OpeningRequest(jobTitle)), Say(Model, question)]))
  }

  /** The chat request `processResponse` builds: the history (or, when it is
      empty, a synthesised opening user message) followed by the candidate's
      response as a user turn, with the response also sent as the message. */
  function ResponseChat(jobTitle: string, response: string, history: seq<Message>): (c: ChatRequest)
    ensures c.message == response
    ensures history == [] ==> c.history == [Say(User, OpeningRequest(jobTitle)), Say(User, response)]
    ensures history != [] ==> c.history == history + [Say(User, response)]
  {
    var formatted := if |history| == 0 then [Say(User, OpeningRequest(jobTitle))] else history;
    ChatRequest(formatted + [Say(User, response)], response)
  }

  /** `processResponse`: validate the inputs, ask the model for the next
      question and extend the history by the candidate's turn and the reply. */
  function ProcessResponse(jobTitle: string, response: string, history: Option<seq<Message>>,
                           send: ChatRequest -> Result<string>): (r: Result<InterviewState>)
    ensures !RespondInputOk(jobTitle, response, history) ==> r == Err(RespondError)
    ensures RespondInputOk(jobTitle, response, history) ==>
      (r.Ok? <==> send(ResponseChat(jobTitle, response, history.value)).Ok?)
    ensures RespondInputOk(jobTitle, response, history) && r.Err? ==>
      r.message == send(ResponseChat(jobTitle, response, history.value)).message
    ensures r.Ok? ==> RespondInputOk(jobTitle, response, history)
    ensures r.Ok? ==> r.value.jobTitle == jobTitle
    ensures r.Ok? ==> r.value.question == send(ResponseChat(jobTitle, response, history.value)).value
    ensures r.Ok? ==> r.value.history == history.value + [Say(User, response), Say(Model, r.value.question)]
  {
    if !RespondInputOk(jobTitle, response, history) then
      Err(RespondError)
    else
      match send(ResponseChat(jobTitle, response, history.value))
      case Err(e) => Err(e)
      case Ok(aiResponse) =>
        Ok(InterviewState(jobTitle, aiResponse, AppendExchange(history.value, response, aiResponse)))
  }

  /** The chat request `analyzeInterview` builds: the history unchanged and
      the fixed analysis prompt as the message. */
  function AnalysisChat(history: seq<Message>): (c: ChatRequest)
    ensures c.history == history && c.message == AnalysisPrompt
  {
    ChatRequest(history, AnalysisPrompt)
  }

  /** `analyzeInterview`: validate the inputs, ask the model for an analysis
      and extend the history by the analysis prompt and the reply. */
  function AnalyzeInterview(jobTitle: string, history: Option<seq<Message>>,
                            send: ChatRequest -> Result<string>): (r: Result<InterviewState>)
    ensures !AnalyzeInputOk(jobTitle, history) ==> r == Err(AnalyzeError)
    ensures AnalyzeInputOk(jobTitle, history) ==> (r.Ok? <==> send(AnalysisChat(history.value)).Ok?)
    ensures AnalyzeInputOk(jobTitle, history) && r.Err? ==>
      r.message == send(AnalysisChat(history.value)).message
    ensures r.Ok? ==> AnalyzeInputOk(jobTitle, history)
    ensures r.Ok? ==> r.value.jobTitle == jobTitle && r.value.question == ""
    ensures r.Ok? ==>
      r.value.history == history.value + [Say(User, AnalysisPrompt), Say(Model, send(AnalysisChat(history.value)).value)]
  {
    if !AnalyzeInputOk(jobTitle, history) then
      Err(AnalyzeError)
    else
      match send(AnalysisChat(history.value))
      case Err(e) => Err(e)
      case Ok(aiResponse) =>
        Ok(InterviewState(jobTitle, "", AppendExchange(history.value, AnalysisPrompt, aiResponse)))
  }
}
