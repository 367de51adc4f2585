/** An interview carried forward by its caller: each `processResponse` is
    given the history the previous call returned. */
module Session {
  import opened Wrappers
  import opened Messages
  import opened InterviewService

  /** Answer the questions of `state` with `responses`, one `processResponse`
      per response, stopping at the first error. */
  function Continue(state: InterviewState, responses: seq<string>,
                    send: ChatRequest -> Result<string>): Result<InterviewState>
    decreases |responses|
  {
    if responses == [] then
      Ok(state)
    else
      match ProcessResponse(state.jobTitle, responses[0], Some(state.history), send)
      case Err(e) => Err(e)
      case Ok(next) => Continue(next, responses[1..], send)
  }

  /** Each answered response adds exactly two turns: the earlier history is
      kept, the job title is unchanged, the candidate's responses appear in
      order as user turns, and a well-formed history stays well formed. */
  lemma {:induction false} ContinueExtends(state: InterviewState, responses: seq<string>,
                                           send: ChatRequest -> Result<string>)
    requires Continue(state, responses, send).Ok?
    ensures var h := Continue(state, responses, send).value.history;
      |h| == |state.history| + 2 * |responses| && h[..|state.history|] == state.history
    ensures Continue(state, responses, send).value.jobTitle == state.jobTitle
    ensures forall k :: 0 <= k < |responses| ==>
      Continue(state, responses, send).value.history[|state.history| + 2 * k] == Say(User, responses[k])
    ensures ValidHistory(state.history) ==> ValidHistory(Continue(state, responses, send).value.history)
    decreases |responses|
  {
    if responses != [] {
      var next := ProcessResponse(state.jobTitle, responses[0], Some(state.history), send).value;
      var rest := responses[1..];
      ContinueExtends(next, rest, send);
      var h := Continue(state, responses, send).value.history;
      assert h == Continue(next, rest, send).value.history;
      var n := |state.history|;
      assert next.history[..n] == state.history;
      assert h[..n] == h[..|next.history|][..n];
      forall k | 0 <= k < |responses|
        ensures h[n + 2 * k] == Say(User, responses[k])
      {
        if k == 0 {
          assert h[n] == h[..|next.history|][n];
        } else {
          assert responses[k] == rest[k - 1];
          assert n + 2 * k == |next.history| + 2 * (k - 1);
        }
      }
      if ValidHistory(state.history) {
        AppendExchangeValid(state.history, responses[0], next.question);
      }
    }
  }

  /** An empty response anywhere in the sequence makes the session fail. */
  lemma {:induction false} ContinueRejectsEmptyResponse(state: InterviewState, responses: seq<string>,
                                                        send: ChatRequest -> Result<string>)
    requires "" in responses
    ensures Continue(state, responses, send).Err?
    decreases |responses|
  {
    if responses[0] != "" {
      assert "" in responses[1..];
      match ProcessResponse(state.jobTitle, responses[0], Some(state.history), send)
      case Err(e) =>
      case Ok(next) => ContinueRejectsEmptyResponse(next, responses[1..], send);
    }
  }
}
