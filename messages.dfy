/** Chat messages and the shape of an interview history. */
module Messages {

  /** Who produced a turn: the candidate (`user`) or the generative model (`model`). */
  datatype Role = User | Model

  /** One `{ text }` element of a message's `parts` array. */
  datatype Part = Part(text: string)

  /** One turn of the conversation. */
  datatype Message = Message(role: Role, parts: seq<Part>)

  /** The single-part message `{ role, parts: [{ text }] }` that every
      operation of the service builds. */
  function Say(role: Role, text: string): Message
  {
    Message(role, [Part(text)])
  }

  /** A history is a run of complete exchanges: a user turn answered by a model turn. */
  predicate Exchanges(h: seq<Message>)
    decreases |h|
  {
    h == [] || (|h| >= 2 && h[0].role == User && h[1].role == Model && Exchanges(h[2..]))
  }

  /** The same shape stated per position: even length, user turns at even
      positions and model turns at odd positions. */
  predicate RolesAlternate(h: seq<Message>)
  {
    |h| % 2 == 0 && forall i :: 0 <= i < |h| ==> h[i].role == (if i % 2 == 0 then User else Model)
  }

  /** Every message carries at least one part. */
  predicate PartsNonEmpty(h: seq<Message>)
  {
    forall i :: 0 <= i < |h| ==> |h[i].parts| > 0
  }

  /** A well-formed interview history. */
  predicate ValidHistory(h: seq<Message>)
  {
    Exchanges(h) && PartsNonEmpty(h)
  }

  /** Appending one exchange, `[...history, user turn, model turn]`. */
  function AppendExchange(h: seq<Message>, userText: string, modelText: string): (r: seq<Message>)
    ensures |r| == |h| + 2 && r[..|h|] == h
    ensures r[|h|].role == User && r[|h|].parts == [Part(userText)]
    ensures r[|h| + 1].role == Model && r[|h| + 1].parts == [Part(modelText)]
  {
    h + [Say(User, userText), Say(Model, modelText)]
  }

  /** The recursive and the positional description of a history's shape agree. */
  lemma {:induction false} ExchangesIff(h: seq<Message>)
    ensures Exchanges(h) <==> RolesAlternate(h)
    decreases |h|
  {
    if |h| >= 2 {
      var t := h[2..];
      ExchangesIff(t);
      if RolesAlternate(h) {
        forall i | 0 <= i < |t|
          ensures t[i].role == (if i % 2 == 0 then User else Model)
        {
          assert t[i] == h[i + 2];
        }
      }
      if h[0].role == User && h[1].role == Model && RolesAlternate(t) {
        forall i | 0 <= i < |h|
          ensures h[i].role == (if i % 2 == 0 then User else Model)
        {
          if i >= 2 {
            assert h[i] == t[i - 2];
          }
        }
      }
    } else if |h| == 1 {
      assert !RolesAlternate(h);
    }
  }

  /** Appending a user turn and then a model turn keeps a history made of exchanges. */
  lemma {:induction false} ExchangesAppend(h: seq<Message>, u: Message, m: Message)
    requires Exchanges(h)
    requires u.role == User && m.role == Model
    ensures Exchanges(h + [u, m])
    decreases |h|
  {
    var r := h + [u, m];
    if h == [] {
      assert r == [u, m];
      assert r[2..] == [];
    } else {
      assert r[2..] == h[2..] + [u, m];
      ExchangesAppend(h[2..], u, m);
    }
  }

  /** Appending an exchange keeps a history valid. */
  lemma AppendExchangeValid(h: seq<Message>, userText: string, modelText: string)
    requires ValidHistory(h)
    ensures ValidHistory(AppendExchange(h, userText, modelText))
  {
    ExchangesAppend(h, Say(User, userText), Say(Model, modelText));
  }
}
