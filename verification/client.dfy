/**
 The chat page's submit handler as a state machine over
 `(messages, input, isLoading)`: a submit is accepted or ignored; an
 accepted submit appends the user's message and sends the conversation;
 the answer then appends either the assistant's reply or a system notice,
 and loading ends either way.
 */
module Client {
  import opened Strings
  import opened Options
  import opened Messages

  /** The text of the system message appended when an exchange fails. */
  const ErrorNotice: string := "Sorry, I encountered an error. Please try again."

  datatype ChatState = ChatState(messages: seq<Message>, input: string, isLoading: bool)

  /** The page's state when it first renders. */
  const Initial: ChatState := ChatState([], "", false)

  /**
   How the request ended, as the page sees it: a response with an ok status
   whose `message` field is read, or a failure (a non-ok status, a network
   error, or a body that does not parse).
   */
  datatype Outcome = Success(message: string) | Failure

  /** The state after the submit step and, when the submit is accepted, the conversation sent as the request body. */
  datatype Submission = Submission(state: ChatState, request: Option<seq<Message>>)

  /** `!input.trim()`. */
  predicate Blank(s: string) {
    Trim(s) == []
  }

  /** The guard and the synchronous updates of the submit handler. */
  function Submit(st: ChatState): (sub: Submission)
    ensures sub.request.None? <==> st.isLoading || AllWhitespace(st.input)
    ensures sub.request.None? ==> sub.state == st
    ensures sub.request.Some? ==>
              && st.messages <= sub.state.messages
              && |sub.state.messages| == |st.messages| + 1
              && sub.state.messages[|st.messages|] == Message(User, Trim(st.input))
              && sub.state.input == []
              && sub.state.isLoading
    ensures sub.request.Some? ==>
              && st.messages <= sub.request.value
              && |sub.request.value| == |st.messages| + 1
              && sub.request.value[|st.messages|] == Message(User, Trim(st.input))
  {
    BlankIffAllWhitespace(st.input);
    if Blank(st.input) || st.isLoading then
      Submission(st, None)
    else
      var userMessage := Message(User, Trim(st.input));
      Submission(ChatState(st.messages + [userMessage], "", true), Some(st.messages + [userMessage]))
  }

  /** The `try` path: the reply is appended and loading ends. */
  function Succeed(st: ChatState, reply: string): (next: ChatState)
    ensures st.messages <= next.messages && |next.messages| == |st.messages| + 1
    ensures next.messages[|st.messages|] == Message(Assistant, reply)
    ensures next.input == st.input && !next.isLoading
  {
    ChatState(st.messages + [Message(Assistant, reply)], st.input, false)
  }

  /** The `catch` path: the notice is appended, nothing is rolled back, and loading ends. */
  function Fail(st: ChatState): (next: ChatState)
    ensures st.messages <= next.messages && |next.messages| == |st.messages| + 1
    ensures next.messages[|st.messages|] == Message(System, ErrorNotice)
    ensures next.input == st.input && !next.isLoading
  {
    ChatState(st.messages + [Message(System, ErrorNotice)], st.input, false)
  }

  /** The message the outcome appends. */
  function Answer(o: Outcome): (m: Message)
    ensures m.role != User
    ensures m.role == Assistant <==> o.Success?
    ensures o.Success? ==> m.content == o.message
  {
    match o
    case Success(text) => Message(Assistant, text)
    case Failure => Message(System, ErrorNotice)
  }

  /** The asynchronous part of the handler: exactly one message is appended and loading ends. */
  function Settle(st: ChatState, o: Outcome): (next: ChatState)
    ensures st.messages <= next.messages && |next.messages| == |st.messages| + 1
    ensures next.messages[|st.messages|].role != User
    ensures next.messages[|st.messages|] == Answer(o)
    ensures next.input == st.input && !next.isLoading
  {
    match o
    case Success(text) => Succeed(st, text)
    case Failure => Fail(st)
  }

  /**
   One whole submit: the guard, then the answer to the request it sent. The
   conversation grows by nothing or by a question and its answer, and a turn
   that starts idle ends idle.
   */
  function Turn(st: ChatState, o: Outcome): (next: ChatState)
    ensures st.messages <= next.messages
    ensures |next.messages| == |st.messages| || |next.messages| == |st.messages| + 2
    ensures next.isLoading == st.isLoading
  {
    var sub := Submit(st);
    if sub.request.None? then st else Settle(sub.state, o)
  }

  /** An accepted turn grows the conversation by the user's trimmed text and one answer. */
  lemma TurnAppendsTwo(st: ChatState, o: Outcome)
    requires !st.isLoading && !AllWhitespace(st.input)
    ensures Turn(st, o).messages == st.messages + [Message(User, Trim(st.input)), Answer(o)]
    ensures |Turn(st, o).messages| == |st.messages| + 2
    ensures Turn(st, o).input == [] && !Turn(st, o).isLoading
  {
  }

  /** A failed turn keeps the user's message and follows it with the notice. */
  lemma FailureKeepsUserMessage(st: ChatState)
    requires !st.isLoading && !AllWhitespace(st.input)
    ensures Turn(st, Failure).messages[|st.messages|] == Message(User, Trim(st.input))
    ensures Turn(st, Failure).messages[|st.messages| + 1] == Message(System, ErrorNotice)
  {
    TurnAppendsTwo(st, Failure);
  }

  /** A rejected turn changes nothing at all. */
  lemma RejectedTurnIsNoOp(st: ChatState, o: Outcome)
    requires st.isLoading || AllWhitespace(st.input)
    ensures Turn(st, o) == st
  {
  }

  /* ---------------------------------------------------------------------- */
  /* Runs of the page                                                        */
  /* ---------------------------------------------------------------------- */

  /** What can happen to the page: the user edits the input field, or submits and the request completes. */
  datatype Event = Edit(text: string) | Send(outcome: Outcome)

  /** One event: an edit replaces the input and nothing else; a turn adds nothing or one exchange. */
  function Step(st: ChatState, e: Event): (next: ChatState)
    ensures e.Edit? ==> next.messages == st.messages && next.input == e.text
    ensures |next.messages| == |st.messages| || |next.messages| == |st.messages| + 2
    ensures next.isLoading == st.isLoading
  {
    match e
    case Edit(text) => st.(input := text)
    case Send(o) => Turn(st, o)
  }

  /** The state after a sequence of events: whole exchanges only, and loading as it was. */
  function Run(st: ChatState, events: seq<Event>): (last: ChatState)
    ensures |st.messages| <= |last.messages|
    ensures (|last.messages| - |st.messages|) % 2 == 0
    ensures last.isLoading == st.isLoading
    decreases |events|
  {
    if events == [] then st else Run(Step(st, events[0]), events[1..])
  }

  /** Every step only appends messages. */
  lemma StepAppendOnly(st: ChatState, e: Event)
    ensures st.messages <= Step(st, e).messages
  {
  }

  /** Over any run, every earlier conversation is a prefix of every later one. */
  lemma {:induction false} RunAppendOnly(st: ChatState, events: seq<Event>)
    ensures st.messages <= Run(st, events).messages
    decreases |events|
  {
    if events != [] {
      var next := Step(st, events[0]);
      StepAppendOnly(st, events[0]);
      RunAppendOnly(next, events[1..]);
    }
  }

  /**
   The shape of a conversation between turns: user messages at the even
   positions, each trimmed and non-blank, and an answer (assistant or
   system) at each odd position.
   */
  predicate Alternating(messages: seq<Message>) {
    && |messages| % 2 == 0
    && forall i :: 0 <= i < |messages| ==>
         if i % 2 == 0 then
           messages[i].role == User && messages[i].content != [] && Trim(messages[i].content) == messages[i].content
         else
           messages[i].role != User
  }

  /** The page is idle and its conversation is well shaped. */
  predicate Settled(st: ChatState) {
    !st.isLoading && Alternating(st.messages)
  }

  /** Appending a user message and an answer keeps a conversation alternating. */
  lemma AppendExchange(messages: seq<Message>, question: Message, answer: Message)
    requires Alternating(messages)
    requires question.role == User && question.content != [] && Trim(question.content) == question.content
    requires answer.role != User
    ensures Alternating(messages + [question, answer])
  {
    var ms := messages + [question, answer];
    forall i | 0 <= i < |ms|
      ensures if i % 2 == 0 then
                ms[i].role == User && ms[i].content != [] && Trim(ms[i].content) == ms[i].content
              else
                ms[i].role != User
    {
      if i < |messages| {
        assert ms[i] == messages[i];
      }
    }
  }

  lemma StepKeepsSettled(st: ChatState, e: Event)
    requires Settled(st)
    ensures Settled(Step(st, e))
  {
    match e
    case Edit(_) =>
    case Send(o) =>
      if !AllWhitespace(st.input) {
        TurnAppendsTwo(st, o);
        BlankIffAllWhitespace(st.input);
        TrimIdempotent(st.input);
        AppendExchange(st.messages, Message(User, Trim(st.input)), Answer(o));
      }
  }

  /** From the first render on, between turns the page is idle and the conversation alternates user, answer, user, answer, … */
  lemma {:induction false} RunKeepsSettled(st: ChatState, events: seq<Event>)
    requires Settled(st)
    ensures Settled(Run(st, events))
    decreases |events|
  {
    if events != [] {
      StepKeepsSettled(st, events[0]);
      RunKeepsSettled(Step(st, events[0]), events[1..]);
    }
  }

  lemma InitialSettled()
    ensures Settled(Initial)
  {
  }
}
