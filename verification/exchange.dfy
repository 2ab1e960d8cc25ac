/**
 The page and the route together: the conversation the page sends is
 encoded as the request body, the route answers it, and the page appends
 what it receives.
 */
module Exchange {
  import opened Strings
  import opened Options
  import opened Messages
  import opened Responder
  import Route
  import opened Client

  /** How the page sees a route response: only a 200 is ok, and then its `message` is read. */
  function Receive(r: Route.Response): (o: Outcome)
    ensures o.Success? <==> r.Status() == 200
    ensures o.Success? ==> o.message == r.message
  {
    match r
    case Ok(text) => Success(text)
    case _ => Failure
  }

  /** Send a conversation to the route and receive its answer, the transport being faithful. */
  function Serve(conversation: seq<Message>): Outcome {
    Receive(Route.Handle(Route.Parsed(RequestBody(conversation))))
  }

  /** One submit against the real route: a turn of the page whose outcome the route decides. */
  function LiveTurn(st: ChatState): (next: ChatState)
    ensures next == Turn(st, Serve(st.messages + [Message(User, Trim(st.input))]))
  {
    var sub := Submit(st);
    match sub.request
    case None => st
    case Some(conversation) => Settle(sub.state, Serve(conversation))
  }

  /** The route answers whatever the page sends: the reply classifies the text the user just typed, trimmed. */
  lemma LiveTurnAnswersInput(st: ChatState)
    requires !st.isLoading && !AllWhitespace(st.input)
    ensures LiveTurn(st).messages ==
              st.messages + [Message(User, Trim(st.input)), Message(Assistant, Reply(Classify(Trim(st.input))))]
  {
    var sub := Submit(st);
    var conversation := sub.request.value;
    assert conversation == st.messages + [Message(User, Trim(st.input))];
    Route.EncodedConversationAnswered(conversation);
  }

  /** Against the real route a turn never ends in the error notice. */
  lemma LiveTurnNeverFails(st: ChatState)
    requires !st.isLoading && !AllWhitespace(st.input)
    ensures Message(System, ErrorNotice) !in LiveTurn(st).messages[|st.messages|..]
  {
    LiveTurnAnswersInput(st);
    assert LiveTurn(st).messages[|st.messages|..] ==
             [Message(User, Trim(st.input)), Message(Assistant, Reply(Classify(Trim(st.input))))];
  }

  /** The earlier conversation never influences the reply: only the input being submitted does. */
  lemma HistoryIgnored(st: ChatState, history: seq<Message>)
    requires !st.isLoading && !AllWhitespace(st.input)
    ensures Route.Last(LiveTurn(st).messages) == Route.Last(LiveTurn(st.(messages := history)).messages)
  {
    LiveTurnAnswersInput(st);
    LiveTurnAnswersInput(st.(messages := history));
  }

  /** The reply a turn appends names the branch that answered: equal replies mean equally classified inputs. */
  lemma ReplyRevealsCategory(st: ChatState, other: ChatState)
    requires !st.isLoading && !AllWhitespace(st.input)
    requires !other.isLoading && !AllWhitespace(other.input)
    requires Route.Last(LiveTurn(st).messages) == Route.Last(LiveTurn(other).messages)
    ensures Classify(Trim(st.input)) == Classify(Trim(other.input))
  {
    LiveTurnAnswersInput(st);
    LiveTurnAnswersInput(other);
    ReplyInjective(Classify(Trim(st.input)), Classify(Trim(other.input)));
  }
}
