/**
 The `POST` handler of the chat route: read `messages` from the parsed
 body, reject a missing or non-array value with 400, read the last
 message's `content`, lowercase it and answer with the classified canned
 reply. Anything that throws on the way becomes a 500.
 */
module Route {
  import opened Options
  import opened Json
  import opened Messages
  import opened Responder

  const InvalidFormat: string := "Invalid messages format"
  const InternalError: string := "Internal server error"

  /** The request body after `req.json()`: either it failed to parse, or it is a JavaScript value. */
  datatype Body = Unparsable | Parsed(value: Value)

  /** The three kinds of answer the handler gives. */
  datatype Response = Ok(message: string) | BadRequest | ServerError {

    function Status(): int {
      match this
      case Ok(_) => 200
      case BadRequest => 400
      case ServerError => 500
    }

    /** The `error` field of a failed response. */
    function Error(): string
      requires !Ok?
    {
      if BadRequest? then InvalidFormat else InternalError
    }
  }

  /**
   The text `lastMessage.content.toLowerCase()` is applied to, or `None` when
   that expression throws: no last element (`messages[-1]` is undefined), a
   last element that is `null`, or a `content` that is not a string (it has
   no `toLowerCase` method).
   */
  function LastText(items: seq<Value>): (t: Option<string>)
    ensures t.Some? <==>
              |items| > 0 && !ReadThrows(items[|items| - 1]) && Get(items[|items| - 1], "content").Str?
    ensures t.Some? ==> Get(items[|items| - 1], "content") == Str(t.value)
  {
    if |items| == 0 then None
    else
      var last := items[|items| - 1];
      if ReadThrows(last) then None
      else
        match Get(last, "content")
        case Str(text) => Some(text)
        case _ => None
  }

  /** The last element of a non-empty sequence. */
  function Last<T>(s: seq<T>): T
    requires |s| > 0
  {
    s[|s| - 1]
  }

  /** The `POST` handler. */
  function Handle(body: Body): (r: Response)
    ensures r.Status() == 400 <==>
              body.Parsed? && !ReadThrows(body.value) && !Get(body.value, "messages").Arr?
    ensures r.Status() == 400 ==> r.Error() == InvalidFormat
    ensures r.Ok? <==>
              body.Parsed? && !ReadThrows(body.value) && Get(body.value, "messages").Arr?
              && LastText(Get(body.value, "messages").items).Some?
    ensures r.Ok? ==> r.message == Reply(Classify(LastText(Get(body.value, "messages").items).value))
  {
    match body
    case Unparsable => ServerError
    case Parsed(v) =>
      // Destructuring `{ messages }` out of null or undefined throws.
      if ReadThrows(v) then ServerError
      else
        var messages := Get(v, "messages");
        if !Truthy(messages) || !messages.Arr? then BadRequest
        else
          match LastText(messages.items)
          case None => ServerError
          case Some(text) => Ok(Reply(Classify(text)))
  }

  /** A body without `messages`, or with a `messages` that is not an array, gets 400 and no reply. */
  lemma MissingOrNonArrayRejected(fields: map<string, Value>)
    requires "messages" !in fields || !fields["messages"].Arr?
    ensures Handle(Parsed(Obj(fields))) == BadRequest
    ensures Handle(Parsed(Obj(fields))).Status() == 400
    ensures Handle(Parsed(Obj(fields))).Error() == InvalidFormat
  {
  }

  /** An empty `messages` array passes validation, and then reading the last message throws: 500, not 400. */
  lemma EmptyConversationIsServerError(v: Value)
    requires !ReadThrows(v) && Get(v, "messages") == Arr([])
    ensures Handle(Parsed(v)) == ServerError
    ensures Handle(Parsed(v)).Error() == InternalError
  {
  }

  /** Only the last message matters: two bodies whose `messages` arrays end in the same element get the same answer. */
  lemma LastMessageDecides(v: Value, w: Value)
    requires !ReadThrows(v) && !ReadThrows(w)
    requires Get(v, "messages").Arr? && Get(w, "messages").Arr?
    requires |Get(v, "messages").items| > 0 && |Get(w, "messages").items| > 0
    requires Last(Get(v, "messages").items) == Last(Get(w, "messages").items)
    ensures Handle(Parsed(v)) == Handle(Parsed(w))
  {
  }

  /** Adding earlier messages never changes the answer. */
  lemma EarlierMessagesIgnored(earlier: seq<Message>, m: Message)
    ensures Handle(Parsed(RequestBody(earlier + [m]))) == Handle(Parsed(RequestBody([m])))
  {
    LastMessageDecides(RequestBody(earlier + [m]), RequestBody([m]));
  }

  /** A conversation encoded as the page encodes it is always answered, by classifying its last message. */
  lemma EncodedConversationAnswered(conversation: seq<Message>)
    requires |conversation| > 0
    ensures Handle(Parsed(RequestBody(conversation))) == Ok(Reply(Classify(Last(conversation).content)))
  {
  }

  /** A last message whose `content` is missing or not a string makes the handler throw: 500. */
  lemma BadContentIsServerError(v: Value)
    requires !ReadThrows(v) && Get(v, "messages").Arr?
    requires |Get(v, "messages").items| > 0
    requires var last := Last(Get(v, "messages").items);
             ReadThrows(last) || !Get(last, "content").Str?
    ensures Handle(Parsed(v)) == ServerError
  {
  }
}
