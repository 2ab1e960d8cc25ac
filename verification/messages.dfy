/**
 The `Message` record shared by the chat page and the chat route, and the
 JSON shape in which the page sends a conversation to the route.
 */
module Messages {
  import opened Json

  datatype Role = User | Assistant | System

  /** A message is immutable once created. */
  datatype Message = Message(role: Role, content: string)

  /** The wire name of a role. */
  function RoleName(role: Role): (name: string)
    ensures name != []
  {
    match role
    case User => "user"
    case Assistant => "assistant"
    case System => "system"
  }

  lemma RoleNameInjective(a: Role, b: Role)
    ensures RoleName(a) == RoleName(b) ==> a == b
  {
  }

  /** `{ role, content }` as a JSON object: reading `content` back gives the message text. */
  function Encode(m: Message): (v: Value)
    ensures v.Obj? && !ReadThrows(v)
    ensures Get(v, "content") == Str(m.content)
    ensures Get(v, "role") == Str(RoleName(m.role))
  {
    Obj(map["role" := Str(RoleName(m.role)), "content" := Str(m.content)])
  }

  /** Distinct messages have distinct encodings: the route sees exactly the conversation the page holds. */
  lemma EncodeInjective(a: Message, b: Message)
    ensures Encode(a) == Encode(b) ==> a == b
  {
    if Encode(a) == Encode(b) {
      assert Get(Encode(a), "role") == Get(Encode(b), "role");
      RoleNameInjective(a.role, b.role);
    }
  }

  /** The request body `{ messages: [...] }` built from a conversation. */
  function RequestBody(conversation: seq<Message>): (v: Value)
    ensures !ReadThrows(v)
    ensures Get(v, "messages").Arr?
    ensures |Get(v, "messages").items| == |conversation|
    ensures forall i :: 0 <= i < |conversation| ==> Get(v, "messages").items[i] == Encode(conversation[i])
  {
    Obj(map["messages" := Arr(seq(|conversation|, i requires 0 <= i < |conversation| => Encode(conversation[i])))])
  }
}
