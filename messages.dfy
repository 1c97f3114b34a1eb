/** Chat messages and the message list that one generation request sends
    (src/components/Generator.tsx, `ChatMessage` and the request body). */
module Messages {

  datatype Option<T> = None | Some(value: T)

  datatype Role = System | User | Assistant

  /** A `ChatMessage`: `{ role, content }`. */
  datatype Message = Message(role: Role, content: string)

  /** The stored conversation never holds a system message: the directive
      lives in its own setting and only joins the list sent on the wire. */
  predicate NoSystemMessages(list: seq<Message>)
  {
    forall i :: 0 <= i < |list| ==> list[i].role != System
  }

  /** Number of messages in `list` that carry `role`. */
  function CountRole(list: seq<Message>, role: Role): (n: nat)
    ensures n <= |list|
    ensures n == 0 <==> forall i :: 0 <= i < |list| ==> list[i].role != role
    decreases |list|
  {
    if list == [] then 0
    else (if list[0].role == role then 1 else 0) + CountRole(list[1..], role)
  }

  /** The list a request carries: a copy of the stored messages with
      `{system, setting}` put in front exactly when the setting is non-empty. */
  function BuildRequestMessages(list: seq<Message>, system: string): (r: seq<Message>)
    ensures |r| == |list| + (if system != "" then 1 else 0)
    ensures r[|r| - |list|..] == list
    ensures system != "" ==> r[0] == Message(System, system)
  {
    if system != "" then [Message(System, system)] + list else list
  }

  /** The text the request signature is computed over: the content of the
      last message of the request list, or the empty string for an empty list. */
  function SignedContent(request: seq<Message>): string
  {
    if |request| == 0 then "" else request[|request| - 1].content
  }

  /** What gets signed, stated on the stored list: its last message's
      content, or the directive itself when nothing is stored. */
  lemma SignedContentOfRequest(list: seq<Message>, system: string)
    ensures SignedContent(BuildRequestMessages(list, system))
         == if list != [] then list[|list| - 1].content else system
  {
  }

  /** A request list holds one system message when the directive is set and
      none otherwise, and a system message can only stand first. */
  lemma {:induction false} RequestHasAtMostOneSystemMessage(list: seq<Message>, system: string)
    requires NoSystemMessages(list)
    ensures CountRole(BuildRequestMessages(list, system), System) == if system != "" then 1 else 0
    ensures forall i :: (0 <= i < |BuildRequestMessages(list, system)| &&
                         BuildRequestMessages(list, system)[i].role == System) ==> i == 0
  {
    var r := BuildRequestMessages(list, system);
    assert CountRole(list, System) == 0;
    if system != "" {
      assert r[1..] == list;
    }
  }
}
