/** Transcript entries, role-tagged chat messages, and the name normalisation
    `remove_spaces_in_name` (debate.py lines 25-29). */
module Messages {
  import opened Wrappers
  import opened Text

  /** The reserved speaker name of moderator turns. */
  const Judge: string := "Judge"

  /** One transcript entry: `{"agent_name": ..., "content": ...}`. */
  datatype Entry = Entry(agentName: string, content: string)

  /** The name given to synthesized user turns. */
  const UserName: string := "user"

  datatype Role = User | Assistant

  /** A chat message `{"role": ..., "name": ..., "content": ...}`; `name` is
      optional because `remove_spaces_in_name` accepts messages without one. */
  datatype ChatMessage = ChatMessage(role: Role, name: Option<string>, content: string)

  /** A synthesized user turn, named "user". */
  function UserMessage(content: string): ChatMessage {
    ChatMessage(User, Some(UserName), content)
  }

  function AssistantMessage(name: string, content: string): ChatMessage {
    ChatMessage(Assistant, Some(name), content)
  }

  /** `name.replace(" ", "_")`. */
  function Underscored(name: string): (r: string)
    ensures |r| == |name|
    ensures forall k :: 0 <= k < |name| ==> r[k] == if name[k] == ' ' then '_' else name[k]
  {
    ReplaceCharPointwise(name, ' ', '_');
    ReplaceAll(name, " ", "_")
  }

  /** `remove_spaces_in_name`, returning a new list instead of mutating the
      messages in place. */
  function RemoveSpacesInName(ms: seq<ChatMessage>): (r: seq<ChatMessage>)
    ensures |r| == |ms|
    ensures forall i :: 0 <= i < |ms| ==> r[i].role == ms[i].role && r[i].content == ms[i].content
    ensures forall i :: 0 <= i < |ms| && ms[i].name.None? ==> r[i] == ms[i]
    ensures forall i :: 0 <= i < |ms| && ms[i].name.Some? ==>
              r[i].name.Some? && |r[i].name.value| == |ms[i].name.value| && ' ' !in r[i].name.value
    decreases |ms|
  {
    if |ms| == 0 then []
    else
      var m := ms[0];
      var m' := match m.name
        case None => m
        case Some(n) => m.(name := Some(Underscored(n)));
      [m'] + RemoveSpacesInName(ms[1..])
  }

  /** Only spaces change: every other character of a name is kept in place. */
  lemma {:induction false} RemoveSpacesKeepsOtherCharacters(ms: seq<ChatMessage>, i: nat, k: nat)
    requires i < |ms| && ms[i].name.Some? && k < |ms[i].name.value|
    ensures RemoveSpacesInName(ms)[i].name.value[k] ==
            if ms[i].name.value[k] == ' ' then '_' else ms[i].name.value[k]
    decreases i
  {
    if i > 0 {
      RemoveSpacesKeepsOtherCharacters(ms[1..], i - 1, k);
    }
  }

  /** Normalising twice is the same as normalising once. */
  lemma {:induction false} RemoveSpacesIdempotent(ms: seq<ChatMessage>)
    ensures RemoveSpacesInName(RemoveSpacesInName(ms)) == RemoveSpacesInName(ms)
    decreases |ms|
  {
    if |ms| > 0 {
      RemoveSpacesIdempotent(ms[1..]);
      var r := RemoveSpacesInName(ms);
      assert r[1..] == RemoveSpacesInName(ms[1..]);
      if r[0].name.Some? {
        var n := r[0].name.value;
        OccursChar(n, ' ');
        ReplaceAllAbsent(n, " ", "_");
      }
    }
  }
}
