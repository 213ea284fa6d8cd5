/** `construct_message_from_history` (debate.py lines 152-269): the view of a
    debate transcript that the next agent is given, in one of four modes.

    Each mode that loops in Python is modelled twice: a fold that follows the
    Python loop step by step (its accumulators are parameters), and a reference
    definition that says what the result is in terms of the transcript cut into
    segments. A lemma shows the two agree. */
module History {
  import opened Wrappers
  import opened Text
  import opened Messages
  import opened Sequences

  datatype Mode = AssistantList | OnePrompt | TsinghuaJudge | TsinghuaMad

  /** The literal that selects each mode. */
  function ModeName(m: Mode): string {
    match m
    case AssistantList => "assistant_list"
    case OnePrompt => "one_prompt"
    case TsinghuaJudge => "tsinghua_judge"
    case TsinghuaMad => "tsinghua_mad"
  }

  /** The mode a selector string names, if any. */
  function ParseMode(mode: string): (m: Option<Mode>)
    ensures m.Some? ==> ModeName(m.value) == mode
  {
    if mode == "assistant_list" then Some(AssistantList)
    else if mode == "one_prompt" then Some(OnePrompt)
    else if mode == "tsinghua_judge" then Some(TsinghuaJudge)
    else if mode == "tsinghua_mad" then Some(TsinghuaMad)
    else None
  }

  /** Every mode's literal selects that mode, so a selector is rejected exactly
      when it is none of the four literals. */
  lemma ParseModeName(m: Mode)
    ensures ParseMode(ModeName(m)) == Some(m)
  {
  }

  // ---------------------------------------------------------------- assistant_list

  /** Every entry becomes an assistant message with the speaker's name. */
  function AssistantView(h: seq<Entry>): (r: seq<ChatMessage>)
    ensures |r| == |h|
    ensures forall i :: 0 <= i < |h| ==> r[i] == AssistantMessage(h[i].agentName, h[i].content)
    decreases |h|
  {
    if |h| == 0 then []
    else [AssistantMessage(h[0].agentName, h[0].content)] + AssistantView(h[1..])
  }

  // ---------------------------------------------------------------- one_prompt

  const Paragraph: string := "\n\n"
  const ArguingLabel: string := " arguing: "

  /** `"\n\n" + agent_name + " arguing: " + content`. */
  function Arguing(e: Entry): string {
    Paragraph + e.agentName + ArguingLabel + e.content
  }

  /** The concatenated, unstripped text of `one_prompt`. */
  function Transcript(h: seq<Entry>): (r: string)
    ensures r == "" <==> |h| == 0
    decreases |h|
  {
    if |h| == 0 then "" else Arguing(h[0]) + Transcript(h[1..])
  }

  /** The loop appends one paragraph per entry: the transcript of a
      concatenation is the concatenation of the transcripts. */
  lemma {:induction false} TranscriptAppend(a: seq<Entry>, b: seq<Entry>)
    ensures Transcript(a + b) == Transcript(a) + Transcript(b)
    decreases |a|
  {
    if |a| == 0 {
      assert a + b == b;
    } else {
      assert (a + b)[0] == a[0];
      assert (a + b)[1..] == a[1..] + b;
      TranscriptAppend(a[1..], b);
      AppendAssoc(Arguing(a[0]), Transcript(a[1..]), Transcript(b));
    }
  }

  /** The single user message `one_prompt` produces. */
  function OnePromptMessage(h: seq<Entry>): (m: ChatMessage)
    ensures m.role == User && m.name == Some(UserName)
  {
    UserMessage(Strip(Transcript(h)))
  }

  /** `one_prompt`: always exactly one user message, even for an empty
      transcript. */
  function OnePromptView(h: seq<Entry>): (r: seq<ChatMessage>)
    ensures |r| == 1 && r[0].role == User && r[0].name == Some(UserName)
    ensures |h| == 0 ==> r[0].content == ""
  {
    [OnePromptMessage(h)]
  }

  /** Two entries by Alice and Bob render as one paragraph each. */
  lemma OnePromptExample()
    ensures OnePromptView([Entry("Alice", "x"), Entry("Bob", "y")])
         == [UserMessage("Alice arguing: x\n\nBob arguing: y")]
  {
    var h := [Entry("Alice", "x"), Entry("Bob", "y")];
    var body := "Alice arguing: x\n\nBob arguing: y";
    assert h[1..] == [Entry("Bob", "y")];
    assert Transcript(h) == "\n\n" + body;
    StripLeadingNewline("\n" + body);
    assert "\n\n" + body == "\n" + ("\n" + body);
    StripLeadingNewline(body);
    StripNoop(body);
  }

  // ---------------------------------------------------------------- alternation

  /** Roles alternate, user at every even position and assistant at every odd
      one; with an odd length the list starts and ends with a user message. */
  predicate Alternates(r: seq<ChatMessage>) {
    forall j :: 0 <= j < |r| ==> r[j].role == if j % 2 == 0 then User else Assistant
  }

  /** A user and an assistant message put in front of alternating messages
      keep them alternating. */
  lemma AlternatesAfterPair(out: seq<ChatMessage>, u: ChatMessage, a: ChatMessage, r: seq<ChatMessage>)
    requires u.role == User && a.role == Assistant
    requires |out| + 2 <= |r| && r[..|out| + 2] == out + [u] + [a] && Alternates(r[|out| + 2..])
    ensures r[..|out|] == out && Alternates(r[|out|..])
  {
    var tail := r[|out|..];
    var rest := r[|out| + 2..];
    assert r[..|out|] == r[..|out| + 2][..|out|];
    forall j | 0 <= j < |tail| ensures tail[j].role == if j % 2 == 0 then User else Assistant {
      if j < 2 {
        assert tail[j] == r[..|out| + 2][|out| + j];
      } else {
        assert tail[j] == rest[j - 2];
      }
    }
  }

  /** Every message has the given role. */
  predicate AllWithRole(ms: seq<ChatMessage>, role: Role) {
    forall k :: 0 <= k < |ms| ==> ms[k].role == role
  }

  /** The roles of an interleaving of user and assistant messages alternate,
      user first and last. */
  lemma InterleaveRoles(users: seq<ChatMessage>, assistants: seq<ChatMessage>)
    requires |users| == |assistants| + 1
    requires AllWithRole(users, User) && AllWithRole(assistants, Assistant)
    ensures Alternates(Interleave(users, assistants))
  {
    var r := Interleave(users, assistants);
    forall j | 0 <= j < |r| ensures r[j].role == if j % 2 == 0 then User else Assistant {
      var k := j / 2;
      InterleaveAt(users, assistants, k);
      if j % 2 == 0 {
        assert j == 2 * k;
      } else {
        assert j == 2 * k + 1;
      }
    }
  }

  // ---------------------------------------------------------------- tsinghua_judge

  predicate IsJudge(e: Entry) {
    e.agentName == Judge
  }

  /** The loop of `tsinghua_judge`: `segment` holds the entries since the last
      Judge entry, `out` the messages built so far. */
  function JudgeFold(h: seq<Entry>, agentName: string, segment: seq<Entry>, out: seq<ChatMessage>): (r: seq<ChatMessage>)
    ensures |r| == |out| + 2 * |JudgeContents(h)| + 1
    decreases |h|
  {
    if |h| == 0 then out + OnePromptView(segment)
    else if !IsJudge(h[0]) then JudgeFold(h[1..], agentName, segment + [h[0]], out)
    else JudgeFold(h[1..], agentName, [], out + OnePromptView(segment) + [AssistantMessage(agentName, h[0].content)])
  }

  /** Each Judge entry adds a user and an assistant message and the end one more
      user message, so the messages after `out` alternate, user first. */
  lemma {:induction false} JudgeFoldRoles(h: seq<Entry>, agentName: string, segment: seq<Entry>, out: seq<ChatMessage>)
    ensures var r := JudgeFold(h, agentName, segment, out);
            r[..|out|] == out && Alternates(r[|out|..])
    decreases |h|
  {
    var r := JudgeFold(h, agentName, segment, out);
    if |h| == 0 {
      assert r[..|out|] == out && r[|out|..] == OnePromptView(segment);
    } else if !IsJudge(h[0]) {
      JudgeFoldRoles(h[1..], agentName, segment + [h[0]], out);
    } else {
      var u := OnePromptMessage(segment);
      var a := AssistantMessage(agentName, h[0].content);
      assert r == JudgeFold(h[1..], agentName, [], out + [u] + [a]);
      JudgeFoldRoles(h[1..], agentName, [], out + [u] + [a]);
      AlternatesAfterPair(out, u, a, r);
    }
  }

  /** `tsinghua_judge` as Python computes it. */
  function JudgeView(h: seq<Entry>, agentName: string): (r: seq<ChatMessage>)
    ensures |r| == 2 * |JudgeContents(h)| + 1
  {
    JudgeFold(h, agentName, [], [])
  }

  /** The contents of the Judge entries, in order. */
  function JudgeContents(h: seq<Entry>): (r: seq<string>)
    ensures |r| <= |h|
    decreases |h|
  {
    if |h| == 0 then []
    else if IsJudge(h[0]) then [h[0].content] + JudgeContents(h[1..])
    else JudgeContents(h[1..])
  }

  /** The non-Judge entries, in order. */
  function WithoutJudges(h: seq<Entry>): (r: seq<Entry>)
    ensures forall e :: e in r <==> e in h && !IsJudge(e)
    decreases |h|
  {
    if |h| == 0 then []
    else if IsJudge(h[0]) then WithoutJudges(h[1..])
    else [h[0]] + WithoutJudges(h[1..])
  }

  /** The transcript cut at every Judge entry: the runs of non-Judge entries
      before the first Judge entry, between consecutive ones, and after the
      last; runs may be empty. */
  function JudgeSegments(h: seq<Entry>): (r: seq<seq<Entry>>)
    ensures |r| == |JudgeContents(h)| + 1
    decreases |h|
  {
    if |h| == 0 then [[]]
    else
      var rest := JudgeSegments(h[1..]);
      if IsJudge(h[0]) then [[]] + rest
      else [[h[0]] + rest[0]] + rest[1..]
  }

  /** Concatenation of a list of segments. */
  function Flatten(segments: seq<seq<Entry>>): seq<Entry>
    decreases |segments|
  {
    if |segments| == 0 then [] else segments[0] + Flatten(segments[1..])
  }

  /** Cutting at Judge entries loses no other entry and reorders nothing. */
  lemma {:induction false} JudgeSegmentsCover(h: seq<Entry>)
    ensures Flatten(JudgeSegments(h)) == WithoutJudges(h)
    decreases |h|
  {
    if |h| > 0 {
      JudgeSegmentsCover(h[1..]);
      var rest := JudgeSegments(h[1..]);
      if IsJudge(h[0]) {
        assert ([[]] + rest)[1..] == rest;
      } else {
        var s := [[h[0]] + rest[0]] + rest[1..];
        assert s[1..] == rest[1..];
        assert Flatten(rest) == rest[0] + Flatten(rest[1..]);
      }
    }
  }

  /** The segments with `pending`, entries already collected, in front of the
      first. */
  function JudgeRuns(pending: seq<Entry>, h: seq<Entry>): (r: seq<seq<Entry>>)
    ensures |r| == |JudgeContents(h)| + 1
  {
    var segments := JudgeSegments(h);
    [pending + segments[0]] + segments[1..]
  }

  /** Every run rendered by `one_prompt`. */
  function UserPrompts(runs: seq<seq<Entry>>): (r: seq<ChatMessage>)
    ensures |r| == |runs|
  {
    Map(OnePromptMessage, runs)
  }

  /** Contents attributed to one agent. */
  function Replies(agentName: string, contents: seq<string>): (r: seq<ChatMessage>)
    ensures |r| == |contents|
    ensures forall i :: 0 <= i < |contents| ==> r[i] == AssistantMessage(agentName, contents[i])
    decreases |contents|
  {
    if |contents| == 0 then [] else [AssistantMessage(agentName, contents[0])] + Replies(agentName, contents[1..])
  }

  /** Reference definition of `tsinghua_judge`: every segment rendered by
      `one_prompt`, interleaved with the Judge contents attributed to the
      current agent. */
  function JudgeReference(pending: seq<Entry>, h: seq<Entry>, agentName: string): seq<ChatMessage> {
    Interleave(UserPrompts(JudgeRuns(pending, h)), Replies(agentName, JudgeContents(h)))
  }

  /** A non-Judge entry joins the current segment. */
  lemma JudgeStepOther(pending: seq<Entry>, h: seq<Entry>)
    requires |h| > 0 && !IsJudge(h[0])
    ensures JudgeRuns(pending + [h[0]], h[1..]) == JudgeRuns(pending, h)
    ensures JudgeContents(h[1..]) == JudgeContents(h)
  {
    var rest := JudgeSegments(h[1..]);
    assert JudgeSegments(h) == [[h[0]] + rest[0]] + rest[1..];
    HeadTail([h[0]] + rest[0], rest[1..]);
    AppendAssoc(pending, [h[0]], rest[0]);
  }

  /** A Judge entry closes the current segment. */
  lemma JudgeStepJudge(pending: seq<Entry>, h: seq<Entry>)
    requires |h| > 0 && IsJudge(h[0])
    ensures JudgeRuns(pending, h) == [pending] + JudgeRuns([], h[1..])
    ensures JudgeContents(h) == [h[0].content] + JudgeContents(h[1..])
  {
    var rest := JudgeSegments(h[1..]);
    assert JudgeSegments(h) == [[]] + rest;
    assert pending + [] == pending;
    assert [] + rest[0] == rest[0];
  }

  /** The Python loop computes the reference view, whatever has been
      accumulated so far. */
  lemma {:induction false} JudgeFoldIsReference(h: seq<Entry>, agentName: string, pending: seq<Entry>,
                                                out: seq<ChatMessage>)
    ensures JudgeFold(h, agentName, pending, out) == out + JudgeReference(pending, h, agentName)
    decreases |h|
  {
    if |h| == 0 {
      assert pending + [] == pending;
      assert JudgeRuns(pending, h) == [pending];
    } else if !IsJudge(h[0]) {
      JudgeFoldIsReference(h[1..], agentName, pending + [h[0]], out);
      JudgeStepOther(pending, h);
    } else {
      var m := AssistantMessage(agentName, h[0].content);
      var u := OnePromptMessage(pending);
      JudgeFoldIsReference(h[1..], agentName, [], out + [u] + [m]);
      JudgeStepJudge(pending, h);
      var runs := JudgeRuns([], h[1..]);
      MapCons(OnePromptMessage, pending, runs);
      var contents := JudgeContents(h[1..]);
      assert Replies(agentName, [h[0].content] + contents) == [m] + Replies(agentName, contents) by {
        assert ([h[0].content] + contents)[1..] == contents;
      }
      InterleaveCons(u, UserPrompts(runs), m, Replies(agentName, contents));
      Regroup(out, u, m, JudgeReference([], h[1..], agentName));
    }
  }

  /** The shape of `tsinghua_judge`: with J Judge entries there are 2J+1
      messages, alternating user and assistant, starting and ending with a
      user message. */
  lemma JudgeViewShape(h: seq<Entry>, agentName: string)
    ensures |JudgeView(h, agentName)| == 2 * |JudgeContents(h)| + 1
    ensures Alternates(JudgeView(h, agentName))
  {
    JudgeReferenceAlternates(h, agentName);
    JudgeViewInterleaves(h, agentName);
  }

  lemma JudgeReferenceAlternates(h: seq<Entry>, agentName: string)
    ensures Alternates(Interleave(Map(OnePromptMessage, JudgeSegments(h)), Replies(agentName, JudgeContents(h))))
  {
    var segments := JudgeSegments(h);
    PromptsAreUserMessages(segments);
    RepliesAreAssistantMessages(agentName, JudgeContents(h));
    InterleaveRoles(Map(OnePromptMessage, segments), Replies(agentName, JudgeContents(h)));
  }

  /** `one_prompt` renders every segment as a user message. */
  lemma PromptsAreUserMessages(segments: seq<seq<Entry>>)
    ensures AllWithRole(Map(OnePromptMessage, segments), User)
  {
    var users := Map(OnePromptMessage, segments);
    forall k | 0 <= k < |segments| ensures users[k].role == User {
      assert users[k] == OnePromptMessage(segments[k]);
    }
  }

  /** Contents attributed to an agent are assistant messages. */
  lemma RepliesAreAssistantMessages(agentName: string, contents: seq<string>)
    ensures AllWithRole(Replies(agentName, contents), Assistant)
  {
    var r := Replies(agentName, contents);
    forall k | 0 <= k < |contents| ensures r[k].role == Assistant {
      assert r[k] == AssistantMessage(agentName, contents[k]);
    }
  }


  /** The k-th user message of `tsinghua_judge` is `one_prompt` of the k-th
      segment, and the k-th assistant message carries the k-th Judge content
      under the current agent's name. */
  lemma JudgeViewAt(h: seq<Entry>, agentName: string, k: nat)
    requires k < |JudgeSegments(h)|
    ensures 2 * k < |JudgeView(h, agentName)|
    ensures JudgeView(h, agentName)[2 * k] == OnePromptMessage(JudgeSegments(h)[k])
    ensures k < |JudgeContents(h)| ==>
              JudgeView(h, agentName)[2 * k + 1] == AssistantMessage(agentName, JudgeContents(h)[k])
  {
    var users := Map(OnePromptMessage, JudgeSegments(h));
    var assistants := Replies(agentName, JudgeContents(h));
    JudgeViewInterleaves(h, agentName);
    InterleaveAt(users, assistants, k);
  }

  /** `tsinghua_judge` is the segments' user prompts interleaved with the Judge
      replies. */
  lemma JudgeViewInterleaves(h: seq<Entry>, agentName: string)
    ensures JudgeView(h, agentName)
         == Interleave(Map(OnePromptMessage, JudgeSegments(h)), Replies(agentName, JudgeContents(h)))
  {
    JudgeFoldIsReference(h, agentName, [], []);
    var segments := JudgeSegments(h);
    assert JudgeRuns([], h) == segments by {
      assert [] + segments[0] == segments[0];
    }
  }

  /** One step of the fold at a Judge entry. */
  lemma JudgeFoldJudge(h: seq<Entry>, agentName: string, segment: seq<Entry>, out: seq<ChatMessage>)
    requires |h| > 0 && IsJudge(h[0])
    ensures JudgeFold(h, agentName, segment, out)
         == JudgeFold(h[1..], agentName, [], out + [OnePromptMessage(segment)] + [AssistantMessage(agentName, h[0].content)])
  {
  }

  /** Two Judge entries in a row leave an empty user message between them,
      and one before and after. */
  lemma JudgeBackToBack(agentName: string, x: string, y: string)
    ensures JudgeView([Entry(Judge, x), Entry(Judge, y)], agentName)
         == [UserMessage(""), AssistantMessage(agentName, x), UserMessage(""), AssistantMessage(agentName, y),
             UserMessage("")]
  {
    var h := [Entry(Judge, x), Entry(Judge, y)];
    var u := OnePromptMessage([]);
    var ax := AssistantMessage(agentName, x);
    var ay := AssistantMessage(agentName, y);
    JudgeFoldJudge(h, agentName, [], []);
    assert h[1..] == [Entry(Judge, y)];
    JudgeFoldJudge(h[1..], agentName, [], [] + [u] + [ax]);
    assert h[1..][1..] == [];
    assert JudgeFold([], agentName, [], [] + [u] + [ax] + [u] + [ay]) == [] + [u] + [ax] + [u] + [ay] + [u];
    FiveInOrder(u, ax, u, ay);
    StripNoop("");
  }

  // ---------------------------------------------------------------- tsinghua_mad

  /** The distinct non-Judge speakers. */
  function Speakers(h: seq<Entry>): set<string> {
    set e | e in h && !IsJudge(e) :: e.agentName
  }

  /** At most two distinct non-Judge speakers. */
  predicate TwoAgentDebate(h: seq<Entry>) {
    |Speakers(h)| <= 2
  }

  /** There are no more distinct speakers than non-Judge entries. */
  lemma {:induction false} SpeakersBound(h: seq<Entry>)
    ensures |Speakers(h)| <= |WithoutJudges(h)|
    decreases |h|
  {
    if |h| > 0 {
      SpeakersBound(h[1..]);
      assert forall e :: e in h <==> e == h[0] || e in h[1..] by {
        assert h == [h[0]] + h[1..];
      }
      var head: set<string> := if IsJudge(h[0]) then {} else {h[0].agentName};
      assert Speakers(h) == head + Speakers(h[1..]);
    }
  }

  /** A transcript with at most two non-Judge entries is always a two-agent
      debate. */
  lemma ShortDebateIsTwoAgent(h: seq<Entry>)
    requires |WithoutJudges(h)| <= 2
    ensures TwoAgentDebate(h)
  {
    SpeakersBound(h);
  }

  /** An entry of the agent whose view is built; Judge entries never are. */
  predicate IsOwn(e: Entry, agentName: string) {
    !IsJudge(e) && e.agentName == agentName
  }

  /** What another agent's entry adds to the pending user text. */
  function Chunk(e: Entry, twoAgent: bool): string {
    if twoAgent then e.content else Arguing(e)
  }

  /** A user message carrying the pending text, stripped of outer newlines. */
  function Flush(pending: string): (m: ChatMessage)
    ensures m.role == User && m.name == Some(UserName) && NoOuterNewline(m.content)
  {
    UserMessage(Strip(pending))
  }

  /** The loop of `tsinghua_mad`: `pending` is the user text accumulated since
      the agent last spoke, `out` the messages built so far. */
  function MadFold(h: seq<Entry>, agentName: string, twoAgent: bool, pending: string, out: seq<ChatMessage>)
    : (r: seq<ChatMessage>)
    ensures |r| == |out| + 2 * |OwnContents(h, agentName)| + 1
    decreases |h|
  {
    if |h| == 0 then out + [Flush(pending)]
    else if IsJudge(h[0]) then MadFold(h[1..], agentName, twoAgent, pending, out)
    else if h[0].agentName == agentName then
      MadFold(h[1..], agentName, twoAgent, "", out + [Flush(pending)] + [AssistantMessage(h[0].agentName, h[0].content)])
    else MadFold(h[1..], agentName, twoAgent, pending + Chunk(h[0], twoAgent), out)
  }

  /** Each of the agent's own entries adds a user and an assistant message and
      the end one more user message, so the messages after `out` alternate,
      user first. */
  lemma {:induction false} MadFoldRoles(h: seq<Entry>, agentName: string, twoAgent: bool, pending: string,
                                        out: seq<ChatMessage>)
    ensures var r := MadFold(h, agentName, twoAgent, pending, out);
            r[..|out|] == out && Alternates(r[|out|..])
    decreases |h|
  {
    var r := MadFold(h, agentName, twoAgent, pending, out);
    if |h| == 0 {
      assert r[..|out|] == out && r[|out|..] == [Flush(pending)];
    } else if IsJudge(h[0]) {
      MadFoldRoles(h[1..], agentName, twoAgent, pending, out);
    } else if h[0].agentName == agentName {
      var u := Flush(pending);
      var a := AssistantMessage(h[0].agentName, h[0].content);
      assert r == MadFold(h[1..], agentName, twoAgent, "", out + [u] + [a]);
      MadFoldRoles(h[1..], agentName, twoAgent, "", out + [u] + [a]);
      AlternatesAfterPair(out, u, a, r);
    } else {
      MadFoldRoles(h[1..], agentName, twoAgent, pending + Chunk(h[0], twoAgent), out);
    }
  }

  /** `tsinghua_mad` as Python computes it. */
  function MadView(h: seq<Entry>, agentName: string): (r: seq<ChatMessage>)
    ensures |r| == 2 * |OwnContents(h, agentName)| + 1
  {
    MadFold(h, agentName, TwoAgentDebate(h), "", [])
  }

  /** The contents of the agent's own entries, in order. */
  function OwnContents(h: seq<Entry>, agentName: string): (r: seq<string>)
    ensures |r| <= |h|
    decreases |h|
  {
    if |h| == 0 then []
    else if IsOwn(h[0], agentName) then [h[0].content] + OwnContents(h[1..], agentName)
    else OwnContents(h[1..], agentName)
  }

  /** The other agents' entries, cut at the agent's own entries, Judge entries
      left out; runs may be empty. */
  function MadSegments(h: seq<Entry>, agentName: string): (r: seq<seq<Entry>>)
    ensures |r| == |OwnContents(h, agentName)| + 1
    decreases |h|
  {
    if |h| == 0 then [[]]
    else
      var rest := MadSegments(h[1..], agentName);
      if IsJudge(h[0]) then rest
      else if IsOwn(h[0], agentName) then [[]] + rest
      else [[h[0]] + rest[0]] + rest[1..]
  }

  /** The pending text a run of other agents' entries accumulates. */
  function Chunks(segment: seq<Entry>, twoAgent: bool): string
    decreases |segment|
  {
    if |segment| == 0 then "" else Chunk(segment[0], twoAgent) + Chunks(segment[1..], twoAgent)
  }

  /** In a debate of three or more agents, each run is rendered as in
      `one_prompt`. */
  lemma {:induction false} ChunksMulti(segment: seq<Entry>)
    ensures Chunks(segment, false) == Transcript(segment)
    decreases |segment|
  {
    if |segment| > 0 {
      ChunksMulti(segment[1..]);
    }
  }

  /** The plain concatenation of the contents of a run. */
  function Contents(segment: seq<Entry>): string
    decreases |segment|
  {
    if |segment| == 0 then "" else segment[0].content + Contents(segment[1..])
  }

  /** In a two-agent debate no "arguing" prefix is added: the run's contents
      are simply concatenated. */
  lemma {:induction false} ChunksTwo(segment: seq<Entry>)
    ensures Chunks(segment, true) == Contents(segment)
    decreases |segment|
  {
    if |segment| > 0 {
      ChunksTwo(segment[1..]);
    }
  }

  /** The text of every run. */
  function RunTexts(segments: seq<seq<Entry>>, twoAgent: bool): (r: seq<string>)
    ensures |r| == |segments|
    ensures forall i :: 0 <= i < |segments| ==> r[i] == Chunks(segments[i], twoAgent)
    decreases |segments|
  {
    if |segments| == 0 then [] else [Chunks(segments[0], twoAgent)] + RunTexts(segments[1..], twoAgent)
  }

  /** The user texts of `tsinghua_mad`: one per run, the first preceded by
      `pending`, text already accumulated. */
  function MadTexts(pending: string, h: seq<Entry>, agentName: string, twoAgent: bool): (r: seq<string>)
    ensures |r| == |OwnContents(h, agentName)| + 1
  {
    var segments := MadSegments(h, agentName);
    [pending + Chunks(segments[0], twoAgent)] + RunTexts(segments[1..], twoAgent)
  }

  /** Reference definition of `tsinghua_mad`: one user message per run,
      interleaved with the agent's own entries. */
  function MadReference(pending: string, h: seq<Entry>, agentName: string, twoAgent: bool): seq<ChatMessage> {
    Interleave(Map(Flush, MadTexts(pending, h, agentName, twoAgent)), Replies(agentName, OwnContents(h, agentName)))
  }

  /** A Judge entry changes nothing. */
  lemma MadStepJudge(pending: string, h: seq<Entry>, agentName: string, twoAgent: bool)
    requires |h| > 0 && IsJudge(h[0])
    ensures MadTexts(pending, h[1..], agentName, twoAgent) == MadTexts(pending, h, agentName, twoAgent)
    ensures OwnContents(h[1..], agentName) == OwnContents(h, agentName)
  {
  }

  /** Another agent's entry extends the pending text. */
  lemma MadStepOther(pending: string, h: seq<Entry>, agentName: string, twoAgent: bool)
    requires |h| > 0 && !IsJudge(h[0]) && h[0].agentName != agentName
    ensures MadTexts(pending + Chunk(h[0], twoAgent), h[1..], agentName, twoAgent)
         == MadTexts(pending, h, agentName, twoAgent)
    ensures OwnContents(h[1..], agentName) == OwnContents(h, agentName)
  {
    var rest := MadSegments(h[1..], agentName);
    var segments := MadSegments(h, agentName);
    var chunk := Chunk(h[0], twoAgent);
    assert segments == [[h[0]] + rest[0]] + rest[1..];
    assert segments[0] == [h[0]] + rest[0];
    assert segments[1..] == rest[1..];
    assert ([h[0]] + rest[0])[1..] == rest[0];
    assert Chunks(segments[0], twoAgent) == chunk + Chunks(rest[0], twoAgent);
    assert (pending + chunk) + Chunks(rest[0], twoAgent) == pending + Chunks(segments[0], twoAgent);
  }

  /** The agent's own entry closes the pending text. */
  lemma MadStepOwn(pending: string, h: seq<Entry>, agentName: string, twoAgent: bool)
    requires |h| > 0 && IsOwn(h[0], agentName)
    ensures MadTexts(pending, h, agentName, twoAgent) == [pending] + MadTexts("", h[1..], agentName, twoAgent)
    ensures OwnContents(h, agentName) == [h[0].content] + OwnContents(h[1..], agentName)
  {
    var rest := MadSegments(h[1..], agentName);
    var segments := MadSegments(h, agentName);
    assert segments == [[]] + rest;
    assert segments[1..] == rest;
    assert pending + Chunks([], twoAgent) == pending;
    assert "" + Chunks(rest[0], twoAgent) == Chunks(rest[0], twoAgent);
    assert RunTexts(rest, twoAgent) == [Chunks(rest[0], twoAgent)] + RunTexts(rest[1..], twoAgent);
  }

  /** The Python loop computes the reference view, whatever has been
      accumulated so far. */
  lemma {:induction false} MadFoldIsReference(h: seq<Entry>, agentName: string, twoAgent: bool, pending: string,
                                              out: seq<ChatMessage>)
    ensures MadFold(h, agentName, twoAgent, pending, out) == out + MadReference(pending, h, agentName, twoAgent)
    decreases |h|
  {
    if |h| == 0 {
      assert pending + "" == pending;
      assert MadTexts(pending, h, agentName, twoAgent) == [pending];
    } else if IsJudge(h[0]) {
      MadFoldIsReference(h[1..], agentName, twoAgent, pending, out);
      MadStepJudge(pending, h, agentName, twoAgent);
    } else if h[0].agentName != agentName {
      MadFoldIsReference(h[1..], agentName, twoAgent, pending + Chunk(h[0], twoAgent), out);
      MadStepOther(pending, h, agentName, twoAgent);
    } else {
      var u := Flush(pending);
      var m := AssistantMessage(agentName, h[0].content);
      MadFoldIsReference(h[1..], agentName, twoAgent, "", out + [u] + [m]);
      MadStepOwn(pending, h, agentName, twoAgent);
      var texts := MadTexts("", h[1..], agentName, twoAgent);
      MapCons(Flush, pending, texts);
      var contents := OwnContents(h[1..], agentName);
      assert Replies(agentName, [h[0].content] + contents) == [m] + Replies(agentName, contents) by {
        assert ([h[0].content] + contents)[1..] == contents;
      }
      InterleaveCons(u, Map(Flush, texts), m, Replies(agentName, contents));
      Regroup(out, u, m, MadReference("", h[1..], agentName, twoAgent));
    }
  }

  /** The shape of `tsinghua_mad`: with C entries by the agent there are 2C+1
      messages, alternating user and assistant, starting and ending with a
      user message. */
  lemma MadViewShape(h: seq<Entry>, agentName: string)
    ensures |MadView(h, agentName)| == 2 * |OwnContents(h, agentName)| + 1
    ensures Alternates(MadView(h, agentName))
  {
    MadReferenceAlternates(h, agentName);
    MadViewInterleaves(h, agentName);
  }

  lemma MadReferenceAlternates(h: seq<Entry>, agentName: string)
    ensures Alternates(Interleave(Map(Flush, RunTexts(MadSegments(h, agentName), TwoAgentDebate(h))),
                                  Replies(agentName, OwnContents(h, agentName))))
  {
    var texts := RunTexts(MadSegments(h, agentName), TwoAgentDebate(h));
    FlushesAreUserMessages(texts);
    RepliesAreAssistantMessages(agentName, OwnContents(h, agentName));
    InterleaveRoles(Map(Flush, texts), Replies(agentName, OwnContents(h, agentName)));
  }

  lemma FlushesAreUserMessages(texts: seq<string>)
    ensures AllWithRole(Map(Flush, texts), User)
  {
    var users := Map(Flush, texts);
    forall k | 0 <= k < |texts| ensures users[k].role == User {
      assert users[k] == Flush(texts[k]);
    }
  }

  /** The k-th assistant message of `tsinghua_mad` is the agent's k-th entry,
      and the k-th user message is the stripped text of the k-th run of other
      agents' entries. */
  lemma MadViewAt(h: seq<Entry>, agentName: string, k: nat)
    requires k < |MadSegments(h, agentName)|
    ensures 2 * k < |MadView(h, agentName)|
    ensures MadView(h, agentName)[2 * k] == Flush(Chunks(MadSegments(h, agentName)[k], TwoAgentDebate(h)))
    ensures k < |OwnContents(h, agentName)| ==>
              MadView(h, agentName)[2 * k + 1] == AssistantMessage(agentName, OwnContents(h, agentName)[k])
  {
    var users := Map(Flush, RunTexts(MadSegments(h, agentName), TwoAgentDebate(h)));
    var assistants := Replies(agentName, OwnContents(h, agentName));
    MadViewInterleaves(h, agentName);
    InterleaveAt(users, assistants, k);
  }

  /** `tsinghua_mad` is one user message per run interleaved with the agent's
      own entries. */
  lemma MadViewInterleaves(h: seq<Entry>, agentName: string)
    ensures MadView(h, agentName)
         == Interleave(Map(Flush, RunTexts(MadSegments(h, agentName), TwoAgentDebate(h))),
                       Replies(agentName, OwnContents(h, agentName)))
  {
    var twoAgent := TwoAgentDebate(h);
    MadFoldIsReference(h, agentName, twoAgent, "", []);
    var segments := MadSegments(h, agentName);
    assert MadTexts("", h, agentName, twoAgent) == RunTexts(segments, twoAgent) by {
      assert "" + Chunks(segments[0], twoAgent) == Chunks(segments[0], twoAgent);
      assert RunTexts(segments, twoAgent) == [Chunks(segments[0], twoAgent)] + RunTexts(segments[1..], twoAgent);
    }
  }

  /** The user messages of `tsinghua_mad` carry no "arguing" prefix in a
      two-agent debate, and are `one_prompt` renderings of their run
      otherwise. */
  lemma MadUserTexts(h: seq<Entry>, agentName: string, k: nat)
    requires k < |MadSegments(h, agentName)|
    ensures 2 * k < |MadView(h, agentName)|
    ensures var segment := MadSegments(h, agentName)[k];
            MadView(h, agentName)[2 * k]
            == if TwoAgentDebate(h) then Flush(Contents(segment)) else OnePromptMessage(segment)
  {
    MadViewAt(h, agentName, k);
    var segment := MadSegments(h, agentName)[k];
    ChunksTwo(segment);
    ChunksMulti(segment);
  }

  /** Judge entries contribute nothing to `tsinghua_mad`. */
  lemma {:induction false} MadSegmentsWithoutJudges(h: seq<Entry>, agentName: string)
    ensures MadSegments(WithoutJudges(h), agentName) == MadSegments(h, agentName)
    ensures OwnContents(WithoutJudges(h), agentName) == OwnContents(h, agentName)
    decreases |h|
  {
    if |h| > 0 {
      MadSegmentsWithoutJudges(h[1..], agentName);
      if !IsJudge(h[0]) {
        assert ([h[0]] + WithoutJudges(h[1..]))[1..] == WithoutJudges(h[1..]);
      }
    }
  }

  lemma MadIgnoresJudges(h: seq<Entry>, agentName: string)
    ensures MadView(WithoutJudges(h), agentName) == MadView(h, agentName)
  {
    var g := WithoutJudges(h);
    assert Speakers(g) == Speakers(h);
    MadSegmentsWithoutJudges(h, agentName);
    MadFoldIsReference(h, agentName, TwoAgentDebate(h), "", []);
    MadFoldIsReference(g, agentName, TwoAgentDebate(g), "", []);
  }

  /** Agent `a` speaks, agent `b` answers, and `a` speaks again: the view for
      `a` opens and closes with a user message with nothing in it, and `b`'s
      answer comes without an "arguing" prefix. */
  lemma MadExchange(a: string, b: string, p: string, q: string, r: string)
    requires a != b && a != Judge && b != Judge
    ensures MadView([Entry(a, p), Entry(b, q), Entry(a, r)], a)
         == [UserMessage(""), AssistantMessage(a, p), UserMessage(Strip(q)), AssistantMessage(a, r), UserMessage("")]
  {
    TwoSpeakers(a, b, p, q, r);
    MadExchangeFold(a, b, p, q, r);
    StripNoop("");
  }

  lemma TwoSpeakers(a: string, b: string, p: string, q: string, r: string)
    requires a != b && a != Judge && b != Judge
    ensures Speakers([Entry(a, p), Entry(b, q), Entry(a, r)]) == {a, b}
  {
  }

  lemma MadExchangeFold(a: string, b: string, p: string, q: string, r: string)
    requires a != b && a != Judge && b != Judge
    ensures MadFold([Entry(a, p), Entry(b, q), Entry(a, r)], a, true, "", [])
         == [Flush(""), AssistantMessage(a, p), Flush(q), AssistantMessage(a, r), Flush("")]
  {
    var h := [Entry(a, p), Entry(b, q), Entry(a, r)];
    var h1 := [Entry(b, q), Entry(a, r)];
    var u0 := Flush("");
    var a0 := AssistantMessage(a, p);
    MadFoldOwn(h, a, true, "", []);
    assert h[1..] == h1;
    MadFoldOther(h1, a, true, "", [] + [u0] + [a0]);
    assert h1[1..] == [Entry(a, r)];
    assert "" + q == q;
    MadFoldLast(a, r, q, [] + [u0] + [a0]);
    FiveInOrder(u0, a0, Flush(q), AssistantMessage(a, r));
  }

  /** One step of the fold at the agent's own entry. */
  lemma MadFoldOwn(h: seq<Entry>, agentName: string, twoAgent: bool, pending: string, out: seq<ChatMessage>)
    requires |h| > 0 && IsOwn(h[0], agentName)
    ensures MadFold(h, agentName, twoAgent, pending, out)
         == MadFold(h[1..], agentName, twoAgent, "", out + [Flush(pending)] + [AssistantMessage(agentName, h[0].content)])
  {
  }

  /** One step of the fold at another agent's entry. */
  lemma MadFoldOther(h: seq<Entry>, agentName: string, twoAgent: bool, pending: string, out: seq<ChatMessage>)
    requires |h| > 0 && !IsJudge(h[0]) && h[0].agentName != agentName
    ensures MadFold(h, agentName, twoAgent, pending, out)
         == MadFold(h[1..], agentName, twoAgent, pending + Chunk(h[0], twoAgent), out)
  {
  }

  /** The fold at a last entry of the agent's own. */
  lemma MadFoldLast(a: string, r: string, pending: string, out: seq<ChatMessage>)
    requires a != Judge
    ensures MadFold([Entry(a, r)], a, true, pending, out)
         == out + [Flush(pending)] + [AssistantMessage(a, r)] + [Flush("")]
  {
    assert [Entry(a, r)][1..] == [];
  }

  /** The five messages of a two-round view, appended one by one, in order. */
  lemma FiveInOrder<T>(u0: T, a0: T, u1: T, a1: T)
    ensures [] + [u0] + [a0] + [u1] + [a1] + [u0] == [u0, a0, u1, a1, u0]
  {
  }

  // ---------------------------------------------------------------- dispatch

  /** `construct_message_from_history(message_history, agent_name, mode)`. */
  function ConstructMessageFromHistory(h: seq<Entry>, agentName: string, mode: string)
    : (r: Result<seq<ChatMessage>>)
    ensures r.Failure? <==> ParseMode(mode).None?
    ensures r.Failure? ==> r.error == InvalidMode
    ensures mode == "assistant_list" ==> r == Success(AssistantView(h))
    ensures mode == "one_prompt" ==> r == Success(OnePromptView(h))
    ensures mode == "tsinghua_judge" ==> r == Success(JudgeView(h, agentName))
    ensures mode == "tsinghua_mad" ==> r == Success(MadView(h, agentName))
  {
    match ParseMode(mode)
    case None => Failure(InvalidMode)
    case Some(AssistantList) => Success(AssistantView(h))
    case Some(OnePrompt) => Success(OnePromptView(h))
    case Some(TsinghuaJudge) => Success(JudgeView(h, agentName))
    case Some(TsinghuaMad) => Success(MadView(h, agentName))
  }
}
