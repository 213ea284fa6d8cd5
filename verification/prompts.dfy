/** The prompt builders of debate.py: `remove_question` (lines 272-279),
    `construct_summary_message` (lines 32-41) and `construct_message`
    (lines 44-66). Prompt templates are a string-keyed map, as in the Python
    `prompts` dict; a missing key is a KeyError. */
module Prompts {
  import opened Wrappers
  import opened Text
  import opened Formatting

  /** The self-check sentence both builders fall back on when there is nothing
      from other agents to show. */
  const Introspection: string :=
    "Can you verify that your answer is correct. Please reiterate your answer."

  const PrefixKey: string := "prefix_seperator"
  const SuffixKey: string := "suffix_seperator"
  const SummaryPrefixKey: string := "summary_prefix_seperator"
  const SummarySuffixKey: string := "summary_suffix_seperator"
  const AgentResponseKey: string := "agent_response"

  /** `prompts[key]`. */
  function Lookup(prompts: map<string, string>, key: string): (r: Result<string>)
    ensures r.Success? <==> key in prompts
    ensures r.Success? ==> r.value == prompts[key]
    ensures r.Failure? ==> r.error == KeyError(key)
  {
    if key in prompts then Success(prompts[key]) else Failure(KeyError(key))
  }

  // ---------------------------------------------------------------- remove_question

  /** `string.replace(question, "", 1)` applied `n` times. */
  function RemoveTimes(s: string, q: string, n: nat): (r: string)
    ensures |r| <= |s|
    ensures |q| == 0 || !Occurs(s, q) ==> r == s
    ensures n > 0 && |q| > 0 && Occurs(s, q) ==> |r| < |s|
    decreases n
  {
    if n == 0 then s
    else
      var s' := ReplaceFirst(s, q, "");
      assert |q| == 0 || !Occurs(s, q) ==> s' == s by {
        if |q| == 0 && Occurs(s, q) {
          var i: nat :| OccursAt(s, q, i) && s' == s[..i] + "" + s[i + |q|..];
          assert s[..i] + s[i..] == s;
        }
      }
      assert Occurs(s, q) ==> |s'| == |s| - |q| by {
        if Occurs(s, q) {
          var i: nat :| OccursAt(s, q, i) && s' == s[..i] + "" + s[i + |q|..];
        }
      }
      RemoveTimes(s', q, n - 1)
  }

  /** `remove_question(string, question)`: count the overlapping matches of the
      question first, then delete the leftmost occurrence that many times. */
  function RemoveQuestion(s: string, q: string): (r: string)
    ensures |r| <= |s|
    ensures |q| == 0 || !Occurs(s, q) ==> r == s
    ensures |q| > 0 && Occurs(s, q) ==> |r| < |s|
  {
    RemoveTimes(s, q, CountOverlapping(s, q))
  }

  /** Every copy of the question between parts without its first character is
      removed, and nothing else: the count finds at least one match per copy,
      each deletion takes the leftmost copy, and once no copy is left the
      remaining deletions find nothing. */
  lemma {:induction false} RemoveTimesJoin(parts: seq<string>, q: string, n: nat)
    requires |q| > 0 && |parts| > 0 && FreeOf(parts, q[0])
    requires |parts| - 1 <= n
    ensures RemoveTimes(Join(parts, q), q, n) == Join(parts, "")
    decreases |parts|
  {
    if |parts| == 1 {
      FreeOfTail(parts, q[0]);
      RemoveTimesAbsent(parts[0], q, n);
    } else {
      var k: nat := n - 1;
      FreeOfMergeFirst(parts, q[0]);
      RemoveTimesSucc(Join(parts, q), q, n, k);
      RemoveTimesJoinStep(parts, q, k);
      RemoveTimesJoin(MergeFirst(parts), q, k);
      ConcatMergeFirst(parts);
    }
  }

  /** Without the question's first character there is nothing to delete. */
  lemma RemoveTimesAbsent(s: string, q: string, n: nat)
    requires |q| > 0 && q[0] !in s
    ensures RemoveTimes(s, q, n) == s
  {
    AbsentLead(s, q);
  }

  /** The first deletion takes the first copy and glues the parts around it. */
  lemma RemoveTimesJoinStep(parts: seq<string>, q: string, k: nat)
    requires |q| > 0 && |parts| > 1 && q[0] !in parts[0]
    ensures RemoveTimes(Join(parts, q), q, k + 1) == RemoveTimes(Join(MergeFirst(parts), q), q, k)
  {
    var a := parts[0];
    var tail := Join(parts[1..], q);
    assert Join(parts, q) == a + q + tail;
    ReplaceFirstAfter(a, q, tail, "");
    assert a + "" + tail == a + tail;
    JoinMergeFirst(parts, q);
    RemoveTimesStep(a + q + tail, q, k);
  }

  lemma RemoveTimesStep(s: string, q: string, k: nat)
    ensures RemoveTimes(s, q, k + 1) == RemoveTimes(ReplaceFirst(s, q, ""), q, k)
  {
  }

  lemma RemoveTimesSucc(s: string, q: string, n: nat, k: nat)
    requires n == k + 1
    ensures RemoveTimes(s, q, n) == RemoveTimes(s, q, k + 1)
  {
  }

  /** `remove_question` on text that is parts joined by the question: the parts
      are put together and every copy of the question is gone. */
  lemma RemoveQuestionJoin(parts: seq<string>, q: string)
    requires |q| > 0 && |parts| > 0 && FreeOf(parts, q[0])
    ensures RemoveQuestion(Join(parts, q), q) == Join(parts, "")
  {
    CountJoin(parts, q);
    RemoveTimesJoin(parts, q, CountOverlapping(Join(parts, q), q));
  }

  /** One restated question between text without its first character is cut
      out. */
  lemma RemoveQuestionOnce(a: string, q: string, b: string)
    requires |q| > 0 && q[0] !in a && q[0] !in b
    ensures RemoveQuestion(a + q + b, q) == a + b
  {
    var parts := [a, b];
    assert parts[1..] == [b];
    assert FreeOf(parts, q[0]);
    RemoveQuestionJoin(parts, q);
  }

  /** Text that is exactly the question becomes empty. */
  lemma RemoveQuestionWhole(q: string)
    requires |q| > 0
    ensures RemoveQuestion(q, q) == ""
  {
    assert q <= q;
    assert !Occurs(q[1..], q) by {
      forall j: nat ensures !OccursAt(q[1..], q, j) {}
    }
    assert CountOverlapping(q, q) == 1;
    assert IndexOf(q, q) == Some(0);
    assert ReplaceFirst(q, q, "") == "";
  }

  /** Deleting one occurrence can join the text around it into a new one, so
      the result may still contain the question. */
  lemma RemoveQuestionMayLeaveQuestion()
    ensures RemoveQuestion("aabb", "ab") == "ab"
    ensures Occurs("ab", "ab")
  {
    assert "aabb"[1] != "ab"[1];
    assert !("ab" <= "aabb");
    assert "aabb"[1..] == "abb";
    assert "ab" <= "abb";
    assert "abb"[1..] == "bb";
    assert !("ab" <= "bb");
    assert "bb"[1..] == "b";
    assert !("ab" <= "b");
    assert "b"[1..] == "";
    assert CountOverlapping("aabb", "ab") == 1;
    assert IndexOf("aabb", "ab") == Some(1);
    assert "aabb"[..1] + "" + "aabb"[3..] == "ab";
    assert OccursAt("ab", "ab", 0);
  }

  /** Overlapping occurrences are all counted, but deleting one destroys the
      other: "aaa" keeps one "a". */
  lemma RemoveQuestionOverlapping()
    ensures CountOverlapping("aaa", "aa") == 2
    ensures RemoveQuestion("aaa", "aa") == "a"
  {
    assert "aa" <= "aaa";
    assert "aaa"[1..] == "aa";
    assert "aa"[1..] == "a";
    assert !("aa" <= "a");
    assert "a"[1..] == "";
    assert CountOverlapping("aaa", "aa") == 2;
    assert IndexOf("aaa", "aa") == Some(0);
    assert ReplaceFirst("aaa", "aa", "") == "a";
    assert !Occurs("a", "aa");
  }

  // ---------------------------------------------------------------- construct_summary_message

  /** `construct_summary_message(summary, prompts)`. */
  function ConstructSummaryMessage(summary: string, prompts: map<string, string>): (r: Result<string>)
    ensures summary == "" ==> r == Success(Introspection)
    ensures summary != "" ==> (r.Success? <==> SummaryPrefixKey in prompts && SuffixKey in prompts)
    ensures summary != "" && r.Success? ==>
              r.value == prompts[SummaryPrefixKey] + summary + prompts[SuffixKey]
    ensures r.Failure? ==>
              r.error == KeyError(if SummaryPrefixKey !in prompts then SummaryPrefixKey else SuffixKey)
  {
    if summary == "" then Success(Introspection)
    else
      var prefix :- Lookup(prompts, SummaryPrefixKey);
      var suffix :- Lookup(prompts, SuffixKey);
      Success(prefix + summary + suffix)
  }

  // ---------------------------------------------------------------- construct_message

  /** `agent_response[-1]`: a peer's most recent answer. */
  function LatestAnswer(answers: seq<string>): (r: Result<string>)
    ensures r.Success? <==> |answers| > 0
    ensures r.Success? ==> r.value == answers[|answers| - 1]
    ensures r.Failure? ==> r.error == IndexError
  {
    if |answers| == 0 then Failure(IndexError) else Success(answers[|answers| - 1])
  }

  /** Every peer has given at least one answer. */
  predicate AllAnswered(agents: seq<seq<string>>) {
    forall k :: 0 <= k < |agents| ==> |agents[k]| > 0
  }

  /** One pass of the loop of `construct_message`: the peer's latest answer,
      question removed, formatted through the `agent_response` template. */
  function Fragment(answers: seq<string>, question: string, prompts: map<string, string>): (r: Result<string>)
    ensures r.Success? ==> |answers| > 0 && AgentResponseKey in prompts
    ensures |answers| == 0 ==> r == Failure(IndexError)
    ensures |answers| > 0 && AgentResponseKey !in prompts ==> r == Failure(KeyError(AgentResponseKey))
    ensures |answers| > 0 && AgentResponseKey in prompts ==>
              r == Format(prompts[AgentResponseKey], RemoveQuestion(answers[|answers| - 1], question))
  {
    var latest :- LatestAnswer(answers);
    var template :- Lookup(prompts, AgentResponseKey);
    Format(template, RemoveQuestion(latest, question))
  }

  /** The loop of `construct_message`: every peer's fragment, concatenated in
      peer order. The first failing peer decides the error. */
  function RenderPeers(agents: seq<seq<string>>, question: string, prompts: map<string, string>): (r: Result<string>)
    ensures r.Success? ==> AllAnswered(agents)
    ensures r.Success? && |agents| > 0 ==> AgentResponseKey in prompts
    ensures |agents| > 0 && |agents[0]| == 0 ==> r == Failure(IndexError)
    ensures |agents| > 0 && |agents[0]| > 0 && AgentResponseKey !in prompts ==> r == Failure(KeyError(AgentResponseKey))
    decreases |agents|
  {
    if |agents| == 0 then Success("")
    else
      var fragment :- Fragment(agents[0], question, prompts);
      var rest := RenderPeers(agents[1..], question, prompts);
      assert rest.Success? ==> AllAnswered(agents) by {
        if rest.Success? {
          forall i | 0 <= i < |agents| ensures |agents[i]| > 0 {
            if i > 0 {
              assert agents[1..][i - 1] == agents[i];
            }
          }
        }
      }
      Prepend(fragment, rest)
  }

  /** The loop succeeds exactly when every peer's fragment does. */
  lemma {:induction false} RenderPeersSucceeds(agents: seq<seq<string>>, question: string, prompts: map<string, string>)
    ensures RenderPeers(agents, question, prompts).Success? <==>
            forall j :: 0 <= j < |agents| ==> Fragment(agents[j], question, prompts).Success?
    decreases |agents|
  {
    if |agents| > 0 {
      RenderPeersSucceeds(agents[1..], question, prompts);
      forall j | 0 <= j < |agents| - 1 ensures agents[1..][j] == agents[j + 1] {}
      if Fragment(agents[0], question, prompts).Success? {
        assert RenderPeers(agents, question, prompts).Success? == RenderPeers(agents[1..], question, prompts).Success?;
        if forall j :: 0 <= j < |agents| - 1 ==> Fragment(agents[1..][j], question, prompts).Success? {
          forall j | 0 <= j < |agents| ensures Fragment(agents[j], question, prompts).Success? {
            if j > 0 {
              assert Fragment(agents[1..][j - 1], question, prompts).Success?;
            }
          }
        }
      }
    }
  }

  /** The first peer whose fragment fails decides the error of the loop. */
  lemma {:induction false} RenderPeersFirstFailure(agents: seq<seq<string>>, question: string,
                                                   prompts: map<string, string>, k: nat)
    requires k < |agents|
    requires forall j :: 0 <= j < k ==> Fragment(agents[j], question, prompts).Success?
    requires Fragment(agents[k], question, prompts).Failure?
    ensures RenderPeers(agents, question, prompts) == Failure(Fragment(agents[k], question, prompts).error)
    decreases k
  {
    if k > 0 {
      assert agents[1..][k - 1] == agents[k];
      forall j | 0 <= j < k - 1 ensures Fragment(agents[1..][j], question, prompts).Success? {
        assert agents[1..][j] == agents[j + 1];
      }
      RenderPeersFirstFailure(agents[1..], question, prompts, k - 1);
    }
  }

  /** A peer without any answer, after peers that all format, makes the loop
      fail with an IndexError, whatever follows. */
  lemma RenderPeersUnanswered(agents: seq<seq<string>>, question: string, prompts: map<string, string>, k: nat)
    requires k < |agents| && |agents[k]| == 0
    requires forall j :: 0 <= j < k ==> Fragment(agents[j], question, prompts).Success?
    ensures RenderPeers(agents, question, prompts) == Failure(IndexError)
  {
    RenderPeersFirstFailure(agents, question, prompts, k);
  }

  /** The second of two peers has not answered: an IndexError, although the
      first peer's fragment formats. */
  lemma RenderPeersSecondUnanswered(question: string, arg: string)
    ensures RenderPeers([[arg], []], question, map[AgentResponseKey := "{}"]) == Failure(IndexError)
  {
    var prompts := map[AgentResponseKey := "{}"];
    FormatOneField("", "", RemoveQuestion(arg, question));
    assert "" + "{}" + "" == "{}";
    assert [[arg], []][0] == [arg];
    RenderPeersUnanswered([[arg], []], question, prompts, 1);
  }

  /** The suffix template `construct_message` closes with. */
  function ClosingKey(summaryMode: bool): string {
    if summaryMode then SummarySuffixKey else SuffixKey
  }

  /** `construct_message(agents, question, prompts, summary_mode)`. */
  function ConstructMessage(agents: seq<seq<string>>, question: string, prompts: map<string, string>,
                            summaryMode: bool): (r: Result<string>)
    ensures |agents| == 0 ==> r == Success(Introspection)
    ensures |agents| > 0 && r.Success? ==>
              && AgentResponseKey in prompts && PrefixKey in prompts && ClosingKey(summaryMode) in prompts
              && AllAnswered(agents)
              && prompts[PrefixKey] <= r.value
              && EndsWith(r.value, prompts[ClosingKey(summaryMode)])
    ensures (exists i :: 0 <= i < |agents| && |agents[i]| == 0) ==> r.Failure?
  {
    if |agents| == 0 then Success(Introspection)
    else
      var body :- RenderPeers(agents, question, prompts);
      var prefix :- Lookup(prompts, PrefixKey);
      var suffix :- Lookup(prompts, ClosingKey(summaryMode));
      var prompt := prefix + body + suffix;
      assert prompt[|prompt| - |suffix|..] == suffix;
      Success(prompt)
  }

  /** Each peer's latest answer with the question removed, in peer order. */
  function CleanedAnswers(agents: seq<seq<string>>, question: string): (r: seq<string>)
    requires AllAnswered(agents)
    ensures |r| == |agents|
    decreases |agents|
  {
    if |agents| == 0 then []
    else
      assert AllAnswered(agents[1..]) by {
        forall k | 0 <= k < |agents| - 1 ensures |agents[1..][k]| > 0 {
          assert agents[1..][k] == agents[k + 1];
        }
      }
      [RemoveQuestion(agents[0][|agents[0]| - 1], question)] + CleanedAnswers(agents[1..], question)
  }

  /** Entry `i` is peer `i`'s latest answer with the question removed. */
  lemma {:induction false} CleanedAnswersAt(agents: seq<seq<string>>, question: string, i: nat)
    requires AllAnswered(agents) && i < |agents|
    ensures CleanedAnswers(agents, question)[i] == RemoveQuestion(agents[i][|agents[i]| - 1], question)
    decreases i
  {
    if i > 0 {
      assert agents[1..][i - 1] == agents[i];
      CleanedAnswersAt(agents[1..], question, i - 1);
    }
  }

  /** Reference rendering under a one-slot template: every answer wrapped in
      `before` and `after`, in order. */
  function Wrapped(answers: seq<string>, before: string, after: string): string
    decreases |answers|
  {
    if |answers| == 0 then ""
    else before + answers[0] + after + Wrapped(answers[1..], before, after)
  }

  /** The reference rendering of two answer lists one after the other. */
  lemma {:induction false} WrappedAppend(a: seq<string>, b: seq<string>, before: string, after: string)
    ensures Wrapped(a + b, before, after) == Wrapped(a, before, after) + Wrapped(b, before, after)
    decreases |a|
  {
    if |a| == 0 {
      assert a + b == b;
    } else {
      assert (a + b)[0] == a[0];
      assert (a + b)[1..] == a[1..] + b;
      WrappedAppend(a[1..], b, before, after);
    }
  }

  /** Answer `i` sits between the answers before it and those after it: no
      peer is skipped and the order is kept. */
  lemma WrappedSplit(answers: seq<string>, before: string, after: string, i: nat)
    requires i < |answers|
    ensures Wrapped(answers, before, after) ==
            Wrapped(answers[..i], before, after) + before + answers[i] + after + Wrapped(answers[i + 1..], before, after)
  {
    var front, mid, back := answers[..i], [answers[i]], answers[i + 1..];
    assert answers == front + (mid + back);
    WrappedAppend(mid, back, before, after);
    WrappedAppend(front, mid + back, before, after);
    assert mid[1..] == [];
  }

  /** Under a template `before + "{}" + after` whose two parts have no braces,
      the peer loop succeeds exactly with the reference rendering. */
  lemma {:induction false} RenderPeersOneSlot(agents: seq<seq<string>>, question: string,
                                              prompts: map<string, string>, before: string, after: string)
    requires AllAnswered(agents)
    requires AgentResponseKey in prompts && prompts[AgentResponseKey] == before + "{}" + after
    requires BraceFree(before) && BraceFree(after)
    ensures RenderPeers(agents, question, prompts) == Success(Wrapped(CleanedAnswers(agents, question), before, after))
    decreases |agents|
  {
    if |agents| > 0 {
      var latest := agents[0][|agents[0]| - 1];
      FormatOneField(before, after, RemoveQuestion(latest, question));
      RenderPeersOneSlot(agents[1..], question, prompts, before, after);
      var cleaned := CleanedAnswers(agents, question);
      assert cleaned[0] == RemoveQuestion(latest, question);
      assert cleaned[1..] == CleanedAnswers(agents[1..], question);
    }
  }

  /** With a one-slot template and all keys present, `construct_message` is the
      prefix, every peer's fragment in peer order, and the suffix chosen by
      `summary_mode`. */
  lemma ConstructMessageOneSlot(agents: seq<seq<string>>, question: string, prompts: map<string, string>,
                                summaryMode: bool, before: string, after: string)
    requires |agents| > 0 && AllAnswered(agents)
    requires PrefixKey in prompts && ClosingKey(summaryMode) in prompts
    requires AgentResponseKey in prompts && prompts[AgentResponseKey] == before + "{}" + after
    requires BraceFree(before) && BraceFree(after)
    ensures ConstructMessage(agents, question, prompts, summaryMode) ==
            Success(prompts[PrefixKey] + Wrapped(CleanedAnswers(agents, question), before, after)
                    + prompts[ClosingKey(summaryMode)])
  {
    RenderPeersOneSlot(agents, question, prompts, before, after);
  }
}
