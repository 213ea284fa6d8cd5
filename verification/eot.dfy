/** `construct_eot_message` (debate.py lines 69-149): the Exchange-of-Thought
    prompt, built from at most two peers and one of four fixed phrasings. The
    decimal rendering of a confidence (Python's f-string of a float) is the
    parameter `show`. */
module ExchangeOfThought {
  import opened Wrappers
  import opened Text

  /** The value standing for "no confidence given". */
  const NoConfidence: real := -1.0

  /** The fixed texts the four phrasings are assembled from. They are gathered
      in one record so that the structure of a prompt can be reasoned about
      apart from the wording. */
  datatype Texts = Texts(
    stepByStep: string,
    questionLabel: string,
    solutionLabel: string,
    friendIntro: string,
    solutionOf: string,
    confidenceOf: string,
    plainAdvice: string,
    confidenceAdvice: string,
    conclusionOpening: string,
    conclusionClosing: string,
    newline: string)

  /** The wording of the Exchange-of-Thought reference protocol. */
  const Wording: Texts := Texts(
    "Please consider the example provided and think it step by step.\n",
    "Question: ",
    "Your Solution: ",
    "Here is a solution process from your friend:\n",
    "'s Solution: ",
    "'s confidence in this solution is: ",
    "Based on your friend's solution, carefully re-examine your previous answer. "
    + "Utilize your talent and critical thinking to provide a new step-by-step solution process.\n",
    "Based on your friend's solution, carefully re-examine your previous answer. "
    + "If your friend's confidence level is below 0.5, it suggests a high probability that the solution might be incorrect. "
    + "Remember, solutions with high confidence can also be wrong. "
    + "Utilize your talent and critical thinking to provide a new step-by-step solution process.\n",
    "Provide the new solution directly, refrain from commenting on your friend's approach, "
    + "and conclude by stating, \"the answer is",
    ".\"",
    "\n")

  /** The prompt when there are no peers. */
  function Bare(t: Texts, question: string): string {
    t.stepByStep + t.questionLabel + question
  }

  function Header(t: Texts, question: string, mySolution: string): string {
    t.stepByStep + t.questionLabel + question + t.newline
    + t.solutionLabel + mySolution + t.newline
    + t.friendIntro
  }

  function SolutionLine(t: Texts, name: string, response: string): string {
    name + t.solutionOf + response + t.newline
  }

  function ConfidenceLine(t: Texts, name: string, confidence: real, show: real -> string): string {
    name + t.confidenceOf + show(confidence) + t.newline
  }

  function Conclusion(t: Texts, formatHint: string): string {
    t.conclusionOpening + formatHint + t.conclusionClosing
  }

  /** Gluing three parts: the first is a prefix, the last a suffix. */
  lemma Glue(a: string, b: string, c: string)
    ensures a <= a + b + c && EndsWith(a + b + c, c)
  {
    assert (a + b + c)[..|a|] == a;
    assert (a + b + c)[|a + b + c| - |c|..] == c;
  }

  /** `xs[:2]`. */
  function Take2<T>(xs: seq<T>): (r: seq<T>)
    ensures |r| == if |xs| < 2 then |xs| else 2
    ensures r <= xs
  {
    if |xs| <= 2 then xs else xs[..2]
  }

  /** `[-1.0 for _ in peer_names]` when no confidences are passed. */
  function ConfidencesOrDefault(peerNames: seq<string>, confidences: Option<seq<real>>): (cs: seq<real>)
    ensures confidences.Some? ==> cs == confidences.value
    ensures confidences.None? ==> |cs| == |peerNames| && forall k :: 0 <= k < |cs| ==> cs[k] == NoConfidence
  {
    match confidences
    case Some(cs) => cs
    case None => seq(|peerNames|, _ => NoConfidence)
  }

  /** How many entries of the parallel lists are read: one per considered peer. */
  function Considered(peerNames: seq<string>): nat {
    if |peerNames| < 2 then |peerNames| else 2
  }

  /** The four phrasings, chosen by whether the first confidence is the
      sentinel and whether there is a second participant. */
  function Prompt(t: Texts, question: string, mySolution: string,
                  participant1: string, response1: string, confidence1: real,
                  participant2: string, response2: string, confidence2: real,
                  formatHint: string, show: real -> string): (r: string)
    ensures Header(t, question, mySolution) + SolutionLine(t, participant1, response1) <= r
    ensures EndsWith(r, Conclusion(t, formatHint))
  {
    var head := Header(t, question, mySolution) + SolutionLine(t, participant1, response1);
    var middle :=
      if confidence1 == NoConfidence && participant2 == "" then t.plainAdvice
      else if confidence1 == NoConfidence then SolutionLine(t, participant2, response2) + t.plainAdvice
      else if participant2 == "" then ConfidenceLine(t, participant1, confidence1, show) + t.confidenceAdvice
      else ConfidenceLine(t, participant1, confidence1, show) + SolutionLine(t, participant2, response2)
           + ConfidenceLine(t, participant2, confidence2, show) + t.confidenceAdvice;
    Glue(head, middle, Conclusion(t, formatHint));
    head + middle + Conclusion(t, formatHint)
  }

  /** `construct_eot_message(question, my_solution, peer_names, peer_responses,
      confidences, format_hint)`. Reading a response or confidence that the
      lists do not hold is Python's IndexError. */
  function ConstructEotMessage(question: string, mySolution: string, peerNames: seq<string>,
                               peerResponses: seq<string>, confidences: Option<seq<real>>,
                               formatHint: string, show: real -> string): (r: Result<string>)
    ensures |peerNames| == 0 ==> r == Success(Bare(Wording, question))
    ensures r.Failure? <==>
              |peerNames| > 0
              && (|peerResponses| < Considered(peerNames)
                  || (confidences.Some? && |confidences.value| < Considered(peerNames)))
    ensures r.Failure? ==> r.error == IndexError
    ensures r.Success? && |peerNames| > 0 ==>
              Header(Wording, question, mySolution) + SolutionLine(Wording, peerNames[0], peerResponses[0]) <= r.value
              && EndsWith(r.value, Conclusion(Wording, formatHint))
  {
    var allConfidences := ConfidencesOrDefault(peerNames, confidences);
    var names := Take2(peerNames);
    var responses := Take2(peerResponses);
    var confs := Take2(allConfidences);
    if |names| == 0 then Success(Bare(Wording, question))
    else if |responses| == 0 || |confs| == 0 then Failure(IndexError)
    else if |names| > 1 && (|responses| < 2 || |confs| < 2) then Failure(IndexError)
    else
      var participant1, response1, confidence1 := names[0], responses[0], confs[0];
      var participant2 := if |names| > 1 then names[1] else "";
      var response2 := if |names| > 1 then responses[1] else "";
      var confidence2 := if |names| > 1 then confs[1] else NoConfidence;
      Success(Prompt(Wording, question, mySolution, participant1, response1, confidence1,
                     participant2, response2, confidence2, formatHint, show))
  }

  /** Peers beyond the second are never read: truncating every list to two
      entries gives the same prompt. */
  lemma EotOnlyFirstTwoPeers(question: string, mySolution: string, peerNames: seq<string>,
                             peerResponses: seq<string>, confidences: Option<seq<real>>,
                             formatHint: string, show: real -> string)
    ensures ConstructEotMessage(question, mySolution, peerNames, peerResponses, confidences, formatHint, show)
         == ConstructEotMessage(question, mySolution, Take2(peerNames), Take2(peerResponses),
                                match confidences case None => None case Some(cs) => Some(Take2(cs)),
                                formatHint, show)
  {
    var short := Take2(peerNames);
    assert Take2(ConfidencesOrDefault(peerNames, None)) == ConfidencesOrDefault(short, None);
  }

  /** When every list holds the entries that are read, the prompt is the
      phrasing for the first one or two peers. */
  lemma EotPicksPrompt(question: string, mySolution: string, peerNames: seq<string>,
                       peerResponses: seq<string>, confidences: Option<seq<real>>,
                       formatHint: string, show: real -> string)
    requires |peerNames| > 0 && |peerResponses| >= Considered(peerNames)
    requires confidences.Some? ==> |confidences.value| >= Considered(peerNames)
    ensures var cs := ConfidencesOrDefault(peerNames, confidences);
            var two := |peerNames| > 1;
            ConstructEotMessage(question, mySolution, peerNames, peerResponses, confidences, formatHint, show)
            == Success(Prompt(Wording, question, mySolution, peerNames[0], peerResponses[0], cs[0],
                              if two then peerNames[1] else "", if two then peerResponses[1] else "",
                              if two then cs[1] else NoConfidence, formatHint, show))
  {
  }

  /** The phrasing without confidence lines; the second solution line is there
      exactly when the second participant's name is non-empty. */
  lemma PromptPlain(t: Texts, question: string, mySolution: string, participant1: string, response1: string,
                    participant2: string, response2: string, confidence2: real,
                    formatHint: string, show: real -> string)
    ensures Prompt(t, question, mySolution, participant1, response1, NoConfidence,
                   participant2, response2, confidence2, formatHint, show)
         == Header(t, question, mySolution) + SolutionLine(t, participant1, response1)
            + (if participant2 != "" then SolutionLine(t, participant2, response2) else "")
            + t.plainAdvice + Conclusion(t, formatHint)
  {
    var head := Header(t, question, mySolution) + SolutionLine(t, participant1, response1);
    var tail := Conclusion(t, formatHint);
    if participant2 != "" {
      var second := SolutionLine(t, participant2, response2);
      assert head + (second + t.plainAdvice) + tail == head + second + t.plainAdvice + tail;
    } else {
      assert head + t.plainAdvice + tail == head + "" + t.plainAdvice + tail;
    }
  }

  /** The phrasing with confidence lines: each shown participant's confidence
      follows its solution line. */
  lemma PromptConfident(t: Texts, question: string, mySolution: string, participant1: string, response1: string,
                        confidence1: real, participant2: string, response2: string, confidence2: real,
                        formatHint: string, show: real -> string)
    requires confidence1 != NoConfidence
    ensures Prompt(t, question, mySolution, participant1, response1, confidence1,
                   participant2, response2, confidence2, formatHint, show)
         == Header(t, question, mySolution) + SolutionLine(t, participant1, response1)
            + ConfidenceLine(t, participant1, confidence1, show)
            + (if participant2 != ""
               then SolutionLine(t, participant2, response2) + ConfidenceLine(t, participant2, confidence2, show)
               else "")
            + t.confidenceAdvice + Conclusion(t, formatHint)
  {
    var head := Header(t, question, mySolution) + SolutionLine(t, participant1, response1);
    var first := ConfidenceLine(t, participant1, confidence1, show);
    var tail := Conclusion(t, formatHint);
    if participant2 != "" {
      var second := SolutionLine(t, participant2, response2);
      var secondConfidence := ConfidenceLine(t, participant2, confidence2, show);
      assert head + (first + second + secondConfidence + t.confidenceAdvice) + tail
          == head + first + (second + secondConfidence) + t.confidenceAdvice + tail;
    } else {
      assert head + (first + t.confidenceAdvice) + tail == head + first + "" + t.confidenceAdvice + tail;
    }
  }

  /** Without confidences the phrasing without confidence lines is chosen; the
      second peer's solution appears exactly when there is a second peer with a
      non-empty name. */
  lemma EotWithoutConfidences(question: string, mySolution: string, peerNames: seq<string>,
                              peerResponses: seq<string>, formatHint: string, show: real -> string)
    requires |peerNames| > 0 && |peerResponses| >= Considered(peerNames)
    ensures ConstructEotMessage(question, mySolution, peerNames, peerResponses, None, formatHint, show)
         == Success(Header(Wording, question, mySolution) + SolutionLine(Wording, peerNames[0], peerResponses[0])
                    + (if |peerNames| > 1 && peerNames[1] != ""
                       then SolutionLine(Wording, peerNames[1], peerResponses[1]) else "")
                    + Wording.plainAdvice + Conclusion(Wording, formatHint))
  {
    var cs := ConfidencesOrDefault(peerNames, None);
    var two := |peerNames| > 1;
    EotPicksPrompt(question, mySolution, peerNames, peerResponses, None, formatHint, show);
    PromptPlain(Wording, question, mySolution, peerNames[0], peerResponses[0], if two then peerNames[1] else "",
                if two then peerResponses[1] else "", if two then cs[1] else NoConfidence, formatHint, show);
  }

  /** A first confidence other than -1 selects the phrasing with confidence
      lines. */
  lemma EotWithConfidences(question: string, mySolution: string, peerNames: seq<string>,
                           peerResponses: seq<string>, confidences: seq<real>,
                           formatHint: string, show: real -> string)
    requires |peerNames| > 0 && |peerResponses| >= Considered(peerNames) && |confidences| >= Considered(peerNames)
    requires confidences[0] != NoConfidence
    ensures ConstructEotMessage(question, mySolution, peerNames, peerResponses, Some(confidences), formatHint, show)
         == Success(Header(Wording, question, mySolution) + SolutionLine(Wording, peerNames[0], peerResponses[0])
                    + ConfidenceLine(Wording, peerNames[0], confidences[0], show)
                    + (if |peerNames| > 1 && peerNames[1] != ""
                       then SolutionLine(Wording, peerNames[1], peerResponses[1])
                            + ConfidenceLine(Wording, peerNames[1], confidences[1], show)
                       else "")
                    + Wording.confidenceAdvice + Conclusion(Wording, formatHint))
  {
    var two := |peerNames| > 1;
    EotPicksPrompt(question, mySolution, peerNames, peerResponses, Some(confidences), formatHint, show);
    PromptConfident(Wording, question, mySolution, peerNames[0], peerResponses[0], confidences[0],
                    if two then peerNames[1] else "", if two then peerResponses[1] else "",
                    if two then confidences[1] else NoConfidence, formatHint, show);
  }

  /** A second peer with an empty name is treated as no second peer, although
      its response and confidence must still be present. */
  lemma EotEmptySecondName(question: string, mySolution: string, peerNames: seq<string>,
                           peerResponses: seq<string>, confidences: Option<seq<real>>,
                           formatHint: string, show: real -> string)
    requires |peerNames| >= 2 && peerNames[1] == "" && |peerResponses| >= 2
    requires confidences.Some? ==> |confidences.value| >= 2
    ensures ConstructEotMessage(question, mySolution, peerNames, peerResponses, confidences, formatHint, show)
         == ConstructEotMessage(question, mySolution, peerNames[..1], peerResponses[..1],
                                match confidences case None => None case Some(cs) => Some(cs[..1]),
                                formatHint, show)
  {
  }
}
