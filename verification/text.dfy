/** String primitives of Python's `str` that the prompt builders rely on:
    `find`, `replace` (all and first occurrence), `strip("\n")`, and the count of
    overlapping matches that a lookahead regex `findall` produces. */
module Text {
  import opened Wrappers
  import opened Sequences

  /** `p` occurs in `s` starting at index `i`. */
  predicate OccursAt(s: string, p: string, i: nat) {
    i + |p| <= |s| && s[i..i + |p|] == p
  }

  /** `t` is a suffix of `s`. */
  predicate EndsWith(s: string, t: string) {
    |t| <= |s| && s[|s| - |t|..] == t
  }

  /** `p` occurs somewhere in `s`. */
  ghost predicate Occurs(s: string, p: string) {
    exists i: nat :: OccursAt(s, p, i)
  }

  lemma OccursAtShift(s: string, p: string, i: nat)
    requires |s| > 0
    ensures OccursAt(s, p, i + 1) <==> OccursAt(s[1..], p, i)
  {
    if i + 1 + |p| <= |s| {
      assert s[i + 1..i + 1 + |p|] == s[1..][i..i + |p|];
    }
  }

  /** Index of the leftmost occurrence of `p` in `s` (Python's `str.find`). */
  function IndexOf(s: string, p: string): (r: Option<nat>)
    ensures r.Some? ==> OccursAt(s, p, r.value)
    ensures r.Some? ==> forall j: nat :: j < r.value ==> !OccursAt(s, p, j)
    ensures r.None? <==> !Occurs(s, p)
    decreases |s|
  {
    if p <= s then
      assert OccursAt(s, p, 0);
      Some(0)
    else if |s| == 0 then
      assert forall j: nat :: !OccursAt(s, p, j);
      None
    else
      var rest := IndexOf(s[1..], p);
      forall j: nat ensures OccursAt(s, p, j + 1) <==> OccursAt(s[1..], p, j) {
        OccursAtShift(s, p, j);
      }
      assert !OccursAt(s, p, 0);
      if rest.None? then
        assert forall j: nat :: !OccursAt(s, p, j) by {
          forall j: nat ensures !OccursAt(s, p, j) {
            if j > 0 {
              assert !OccursAt(s[1..], p, j - 1);
            }
          }
        }
        None
      else
        assert forall j: nat :: j < rest.value + 1 ==> !OccursAt(s, p, j) by {
          forall j: nat | j < rest.value + 1 ensures !OccursAt(s, p, j) {
            if j > 0 {
              assert !OccursAt(s[1..], p, j - 1);
            }
          }
        }
        Some(rest.value + 1)
  }

  /** Python's `s.replace(pat, rep)`: every non-overlapping occurrence of `pat`,
      scanning left to right, is replaced by `rep`. Every caller passes a
      non-empty `pat`. */
  function ReplaceAll(s: string, pat: string, rep: string): (r: string)
    requires |pat| > 0
    ensures |rep| == |pat| ==> |r| == |s|
    decreases |s|
  {
    if pat <= s then rep + ReplaceAll(s[|pat|..], pat, rep)
    else if |s| == 0 then ""
    else [s[0]] + ReplaceAll(s[1..], pat, rep)
  }

  /** Python's `s.replace(pat, rep, 1)`: only the leftmost occurrence is replaced. */
  function ReplaceFirst(s: string, pat: string, rep: string): (r: string)
    ensures !Occurs(s, pat) ==> r == s
    ensures Occurs(s, pat) ==>
              exists i: nat :: && OccursAt(s, pat, i)
                               && (forall j: nat :: j < i ==> !OccursAt(s, pat, j))
                               && r == s[..i] + rep + s[i + |pat|..]
  {
    match IndexOf(s, pat)
    case None => s
    case Some(i) => s[..i] + rep + s[i + |pat|..]
  }

  /** Number of positions `i` in `0..|s|` at which `p` is a prefix of `s[i..]`:
      the number of (possibly overlapping) matches of the lookahead pattern
      `(?=(p))`. */
  function CountOverlapping(s: string, p: string): (n: nat)
    ensures |p| > 0 ==> (n == 0 <==> !Occurs(s, p))
    ensures |p| == 0 ==> n == |s| + 1
    decreases |s|
  {
    var here := if p <= s then 1 else 0;
    assert p <= s <==> OccursAt(s, p, 0);
    if |s| == 0 then
      assert |p| > 0 ==> forall j: nat :: !OccursAt(s, p, j);
      here
    else
      var n := here + CountOverlapping(s[1..], p);
      forall j: nat ensures OccursAt(s, p, j + 1) <==> OccursAt(s[1..], p, j) {
        OccursAtShift(s, p, j);
      }
      assert |p| > 0 && !Occurs(s, p) ==> !Occurs(s[1..], p) by {
        if |p| > 0 && !Occurs(s, p) {
          forall j: nat ensures !OccursAt(s[1..], p, j) {
            assert !OccursAt(s, p, j + 1);
          }
        }
      }
      assert |p| > 0 && n == 0 ==> !Occurs(s, p) by {
        if |p| > 0 && n == 0 {
          forall j: nat ensures !OccursAt(s, p, j) {
            if j > 0 {
              assert !OccursAt(s[1..], p, j - 1);
            }
          }
        }
      }
      n
  }

  /** The positions at which the lookahead pattern `(?=(p))` matches: every `i`
      in `0..|s|` where `p` starts. */
  ghost function MatchPositions(s: string, p: string): set<int> {
    MatchesFrom(s, p, 0)
  }

  /** The match positions from `lo` on. */
  ghost function MatchesFrom(s: string, p: string, lo: int): set<int> {
    set i: int | lo <= i <= |s| && 0 <= i && OccursAt(s, p, i)
  }

  /** `CountOverlapping` is the number of positions where the lookahead
      pattern matches, which is the length of the list `re.findall` returns. */
  lemma CountOverlappingPositions(s: string, p: string)
    ensures CountOverlapping(s, p) == |MatchPositions(s, p)|
  {
    CountFrom(s, p, 0);
    assert s[0..] == s;
  }

  lemma {:induction false} CountFrom(s: string, p: string, lo: nat)
    requires lo <= |s|
    ensures CountOverlapping(s[lo..], p) == |MatchesFrom(s, p, lo)|
    decreases |s| - lo
  {
    var t := s[lo..];
    if lo + |p| <= |s| {
      assert t[..|p|] == s[lo..lo + |p|];
    }
    assert p <= t <==> OccursAt(s, p, lo);
    var here: set<int> := if OccursAt(s, p, lo) then {lo} else {};
    if lo == |s| {
      assert MatchesFrom(s, p, lo) == here;
    } else {
      CountFrom(s, p, lo + 1);
      assert t[1..] == s[lo + 1..];
      assert MatchesFrom(s, p, lo) == here + MatchesFrom(s, p, lo + 1);
      assert lo !in MatchesFrom(s, p, lo + 1);
    }
  }

  /** A run of `n` newlines. */
  function Newlines(n: nat): (r: string)
    ensures |r| == n
    ensures forall k :: 0 <= k < n ==> r[k] == '\n'
  {
    seq(n, _ => '\n')
  }

  /** A run of newlines grows by one at either end. */
  lemma NewlinesGrow(n: nat)
    ensures "\n" + Newlines(n) == Newlines(n + 1)
    ensures Newlines(n) + "\n" == Newlines(n + 1)
  {
  }

  /** A newline in front of newlines and text joins the run of newlines. */
  lemma NewlineBefore(s: string, r: string, m: nat)
    requires |s| > 0 && s[0] == '\n' && s[1..] == Newlines(m) + r
    ensures s == Newlines(m + 1) + r
  {
    NewlinesGrow(m);
    assert s == "\n" + s[1..];
    AppendAssoc("\n", Newlines(m), r);
  }

  /** A newline after text and newlines joins the run of newlines. */
  lemma NewlineAfter(s: string, r: string, m: nat)
    requires |s| > 0 && s[|s| - 1] == '\n' && s[..|s| - 1] == r + Newlines(m)
    ensures s == r + Newlines(m + 1)
  {
    NewlinesGrow(m);
    assert s == s[..|s| - 1] + "\n";
    AppendAssoc(r, Newlines(m), "\n");
  }

  /** Neither the first nor the last character is a newline. */
  predicate NoOuterNewline(s: string) {
    s == [] || (s[0] != '\n' && s[|s| - 1] != '\n')
  }

  /** Python's `s.lstrip("\n")`: the input is the cut newlines followed by the
      result. */
  function StripLeading(s: string): (r: string)
    ensures |r| <= |s| && s == Newlines(|s| - |r|) + r
    ensures r == [] || r[0] != '\n'
    decreases |s|
  {
    if |s| > 0 && s[0] == '\n' then
      var r := StripLeading(s[1..]);
      NewlineBefore(s, r, |s| - 1 - |r|);
      r
    else s
  }

  /** Python's `s.rstrip("\n")`: the input is the result followed by the cut
      newlines. */
  function StripTrailing(s: string): (r: string)
    ensures |r| <= |s| && s == r + Newlines(|s| - |r|)
    ensures r == [] || r[|r| - 1] != '\n'
    decreases |s|
  {
    if |s| > 0 && s[|s| - 1] == '\n' then
      var r := StripTrailing(s[..|s| - 1]);
      NewlineAfter(s, r, |s| - 1 - |r|);
      r
    else s
  }

  /** Python's `s.strip("\n")`. */
  function Strip(s: string): (r: string)
    ensures |r| <= |s|
    ensures NoOuterNewline(r)
  {
    StripTrailing(StripLeading(s))
  }

  /** `strip("\n")` cuts only newlines: the input is the leading newlines, the
      result, and the trailing newlines. With `NoOuterNewline`, the result is
      the longest infix with only newlines around it. */
  lemma StripKeepsInfix(s: string)
    ensures s == Newlines(|s| - |StripLeading(s)|) + Strip(s) + Newlines(|StripLeading(s)| - |Strip(s)|)
  {
    var l := StripLeading(s);
    var r := StripTrailing(l);
    assert Strip(s) == r;
    NewlinesAround(s, l, r);
  }

  /** Newlines cut from the front and then from the back of what is left. */
  lemma NewlinesAround(s: string, l: string, r: string)
    requires |l| <= |s| && s == Newlines(|s| - |l|) + l
    requires |r| <= |l| && l == r + Newlines(|l| - |r|)
    ensures s == Newlines(|s| - |l|) + r + Newlines(|l| - |r|)
  {
  }

  /** Stripping a string that has no outer newline changes nothing, so `Strip`
      is idempotent. */
  lemma StripNoop(s: string)
    requires NoOuterNewline(s)
    ensures Strip(s) == s
  {
  }

  /** A leading newline makes no difference to `strip("\n")`. */
  lemma StripLeadingNewline(s: string)
    ensures Strip("\n" + s) == Strip(s)
  {
    assert ("\n" + s)[1..] == s;
  }

  lemma StripIdempotent(s: string)
    ensures Strip(Strip(s)) == Strip(s)
  {
    StripNoop(Strip(s));
  }

  /** A one-character pattern occurs exactly when the character does. */
  lemma OccursChar(s: string, c: char)
    ensures Occurs(s, [c]) <==> c in s
  {
    if c in s {
      var i :| 0 <= i < |s| && s[i] == c;
      assert OccursAt(s, [c], i);
    }
    if Occurs(s, [c]) {
      var i: nat :| OccursAt(s, [c], i);
      assert s[i] == c;
    }
  }

  /** Replacing a pattern that does not occur leaves the string unchanged. */
  lemma {:induction false} ReplaceAllAbsent(s: string, pat: string, rep: string)
    requires |pat| > 0
    requires !Occurs(s, pat)
    ensures ReplaceAll(s, pat, rep) == s
    decreases |s|
  {
    if |s| > 0 {
      assert !OccursAt(s, pat, 0);
      OccursTail(s, pat);
      ReplaceAllAbsent(s[1..], pat, rep);
    }
  }

  /** A pattern absent from a string is absent from its tail. */
  lemma OccursTail(s: string, pat: string)
    requires |s| > 0 && !Occurs(s, pat)
    ensures !Occurs(s[1..], pat)
  {
    forall j: nat ensures !OccursAt(s[1..], pat, j) {
      OccursAtShift(s, pat, j);
      assert !OccursAt(s, pat, j + 1);
    }
  }

  /** A prefix free of the pattern's first character passes through unchanged. */
  lemma {:induction false} ReplaceAllSkip(a: string, t: string, pat: string, rep: string)
    requires |pat| > 0
    requires pat[0] !in a
    ensures ReplaceAll(a + t, pat, rep) == a + ReplaceAll(t, pat, rep)
    decreases |a|
  {
    if |a| > 0 {
      assert (a + t)[0] == a[0];
      assert !(pat <= a + t);
      assert (a + t)[1..] == a[1..] + t;
      ReplaceAllSkip(a[1..], t, pat, rep);
      assert a == [a[0]] + a[1..];
    } else {
      assert a + t == t;
    }
  }

  /** One occurrence of the pattern between text free of its first character is
      the only one replaced. */
  lemma ReplaceAllOnce(before: string, pat: string, after: string, rep: string)
    requires |pat| > 0 && pat[0] !in before && pat[0] !in after
    ensures ReplaceAll(before + pat + after, pat, rep) == before + rep + after
  {
    ReplaceAllSeparator(before, pat, after, rep);
    AbsentLead(after, pat);
    ReplaceAllAbsent(after, pat, rep);
  }

  lemma ReplaceAllHead(pat: string, after: string, rep: string)
    requires |pat| > 0
    ensures ReplaceAll(pat + after, pat, rep) == rep + ReplaceAll(after, pat, rep)
  {
    assert pat <= pat + after;
    assert (pat + after)[|pat|..] == after;
  }

  /** Replacing a one-character pattern by one character acts character by character. */
  lemma {:induction false} ReplaceCharPointwise(s: string, c: char, d: char)
    ensures |ReplaceAll(s, [c], [d])| == |s|
    ensures forall k :: 0 <= k < |s| ==> ReplaceAll(s, [c], [d])[k] == if s[k] == c then d else s[k]
    decreases |s|
  {
    if |s| > 0 {
      ReplaceCharPointwise(s[1..], c, d);
      if [c] <= s {
        assert s[0] == c;
        assert s[1..] == s[|[c]|..];
      }
    }
  }

  // ---------------------------------------------------------------- parts joined by a separator

  /** `sep.join(parts)`. */
  function Join(parts: seq<string>, sep: string): string
    decreases |parts|
  {
    if |parts| == 0 then ""
    else if |parts| == 1 then parts[0]
    else parts[0] + sep + Join(parts[1..], sep)
  }

  /** No part contains the character `c`. */
  predicate FreeOf(parts: seq<string>, c: char) {
    forall k :: 0 <= k < |parts| ==> c !in parts[k]
  }

  lemma FreeOfTail(parts: seq<string>, c: char)
    requires |parts| > 0 && FreeOf(parts, c)
    ensures c !in parts[0] && FreeOf(parts[1..], c)
  {
    forall k | 0 <= k < |parts| - 1 ensures c !in parts[1..][k] {
      assert parts[1..][k] == parts[k + 1];
    }
  }

  /** Text put in front of a join is glued onto its first part. */
  lemma JoinMerge(a: string, parts: seq<string>, sep: string)
    requires |parts| > 0
    ensures a + Join(parts, sep) == Join([a + parts[0]] + parts[1..], sep)
  {
    var merged := [a + parts[0]] + parts[1..];
    assert merged[0] == a + parts[0] && merged[1..] == parts[1..];
    if |parts| > 1 {
      assert a + (parts[0] + sep + Join(parts[1..], sep)) == (a + parts[0]) + sep + Join(parts[1..], sep);
    }
  }

  /** The first two parts glued together. */
  function MergeFirst(parts: seq<string>): (r: seq<string>)
    requires |parts| > 1
    ensures |r| == |parts| - 1
  {
    [parts[0] + parts[1]] + parts[2..]
  }

  /** Gluing the first two parts is removing the first separator. */
  lemma JoinMergeFirst(parts: seq<string>, sep: string)
    requires |parts| > 1
    ensures Join(parts, sep) == parts[0] + sep + Join(parts[1..], sep)
    ensures parts[0] + Join(parts[1..], sep) == Join(MergeFirst(parts), sep)
  {
    JoinMerge(parts[0], parts[1..], sep);
    assert parts[1..][1..] == parts[2..];
  }

  /** Joined with nothing between them, gluing the first two parts changes nothing. */
  lemma ConcatMergeFirst(parts: seq<string>)
    requires |parts| > 1
    ensures Join(MergeFirst(parts), "") == Join(parts, "")
  {
    JoinMergeFirst(parts, "");
    assert parts[0] + "" == parts[0];
  }

  lemma FreeOfMergeFirst(parts: seq<string>, c: char)
    requires |parts| > 1 && FreeOf(parts, c)
    ensures c !in parts[0] && FreeOf(MergeFirst(parts), c)
  {
    var merged := MergeFirst(parts);
    assert c !in parts[0] && c !in parts[1];
    forall k | 0 <= k < |merged| ensures c !in merged[k] {
      if k > 0 {
        assert merged[k] == parts[k + 1];
      }
    }
  }

  /** A text without the pattern's first character does not contain the pattern. */
  lemma AbsentLead(s: string, pat: string)
    requires |pat| > 0 && pat[0] !in s
    ensures !Occurs(s, pat)
  {
    forall j: nat ensures !OccursAt(s, pat, j) {
      if j + |pat| <= |s| {
        assert s[j..j + |pat|][0] == s[j];
        assert s[j] in s;
      }
    }
  }

  /** Every separator of a join whose parts lack the pattern's first character
      is replaced, and nothing else. */
  lemma {:induction false} ReplaceAllJoin(parts: seq<string>, pat: string, rep: string)
    requires |pat| > 0 && |parts| > 0 && FreeOf(parts, pat[0])
    ensures ReplaceAll(Join(parts, pat), pat, rep) == Join(parts, rep)
    decreases |parts|
  {
    var a := parts[0];
    FreeOfTail(parts, pat[0]);
    if |parts| == 1 {
      ReplaceAllSkip(a, "", pat, rep);
      assert a + "" == a;
    } else {
      ReplaceAllJoin(parts[1..], pat, rep);
      ReplaceAllSeparator(a, pat, Join(parts[1..], pat), rep);
    }
  }

  /** The pattern's first character occurs nowhere else in it, as for `{key}`
      with a brace-free key: an occurrence cannot start inside text that lacks
      the pattern and run into an occurrence that follows it. */
  predicate LeadUnique(pat: string) {
    |pat| > 0 && pat[0] !in pat[1..]
  }

  /** No part contains the pattern. */
  ghost predicate NoneOccurs(parts: seq<string>, pat: string) {
    forall k :: 0 <= k < |parts| ==> !Occurs(parts[k], pat)
  }

  /** The first `n` characters, where no occurrence starts, pass through
      unchanged. */
  lemma {:induction false} ReplaceAllSkipStarts(s: string, n: nat, pat: string, rep: string)
    requires |pat| > 0 && n <= |s|
    requires forall j: nat :: j < n ==> !OccursAt(s, pat, j)
    ensures ReplaceAll(s, pat, rep) == s[..n] + ReplaceAll(s[n..], pat, rep)
    decreases n
  {
    if n == 0 {
      assert s[..0] + ReplaceAll(s[0..], pat, rep) == ReplaceAll(s, pat, rep);
    } else {
      var k: nat := n - 1;
      var u := s[1..];
      StartsTail(s, k, pat);
      ReplaceAllSkipStarts(u, k, pat, rep);
      SkipStartsStep(s, k, pat, rep);
    }
  }

  lemma StartsTail(s: string, k: nat, pat: string)
    requires k + 1 <= |s|
    requires forall j: nat :: j < k + 1 ==> !OccursAt(s, pat, j)
    ensures forall j: nat :: j < k ==> !OccursAt(s[1..], pat, j)
  {
    forall j: nat | j < k ensures !OccursAt(s[1..], pat, j) {
      OccursAtShift(s, pat, j);
    }
  }

  lemma SkipStartsStep(s: string, k: nat, pat: string, rep: string)
    requires |pat| > 0 && k + 1 <= |s| && !OccursAt(s, pat, 0)
    requires ReplaceAll(s[1..], pat, rep) == s[1..][..k] + ReplaceAll(s[1..][k..], pat, rep)
    ensures ReplaceAll(s, pat, rep) == s[..k + 1] + ReplaceAll(s[k + 1..], pat, rep)
  {
    var u := s[1..];
    var x := ReplaceAll(u[k..], pat, rep);
    assert !(pat <= s);
    assert ReplaceAll(s, pat, rep) == [s[0]] + ReplaceAll(u, pat, rep);
    assert u[k..] == s[k + 1..];
    assert s[..k + 1] == [s[0]] + u[..k];
    AppendAssoc([s[0]], u[..k], x);
  }

  /** No occurrence of a border-free pattern starts inside a pattern-free
      prefix that the pattern follows. */
  lemma NoStraddle(a: string, pat: string, t: string)
    requires LeadUnique(pat) && !Occurs(a, pat)
    ensures forall j: nat :: j < |a| ==> !OccursAt(a + pat + t, pat, j)
  {
    var s := a + pat + t;
    forall j: nat | j < |a| ensures !OccursAt(s, pat, j) {
      if j + |pat| <= |s| {
        if j + |pat| <= |a| {
          assert s[j..j + |pat|] == a[j..j + |pat|];
          assert !OccursAt(a, pat, j);
        } else {
          var d := |a| - j;
          assert s[j..j + |pat|][d] == s[|a|] == pat[0];
          assert pat[d] == pat[1..][d - 1];
          assert pat[d] != pat[0];
        }
      }
    }
  }

  /** The first separator after a part that lacks a border-free pattern. */
  lemma ReplaceAllSeparatorUnique(a: string, pat: string, t: string, rep: string)
    requires LeadUnique(pat) && !Occurs(a, pat)
    ensures ReplaceAll(a + pat + t, pat, rep) == a + rep + ReplaceAll(t, pat, rep)
  {
    var u := pat + t;
    var x := ReplaceAll(t, pat, rep);
    var s := a + pat + t;
    NoStraddle(a, pat, t);
    ReplaceAllSkipStarts(s, |a|, pat, rep);
    assert s[..|a|] == a && s[|a|..] == u;
    ReplaceAllHead(pat, t, rep);
    AppendAssoc(a, rep, x);
  }

  /** Every separator of a join whose parts lack a border-free pattern is
      replaced, and nothing else: the parts may hold any other text, including
      the pattern's first character. */
  lemma {:induction false} ReplaceAllJoinUnique(parts: seq<string>, pat: string, rep: string)
    requires LeadUnique(pat) && |parts| > 0 && NoneOccurs(parts, pat)
    ensures ReplaceAll(Join(parts, pat), pat, rep) == Join(parts, rep)
    decreases |parts|
  {
    var a := parts[0];
    assert !Occurs(a, pat);
    if |parts| == 1 {
      ReplaceAllAbsent(a, pat, rep);
    } else {
      assert forall k :: 0 <= k < |parts| - 1 ==> parts[1..][k] == parts[k + 1];
      ReplaceAllJoinUnique(parts[1..], pat, rep);
      ReplaceAllSeparatorUnique(a, pat, Join(parts[1..], pat), rep);
    }
  }

  /** The first separator after a part without the pattern's first character. */
  lemma ReplaceAllSeparator(a: string, pat: string, t: string, rep: string)
    requires |pat| > 0 && pat[0] !in a
    ensures ReplaceAll(a + pat + t, pat, rep) == a + rep + ReplaceAll(t, pat, rep)
  {
    var u := pat + t;
    var x := ReplaceAll(t, pat, rep);
    AppendAssoc(a, pat, t);
    ReplaceAllSkip(a, u, pat, rep);
    ReplaceAllHead(pat, t, rep);
    AppendAssoc(a, rep, x);
  }

  /** After a prefix without the pattern's first character, the first
      occurrence is the leftmost one. */
  lemma ReplaceFirstAfter(a: string, pat: string, t: string, rep: string)
    requires |pat| > 0 && pat[0] !in a
    ensures ReplaceFirst(a + pat + t, pat, rep) == a + rep + t
  {
    var s := a + pat + t;
    assert s[|a|..|a| + |pat|] == pat;
    assert OccursAt(s, pat, |a|);
    forall j: nat | j < |a| ensures !OccursAt(s, pat, j) {
      assert s[j] == a[j];
      assert a[j] in a;
      if j + |pat| <= |s| {
        assert s[j..j + |pat|][0] == s[j];
      }
    }
    var i := IndexOf(s, pat).value;
    assert i == |a|;
    assert s[..|a|] == a;
    assert s[|a| + |pat|..] == t;
  }

  /** A suffix never has more matches than the whole text. */
  lemma {:induction false} CountSuffix(s: string, p: string, j: nat)
    requires j <= |s|
    ensures CountOverlapping(s[j..], p) <= CountOverlapping(s, p)
    decreases j
  {
    if j == 0 {
      assert s[0..] == s;
    } else {
      CountSuffix(s[1..], p, j - 1);
      assert s[1..][j - 1..] == s[j..];
    }
  }

  /** Joining with the pattern as separator gives at least one match per
      separator. */
  lemma {:induction false} CountJoin(parts: seq<string>, p: string)
    requires |p| > 0 && |parts| > 0
    ensures |parts| - 1 <= CountOverlapping(Join(parts, p), p)
    decreases |parts|
  {
    if |parts| > 1 {
      var rest := Join(parts[1..], p);
      var s := Join(parts, p);
      var t := p + rest;
      CountJoin(parts[1..], p);
      assert s == parts[0] + t;
      assert s[|parts[0]|..] == t;
      CountSuffix(s, p, |parts[0]|);
      assert p <= t;
      assert t[1..][|p| - 1..] == rest;
      CountSuffix(t[1..], p, |p| - 1);
    }
  }
}
