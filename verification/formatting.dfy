/** Template filling: the repository's `partial_format` helper (debate.py lines
    18-22) and Python's `str.format` with one positional argument, as the
    `agent_response` template is used (debate.py line 57). */
module Formatting {
  import opened Wrappers
  import opened Text
  import opened Sequences

  /** The placeholder `{key}` that `partial_format` looks for. */
  function Placeholder(key: string): (p: string)
    ensures |p| == |key| + 2 && p[0] == '{'
  {
    "{" + key + "}"
  }

  /** `partial_format(s, **kwargs)`: for each keyword argument in order, every
      `{key}` is replaced by the value. Values are given already rendered
      (Python's `str(value)`). */
  function PartialFormat(s: string, kwargs: seq<(string, string)>): (r: string)
    ensures '{' !in s ==> r == s
    decreases |kwargs|
  {
    if |kwargs| == 0 then s
    else
      var p := Placeholder(kwargs[0].0);
      var next := ReplaceAll(s, p, kwargs[0].1);
      assert '{' !in s ==> next == s by {
        if '{' !in s {
          ReplaceAllSkip(s, "", p, kwargs[0].1);
          assert s + "" == s;
        }
      }
      PartialFormat(next, kwargs[1..])
  }

  /** With no keyword arguments the input comes back unchanged. */
  lemma PartialFormatNoArguments(s: string)
    ensures PartialFormat(s, []) == s
    ensures PartialFormat(PartialFormat(s, []), []) == PartialFormat(s, [])
  {
  }

  /** Keys whose placeholder does not occur in the string change nothing. */
  lemma {:induction false} PartialFormatAbsentKeys(s: string, kwargs: seq<(string, string)>)
    requires forall k :: 0 <= k < |kwargs| ==> !Occurs(s, Placeholder(kwargs[k].0))
    ensures PartialFormat(s, kwargs) == s
    decreases |kwargs|
  {
    if |kwargs| > 0 {
      ReplaceAllAbsent(s, Placeholder(kwargs[0].0), kwargs[0].1);
      PartialFormatAbsentKeys(s, kwargs[1..]);
    }
  }

  /** A string without braces. */
  predicate BraceFree(s: string) {
    '{' !in s && '}' !in s
  }

  /** One placeholder between brace-free text is replaced by the value. */
  lemma PartialFormatOneKey(before: string, key: string, after: string, value: string)
    requires BraceFree(before) && BraceFree(after)
    ensures PartialFormat(before + Placeholder(key) + after, [(key, value)]) == before + value + after
  {
    ReplaceAllOnce(before, Placeholder(key), after, value);
    assert [(key, value)][1..] == [];
  }

  /** Every `{key}` is replaced, however often it occurs: text made of parts
      without `{` joined by the placeholder becomes the parts joined by the
      value. */
  lemma PartialFormatJoin(parts: seq<string>, key: string, value: string)
    requires |parts| > 0 && FreeOf(parts, '{')
    ensures PartialFormat(Join(parts, Placeholder(key)), [(key, value)]) == Join(parts, value)
  {
    ReplaceAllJoin(parts, Placeholder(key), value);
    assert [(key, value)][1..] == [];
  }

  /** A brace-free key gives a placeholder whose `{` occurs only at its start. */
  lemma PlaceholderLeadUnique(key: string)
    requires BraceFree(key)
    ensures LeadUnique(Placeholder(key))
  {
    assert Placeholder(key)[1..] == key + "}";
  }

  /** Every `{key}` is replaced and nothing else, for a brace-free key: the text
      between the placeholders may hold any other placeholder. */
  lemma PartialFormatEveryOccurrence(parts: seq<string>, key: string, value: string)
    requires |parts| > 0 && BraceFree(key) && NoneOccurs(parts, Placeholder(key))
    ensures PartialFormat(Join(parts, Placeholder(key)), [(key, value)]) == Join(parts, value)
  {
    PlaceholderLeadUnique(key);
    ReplaceAllJoinUnique(parts, Placeholder(key), value);
    assert [(key, value)][1..] == [];
  }

  /** The placeholder of a different brace-free key, between text without `{`,
      does not contain `{key}`. */
  lemma PlaceholderElsewhere(b: string, other: string, c: string, key: string)
    requires '{' !in b && '{' !in c && BraceFree(key) && BraceFree(other) && key != other
    ensures !Occurs(b + Placeholder(other) + c, Placeholder(key))
  {
    var s := b + Placeholder(other) + c;
    var p := Placeholder(key);
    var q := Placeholder(other);
    forall j: nat ensures !OccursAt(s, p, j) {
      if j + |p| <= |s| {
        var w := s[j..j + |p|];
        if j != |b| {
          OnlyOpening(b, other, c, j);
          assert w[0] == s[j];
        } else if |key| == |other| {
          assert w == q;
          assert w[1..|p| - 1] == other;
          assert p[1..|p| - 1] == key;
        } else if |key| < |other| {
          var d := |key| + 1;
          assert w[d] == q[d] == other[|key|];
          assert other[|key|] in other;
          assert p[d] == '}';
        } else {
          var d := |other| + 1;
          assert w[d] == q[d] == '}';
          assert key[|other|] in key;
          assert p[d] == key[|other|];
        }
      }
    }
  }

  /** The only `{` of such a text is the one opening the placeholder. */
  lemma OnlyOpening(b: string, other: string, c: string, j: nat)
    requires '{' !in b && '{' !in c && BraceFree(other)
    requires j < |b + Placeholder(other) + c| && j != |b|
    ensures (b + Placeholder(other) + c)[j] != '{'
  {
    var s := b + Placeholder(other) + c;
    var q := Placeholder(other);
    if j < |b| {
      assert s[j] == b[j] && b[j] in b;
    } else if j < |b| + |q| {
      assert s[j] == q[j - |b|];
      if j - |b| < |q| - 1 {
        assert q[j - |b|] == other[j - |b| - 1] && other[j - |b| - 1] in other;
      }
    } else {
      assert s[j] == c[j - |b| - |q|] && c[j - |b| - |q|] in c;
    }
  }

  /** A placeholder whose key is not in the mapping is left as it is, while the
      mapped one is replaced. */
  lemma PartialFormatLeavesOthers(a: string, k1: string, b: string, k2: string, c: string, v1: string)
    requires '{' !in a && '{' !in b && '{' !in c && BraceFree(k1) && BraceFree(k2) && k1 != k2
    ensures PartialFormat(a + Placeholder(k1) + b + Placeholder(k2) + c, [(k1, v1)])
            == a + v1 + b + Placeholder(k2) + c
  {
    var rest := b + Placeholder(k2) + c;
    var parts := [a, rest];
    assert parts[1..] == [rest];
    AbsentLead(a, Placeholder(k1));
    PlaceholderElsewhere(b, k2, c, k1);
    assert NoneOccurs(parts, Placeholder(k1));
    PartialFormatEveryOccurrence(parts, k1, v1);
    AppendAssoc(a + Placeholder(k1), b + Placeholder(k2), c);
    AppendAssoc(a + Placeholder(k1), b, Placeholder(k2));
    AppendAssoc(a + v1, b + Placeholder(k2), c);
    AppendAssoc(a + v1, b, Placeholder(k2));
  }

  /** Two different keys, each with its placeholder once, are both filled. The
      first value must not hold `{`: `partial_format` would rewrite a
      placeholder inside it when a later key matches. */
  lemma PartialFormatTwoKeys(a: string, k1: string, b: string, k2: string, c: string, v1: string, v2: string)
    requires '{' !in a && '{' !in b && '{' !in c && BraceFree(k1) && BraceFree(k2) && k1 != k2
    requires '{' !in v1
    ensures PartialFormat(a + Placeholder(k1) + b + Placeholder(k2) + c, [(k1, v1), (k2, v2)])
            == a + v1 + b + v2 + c
  {
    var s := a + Placeholder(k1) + b + Placeholder(k2) + c;
    assert [(k1, v1)] + [(k2, v2)] == [(k1, v1), (k2, v2)];
    PartialFormatAppend(s, [(k1, v1)], [(k2, v2)]);
    PartialFormatLeavesOthers(a, k1, b, k2, c, v1);
    ReplaceAllOnce(a + v1 + b, Placeholder(k2), c, v2);
    assert [(k2, v2)][1..] == [];
  }

  /** Both keys of "{a} {b}" are filled. */
  lemma PartialFormatBothKeys()
    ensures PartialFormat("{a} {b}", [("a", "x"), ("b", "y")]) == "x y"
  {
    assert BraceFree("a") && BraceFree("b");
    assert "" + Placeholder("a") + " " + Placeholder("b") + "" == "{a} {b}";
    assert "" + "x" + " " + "y" + "" == "x y";
    PartialFormatTwoKeys("", "a", " ", "b", "", "x", "y");
  }

  /** A placeholder outside the mapping survives: "{a}{c}" with a = x is "x{c}". */
  lemma PartialFormatUnmappedKey()
    ensures PartialFormat("{a}{c}", [("a", "x")]) == "x{c}"
  {
    assert BraceFree("a") && BraceFree("c");
    assert "" + Placeholder("a") + "" + Placeholder("c") + "" == "{a}{c}";
    assert "" + "x" + "" + Placeholder("c") + "" == "x{c}";
    PartialFormatLeavesOthers("", "a", "", "c", "", "x");
  }

  /** A value that is a later key's placeholder is itself rewritten by that
      key: both places end up holding the later value. */
  lemma PartialFormatValueHoldsLaterKey(a: string, k1: string, b: string, k2: string, c: string, v2: string)
    requires '{' !in a && '{' !in b && '{' !in c && BraceFree(k1) && BraceFree(k2) && k1 != k2
    ensures PartialFormat(a + Placeholder(k1) + b + Placeholder(k2) + c, [(k1, Placeholder(k2)), (k2, v2)])
            == a + v2 + b + v2 + c
  {
    var s := a + Placeholder(k1) + b + Placeholder(k2) + c;
    assert [(k1, Placeholder(k2))] + [(k2, v2)] == [(k1, Placeholder(k2)), (k2, v2)];
    PartialFormatAppend(s, [(k1, Placeholder(k2))], [(k2, v2)]);
    PartialFormatLeavesOthers(a, k1, b, k2, c, Placeholder(k2));
    JoinThree(a, b, c, Placeholder(k2));
    JoinThree(a, b, c, v2);
    assert FreeOf([a, b, c], '{');
    PartialFormatJoin([a, b, c], k2, v2);
  }

  lemma JoinThree(a: string, b: string, c: string, sep: string)
    ensures Join([a, b, c], sep) == a + sep + b + sep + c
  {
    var parts := [a, b, c];
    assert parts[1..] == [b, c] && parts[1..][1..] == [c];
    assert Join([b, c], sep) == b + sep + c;
    assert Join(parts, sep) == a + sep + (b + sep + c);
    AppendAssoc(a + sep, b + sep, c);
    AppendAssoc(a + sep, b, sep);
  }

  /** "{a} {b}" with a = "{b}" and then b = y is "y y". */
  lemma PartialFormatRewritesValue()
    ensures PartialFormat("{a} {b}", [("a", "{b}"), ("b", "y")]) == "y y"
  {
    assert BraceFree("a") && BraceFree("b");
    assert Placeholder("b") == "{b}";
    assert "" + Placeholder("a") + " " + Placeholder("b") + "" == "{a} {b}";
    assert "" + "y" + " " + "y" + "" == "y y";
    PartialFormatValueHoldsLaterKey("", "a", " ", "b", "", "y");
  }

  /** "{a}-{a}" with a = x is "x-x". */
  lemma PartialFormatRepeatedKey()
    ensures PartialFormat("{a}-{a}", [("a", "x")]) == "x-x"
  {
    var parts := ["", "-", ""];
    assert parts[1..] == ["-", ""] && parts[1..][1..] == [""];
    assert Join(parts, Placeholder("a")) == "{a}-{a}";
    assert Join(parts, "x") == "x-x";
    assert FreeOf(parts, '{');
    PartialFormatJoin(parts, "a", "x");
  }

  /** Keyword arguments apply in order: formatting with `kw1` and then `kw2` is
      formatting with `kw1` followed by `kw2`. */
  lemma {:induction false} PartialFormatAppend(s: string, kw1: seq<(string, string)>, kw2: seq<(string, string)>)
    ensures PartialFormat(s, kw1 + kw2) == PartialFormat(PartialFormat(s, kw1), kw2)
    decreases |kw1|
  {
    if |kw1| == 0 {
      assert kw1 + kw2 == kw2;
    } else {
      assert (kw1 + kw2)[0] == kw1[0];
      assert (kw1 + kw2)[1..] == kw1[1..] + kw2;
      PartialFormatAppend(ReplaceAll(s, Placeholder(kw1[0].0), kw1[0].1), kw1[1..], kw2);
    }
  }

  /** `pre` put in front of a successful result. */
  function Prepend(pre: string, r: Result<string>): (q: Result<string>)
    ensures q.Success? <==> r.Success?
    ensures r.Failure? ==> q == r
    ensures r.Success? ==> q.value == pre + r.value
  {
    match r
    case Success(v) => Success(pre + v)
    case Failure(e) => Failure(e)
  }

  /** `template.format(arg)` scanned left to right: `{{` and `}}` are literal
      braces, `{}` takes the single positional argument (a second `{}` finds no
      argument, an IndexError), a lone `}` or a `{` at the end is a ValueError,
      and any other replacement field (`{0}`, `{name}`, a format spec) is outside
      this model. `used` records whether `{}` has been consumed. */
  function FormatFrom(t: string, arg: string, used: bool): (r: Result<string>)
    ensures r.Failure? ==> r.error in {IndexError, FormatValueError, UnsupportedField}
    ensures r.Success? ==> |r.value| <= |t| + (if used then 0 else |arg|)
    decreases |t|
  {
    if |t| == 0 then Success("")
    else if t[0] == '{' then
      if |t| >= 2 && t[1] == '{' then Prepend("{", FormatFrom(t[2..], arg, used))
      else if |t| >= 2 && t[1] == '}' then
        if used then Failure(IndexError) else Prepend(arg, FormatFrom(t[2..], arg, true))
      else if |t| == 1 then Failure(FormatValueError)
      else Failure(UnsupportedField)
    else if t[0] == '}' then
      if |t| >= 2 && t[1] == '}' then Prepend("}", FormatFrom(t[2..], arg, used))
      else Failure(FormatValueError)
    else Prepend([t[0]], FormatFrom(t[1..], arg, used))
  }

  /** `t.format(arg)`: it fails only in the three ways above, and the single
      argument fills at most one field. */
  function Format(t: string, arg: string): (r: Result<string>)
    ensures r.Failure? ==> r.error in {IndexError, FormatValueError, UnsupportedField}
    ensures r.Success? ==> |r.value| <= |t| + |arg|
  {
    FormatFrom(t, arg, false)
  }

  /** Brace-free text is copied through verbatim. */
  lemma {:induction false} FormatFromLiteral(a: string, t: string, arg: string, used: bool)
    requires BraceFree(a)
    ensures FormatFrom(a + t, arg, used) == Prepend(a, FormatFrom(t, arg, used))
    decreases |a|
  {
    if |a| == 0 {
      assert a + t == t;
      assert FormatFrom(t, arg, used).Success? ==> a + FormatFrom(t, arg, used).value == FormatFrom(t, arg, used).value;
    } else {
      assert (a + t)[0] == a[0];
      assert (a + t)[1..] == a[1..] + t;
      assert BraceFree(a[1..]) by {
        assert forall c :: c in a[1..] ==> c in a;
      }
      assert a[0] in a;
      assert a[0] != '{' && a[0] != '}';
      FormatFromLiteral(a[1..], t, arg, used);
      var rest := FormatFrom(t, arg, used);
      if rest.Success? {
        assert [a[0]] + (a[1..] + rest.value) == a + rest.value;
      }
    }
  }

  /** A template with no braces formats to itself. */
  lemma FormatNoField(t: string, arg: string)
    requires BraceFree(t)
    ensures Format(t, arg) == Success(t)
  {
    FormatFromLiteral(t, "", arg, false);
    assert t + "" == t;
  }

  /** A template with one `{}` between brace-free text puts the argument there. */
  lemma FormatOneField(before: string, after: string, arg: string)
    requires BraceFree(before) && BraceFree(after)
    ensures Format(before + "{}" + after, arg) == Success(before + arg + after)
  {
    assert before + "{}" + after == before + ("{}" + after);
    FormatFromLiteral(before, "{}" + after, arg, false);
    assert ("{}" + after)[2..] == after;
    assert "{}" + after == "{}" + (after + "");
    FormatFromLiteral(after, "", arg, true);
    assert FormatFrom(after, arg, true) == Success(after);
    assert FormatFrom("{}" + after, arg, false) == Success(arg + after);
    assert before + (arg + after) == before + arg + after;
  }

  /** Two automatic fields need two arguments: formatting `{}{}` with one fails. */
  lemma FormatTwoFieldsFails(arg: string)
    ensures Format("{}{}", arg) == Failure(IndexError)
  {
    assert "{}{}"[2..] == "{}";
  }
}
