/** `most_frequent` (debate.py lines 282-292): the answer most agents gave,
    ties going to the answer that appears first. */
module Vote {
  import opened Wrappers

  /** Python's `xs.count(x)`. */
  function Count<T(==)>(xs: seq<T>, x: T): (n: nat)
    ensures n <= |xs|
    ensures n == multiset(xs)[x]
    decreases |xs|
  {
    if |xs| == 0 then 0
    else
      assert xs == [xs[0]] + xs[1..];
      (if xs[0] == x then 1 else 0) + Count(xs[1..], x)
  }

  /** An element that occurs is counted at least once. */
  lemma {:induction false} CountPositive<T>(xs: seq<T>, x: T)
    requires x in xs
    ensures Count(xs, x) >= 1
    decreases |xs|
  {
    if xs[0] != x {
      assert x in xs[1..];
      CountPositive(xs[1..], x);
    }
  }

  /** The position of the first occurrence of `x`. */
  function FirstIndex<T(==)>(xs: seq<T>, x: T): (i: nat)
    requires x in xs
    ensures i < |xs| && xs[i] == x
    ensures forall j :: 0 <= j < i ==> xs[j] != x
    decreases |xs|
  {
    if xs[0] == x then 0 else
      assert x in xs[1..];
      1 + FirstIndex(xs[1..], x)
  }

  /** `x` is an element of `xs` occurring `n` times, no element occurs more
      often, and every element before the first `x` occurs fewer times. */
  predicate IsMostFrequent<T(==)>(xs: seq<T>, x: T, n: nat) {
    && x in xs
    && n == Count(xs, x)
    && (forall j :: 0 <= j < |xs| ==> Count(xs, xs[j]) <= n)
    && (forall j :: 0 <= j < FirstIndex(xs, x) ==> Count(xs, xs[j]) < n)
  }

  /** `most_frequent(list)`: the loop keeps the first element whose count
      strictly exceeds every count seen before; an empty list fails on
      `list[0]`. */
  method MostFrequent<T(==)>(xs: seq<T>) returns (r: Result<(T, nat)>)
    ensures r.Failure? <==> |xs| == 0
    ensures r.Failure? ==> r.error == IndexError
    ensures r.Success? ==> IsMostFrequent(xs, r.value.0, r.value.1)
  {
    if |xs| == 0 {
      return Failure(IndexError);
    }
    var counter: nat := 0;
    var num := xs[0];
    ghost var k := 0;
    var i := 0;
    while i < |xs|
      invariant 0 <= i <= |xs|
      invariant k < |xs| && num == xs[k]
      invariant i == 0 ==> counter == 0
      invariant i > 0 ==> k < i && counter == Count(xs, num)
      invariant forall j :: 0 <= j < i ==> Count(xs, xs[j]) <= counter
      invariant forall j :: 0 <= j < k ==> Count(xs, xs[j]) < counter
    {
      var currentFrequency := Count(xs, xs[i]);
      CountPositive(xs, xs[i]);
      if currentFrequency > counter {
        counter := currentFrequency;
        num := xs[i];
        k := i;
      }
      i := i + 1;
    }
    assert FirstIndex(xs, num) <= k;
    return Success((num, counter));
  }

  /** At most one element and count meet the description, so it determines
      what `most_frequent` returns. */
  lemma MostFrequentUnique<T>(xs: seq<T>, x: T, n: nat, y: T, m: nat)
    requires IsMostFrequent(xs, x, n) && IsMostFrequent(xs, y, m)
    ensures x == y && n == m
  {
    var i := FirstIndex(xs, x);
    var j := FirstIndex(xs, y);
    assert Count(xs, xs[j]) <= n && Count(xs, xs[i]) <= m;
    assert n == m;
    assert Count(xs, xs[i]) == m && Count(xs, xs[j]) == n;
    assert i == j;
  }

  /** With `a, b, b, a` both answers occur twice and the first one wins. */
  lemma TieGoesToFirst<T>(a: T, b: T)
    requires a != b
    ensures IsMostFrequent([a, b, b, a], a, 2)
    ensures !IsMostFrequent([a, b, b, a], b, 2)
  {
    var xs := [a, b, b, a];
    assert xs[1..] == [b, b, a] && xs[1..][1..] == [b, a] && xs[1..][1..][1..] == [a];
    assert [a][1..] == [];
    assert Count([a], a) == 1 && Count([a], b) == 0;
    assert Count([b, a], a) == 1 && Count([b, a], b) == 1;
    assert Count([b, b, a], a) == 1 && Count([b, b, a], b) == 2;
    assert Count(xs, a) == 2;
    assert Count(xs, b) == 2;
    assert FirstIndex(xs, a) == 0;
    assert FirstIndex(xs, b) == 1;
  }
}
