/** Generic facts about sequences that the transcript views are built from. */
module Sequences {

  /** `f` applied to every element. */
  function Map<A, B>(f: A -> B, xs: seq<A>): (r: seq<B>)
    ensures |r| == |xs|
    ensures forall i :: 0 <= i < |xs| ==> r[i] == f(xs[i])
    decreases |xs|
  {
    if |xs| == 0 then [] else [f(xs[0])] + Map(f, xs[1..])
  }

  lemma MapCons<A, B>(f: A -> B, x: A, xs: seq<A>)
    ensures Map(f, [x] + xs) == [f(x)] + Map(f, xs)
  {
    assert ([x] + xs)[1..] == xs;
  }

  /** `odd[0], even[0], odd[1], ..., odd[n]`: elements of two sequences
      alternating, starting and ending with the longer one. */
  function Interleave<T>(odd: seq<T>, even: seq<T>): (r: seq<T>)
    requires |odd| == |even| + 1
    ensures |r| == 2 * |even| + 1
    decreases |even|
  {
    if |even| == 0 then odd
    else [odd[0], even[0]] + Interleave(odd[1..], even[1..])
  }

  /** Position 2k of an interleaving holds `odd[k]`, position 2k+1 holds
      `even[k]`. */
  lemma {:induction false} InterleaveAt<T>(odd: seq<T>, even: seq<T>, k: nat)
    requires |odd| == |even| + 1 && k < |odd|
    ensures Interleave(odd, even)[2 * k] == odd[k]
    ensures k < |even| ==> Interleave(odd, even)[2 * k + 1] == even[k]
    decreases k
  {
    if k > 0 {
      InterleaveAt(odd[1..], even[1..], k - 1);
      var rest := Interleave(odd[1..], even[1..]);
      assert Interleave(odd, even)[2 * k] == rest[2 * (k - 1)];
      if k < |even| {
        assert Interleave(odd, even)[2 * k + 1] == rest[2 * (k - 1) + 1];
      }
    }
  }

  lemma InterleaveCons<T>(u: T, odd: seq<T>, m: T, even: seq<T>)
    requires |odd| == |even| + 1
    ensures Interleave([u] + odd, [m] + even) == [u, m] + Interleave(odd, even)
  {
    assert ([u] + odd)[1..] == odd;
    assert ([m] + even)[1..] == even;
  }

  /** The head and tail of a sequence built by putting one element in front. */
  lemma HeadTail<T>(x: T, xs: seq<T>)
    ensures ([x] + xs)[0] == x && ([x] + xs)[1..] == xs
  {
  }

  lemma AppendAssoc<T>(a: seq<T>, b: seq<T>, c: seq<T>)
    ensures (a + b) + c == a + (b + c)
  {
  }

  /** Appending two elements one at a time, or as a pair. */
  lemma Regroup<T>(out: seq<T>, u: T, m: T, rest: seq<T>)
    ensures out + [u] + [m] + rest == out + ([u, m] + rest)
  {
  }
}
