/**
  Sequence facts used throughout the model: order-preserving filters over
  name lists and the subsequence relation they establish.
 */
module Seqs {

  /** No name occurs twice. */
  predicate Distinct(xs: seq<string>) {
    forall i, j :: 0 <= i < j < |xs| ==> xs[i] != xs[j]
  }

  /** `xs` can be obtained from `ys` by deleting elements. */
  predicate IsSubsequence<T(==)>(xs: seq<T>, ys: seq<T>)
    decreases |ys|
  {
    if |xs| == 0 then true
    else if |ys| == 0 then false
    else if xs[0] == ys[0] then IsSubsequence(xs[1..], ys[1..])
    else IsSubsequence(xs, ys[1..])
  }

  /** A subsequence of `ys` stays one when an element is put in front of `ys`. */
  lemma {:induction false} SubsequenceCons<T>(xs: seq<T>, y: T, ys: seq<T>)
    requires IsSubsequence(xs, ys)
    ensures IsSubsequence(xs, [y] + ys)
    decreases |xs| + |ys|
  {
    assert ([y] + ys)[1..] == ys;
    if |xs| > 0 && xs[0] == y {
      // The tail of `xs` must be found in `ys`.
      assert |ys| > 0;
      if xs[0] == ys[0] {
        SubsequenceCons(xs[1..], ys[0], ys[1..]);
        assert [ys[0]] + ys[1..] == ys;
      } else {
        SubsequenceCons(xs, y, ys[1..]);
        assert ([y] + ys[1..])[1..] == ys[1..];
        SubsequenceCons(xs[1..], ys[0], ys[1..]);
        assert [ys[0]] + ys[1..] == ys;
      }
    }
  }

  /** The elements of `xs` that occur in `ys`, in the order of `xs`. */
  function KeepIn(xs: seq<string>, ys: seq<string>): (r: seq<string>)
    ensures forall x :: x in r <==> x in xs && x in ys
    ensures IsSubsequence(r, xs)
    ensures Distinct(xs) ==> Distinct(r)
  {
    if |xs| == 0 then []
    else
      var rest := KeepIn(xs[1..], ys);
      assert forall x :: x in xs <==> x == xs[0] || x in xs[1..];
      if xs[0] in ys then [xs[0]] + rest else rest
  }

  /** The elements of `xs` that do not occur in `ys`, in the order of `xs`. */
  function Without(xs: seq<string>, ys: seq<string>): (r: seq<string>)
    ensures forall x :: x in r <==> x in xs && x !in ys
    ensures IsSubsequence(r, xs)
    ensures Distinct(xs) ==> Distinct(r)
  {
    if |xs| == 0 then []
    else
      var rest := Without(xs[1..], ys);
      assert forall x :: x in xs <==> x == xs[0] || x in xs[1..];
      if xs[0] in ys then rest else [xs[0]] + rest
  }

  /** `Without` only looks at which elements of `xs` the second list holds. */
  lemma {:induction false} WithoutCongruent(xs: seq<string>, ys: seq<string>, zs: seq<string>)
    requires forall x :: x in xs ==> (x in ys <==> x in zs)
    ensures Without(xs, ys) == Without(xs, zs)
  {
    if |xs| > 0 {
      assert forall x :: x in xs[1..] ==> x in xs;
      WithoutCongruent(xs[1..], ys, zs);
    }
  }

  /** Removing everything `ys` holds and then an element `xs` lacks changes nothing further. */
  lemma {:induction false} WithoutExtend(xs: seq<string>, ys: seq<string>, z: string)
    requires z !in xs
    ensures Without(xs, ys + [z]) == Without(xs, ys)
  {
    WithoutCongruent(xs, ys + [z], ys);
  }

  /** A distinct list with one more element appended stays distinct when the element is new. */
  lemma DistinctAppend(xs: seq<string>, z: string)
    requires Distinct(xs) && z !in xs
    ensures Distinct(xs + [z])
  {
  }

  /** Concatenating two distinct lists with no common element gives a distinct list. */
  lemma DistinctConcat(xs: seq<string>, ys: seq<string>)
    requires Distinct(xs) && Distinct(ys)
    requires forall x :: x in xs ==> x !in ys
    ensures Distinct(xs + ys)
  {
    forall i, j | 0 <= i < j < |xs + ys|
      ensures (xs + ys)[i] != (xs + ys)[j]
    {
      if j < |xs| {
        assert (xs + ys)[i] == xs[i];
        assert (xs + ys)[j] == xs[j];
      } else if i >= |xs| {
        assert (xs + ys)[i] == ys[i - |xs|];
        assert (xs + ys)[j] == ys[j - |xs|];
      } else {
        assert (xs + ys)[i] == xs[i];
        assert (xs + ys)[j] == ys[j - |xs|];
        assert xs[i] in xs;
      }
    }
  }
}
