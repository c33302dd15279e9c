/** Order-preserving selection from a sequence. */
module Seqs {

  /** The elements of `xs` that satisfy `keep`, in their original order. */
  function Filter<T>(xs: seq<T>, keep: T -> bool): (r: seq<T>)
    ensures |r| <= |xs|
    ensures forall i :: 0 <= i < |r| ==> keep(r[i]) && r[i] in xs
    ensures forall i :: 0 <= i < |xs| && keep(xs[i]) ==> xs[i] in r
    decreases |xs|
  {
    if |xs| == 0 then []
    else if keep(xs[0]) then [xs[0]] + Filter(xs[1..], keep)
    else Filter(xs[1..], keep)
  }

  /** Filtering distributes over concatenation, so relative order is kept. */
  lemma {:induction false} FilterAppend<T>(a: seq<T>, b: seq<T>, keep: T -> bool)
    ensures Filter(a + b, keep) == Filter(a, keep) + Filter(b, keep)
    decreases |a|
  {
    if |a| == 0 {
      assert a + b == b;
    } else {
      assert (a + b)[1..] == a[1..] + b;
      FilterAppend(a[1..], b, keep);
    }
  }

  /** Filtering a sequence with one element in the middle. */
  lemma FilterAround<T>(a: seq<T>, x: T, b: seq<T>, keep: T -> bool)
    ensures Filter(a + [x] + b, keep)
            == Filter(a, keep) + (if keep(x) then [x] else []) + Filter(b, keep)
  {
    FilterAppend(a + [x], b, keep);
    FilterAppend(a, [x], keep);
    assert Filter([x], keep) == (if keep(x) then [x] else []) by {
      assert [x][1..] == [];
      assert Filter([x][1..], keep) == [];
    }
  }
}
