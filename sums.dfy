/** Sums of real vectors, as the evaluators and MCTS accumulate them in `double`.

    Sum adds a whole vector, SumAt adds the entries at a list of indices (the legal
    columns, say); both are defined from the back so that a left-to-right accumulator
    loop extends them one step at a time. */
module Sums {

  function Sum(s: seq<real>): real
    decreases |s|
  {
    if s == [] then 0.0 else Sum(s[..|s| - 1]) + s[|s| - 1]
  }

  lemma {:induction false} SumAppend(a: seq<real>, b: seq<real>)
    ensures Sum(a + b) == Sum(a) + Sum(b)
    decreases |b|
  {
    if b == [] {
      assert a + b == a;
    } else {
      assert (a + b)[..|a + b| - 1] == a + b[..|b| - 1];
      SumAppend(a, b[..|b| - 1]);
    }
  }

  /** A vector of n copies of x sums to n * x. */
  lemma {:induction false} SumConstant(s: seq<real>, x: real)
    requires forall k :: 0 <= k < |s| ==> s[k] == x
    ensures Sum(s) == |s| as real * x
    decreases |s|
  {
    if s != [] {
      SumConstant(s[..|s| - 1], x);
    }
  }

  lemma Reciprocal(n: real)
    requires n != 0.0
    ensures n * (1.0 / n) == 1.0
  {
  }

  lemma Quotient(x: real, d: real)
    requires d != 0.0 && x == d
    ensures x / d == 1.0
  {
  }

  predicate Indices(s: seq<real>, idx: seq<int>) {
    forall k :: 0 <= k < |idx| ==> 0 <= idx[k] < |s|
  }

  /** The sum of s over the positions listed in idx. */
  function SumAt(s: seq<real>, idx: seq<int>): real
    requires Indices(s, idx)
    decreases |idx|
  {
    if idx == [] then 0.0 else SumAt(s, idx[..|idx| - 1]) + s[idx[|idx| - 1]]
  }

  lemma {:induction false} SumAtAppend(s: seq<real>, a: seq<int>, b: seq<int>)
    requires Indices(s, a) && Indices(s, b)
    ensures Indices(s, a + b)
    ensures SumAt(s, a + b) == SumAt(s, a) + SumAt(s, b)
    decreases |b|
  {
    if b == [] {
      assert a + b == a;
    } else {
      assert (a + b)[..|a + b| - 1] == a + b[..|b| - 1];
      SumAtAppend(s, a, b[..|b| - 1]);
    }
  }

  /** One more step of a left-to-right accumulation over idx. */
  lemma SumAtStep(s: seq<real>, idx: seq<int>, i: nat)
    requires Indices(s, idx) && i < |idx|
    ensures Indices(s, idx[..i]) && Indices(s, idx[..i + 1])
    ensures SumAt(s, idx[..i + 1]) == SumAt(s, idx[..i]) + s[idx[i]]
  {
    assert idx[..i + 1][..i] == idx[..i];
  }

  /** SumAt only looks at the listed positions. */
  lemma {:induction false} SumAtAgree(s: seq<real>, t: seq<real>, idx: seq<int>)
    requires Indices(s, idx) && Indices(t, idx)
    requires forall k :: 0 <= k < |idx| ==> s[idx[k]] == t[idx[k]]
    ensures SumAt(s, idx) == SumAt(t, idx)
    decreases |idx|
  {
    if idx != [] {
      SumAtAgree(s, t, idx[..|idx| - 1]);
    }
  }

  /** Dividing every listed entry by d divides their sum by d. */
  lemma {:induction false} SumAtScaled(s: seq<real>, t: seq<real>, idx: seq<int>, d: real)
    requires Indices(s, idx) && Indices(t, idx) && d != 0.0
    requires forall k :: 0 <= k < |idx| ==> t[idx[k]] == s[idx[k]] / d
    ensures SumAt(t, idx) == SumAt(s, idx) / d
    decreases |idx|
  {
    if idx != [] {
      SumAtScaled(s, t, idx[..|idx| - 1], d);
    }
  }

  /** Listed entries all equal to x sum to |idx| * x. */
  lemma {:induction false} SumAtConstant(s: seq<real>, idx: seq<int>, x: real)
    requires Indices(s, idx)
    requires forall k :: 0 <= k < |idx| ==> s[idx[k]] == x
    ensures SumAt(s, idx) == |idx| as real * x
    decreases |idx|
  {
    if idx != [] {
      SumAtConstant(s, idx[..|idx| - 1], x);
    }
  }

  /** Listed entries all equal to 1/|idx| sum to 1. */
  lemma SumAtUniform(s: seq<real>, idx: seq<int>)
    requires Indices(s, idx) && idx != []
    requires forall k :: 0 <= k < |idx| ==> s[idx[k]] == 1.0 / |idx| as real
    ensures SumAt(s, idx) == 1.0
  {
    SumAtConstant(s, idx, 1.0 / |idx| as real);
    Reciprocal(|idx| as real);
  }

  /** Listed entries that are all positive have a positive sum. */
  lemma {:induction false} SumAtPositive(s: seq<real>, idx: seq<int>)
    requires Indices(s, idx) && idx != []
    requires forall k :: 0 <= k < |idx| ==> s[idx[k]] > 0.0
    ensures SumAt(s, idx) > 0.0
    decreases |idx|
  {
    if |idx| > 1 {
      SumAtPositive(s, idx[..|idx| - 1]);
    }
  }

  /** Listed entries of a non-negative vector have a non-negative sum. */
  lemma {:induction false} SumAtNonNegative(s: seq<real>, idx: seq<int>)
    requires Indices(s, idx)
    requires forall c :: 0 <= c < |s| ==> s[c] >= 0.0
    ensures SumAt(s, idx) >= 0.0
    decreases |idx|
  {
    if idx != [] {
      SumAtNonNegative(s, idx[..|idx| - 1]);
    }
  }

  /** Over a non-negative vector the sum is at least each listed entry. */
  lemma {:induction false} SumAtAtLeast(s: seq<real>, idx: seq<int>, j: nat)
    requires Indices(s, idx) && j < |idx|
    requires forall c :: 0 <= c < |s| ==> s[c] >= 0.0
    ensures SumAt(s, idx) >= s[idx[j]]
    decreases |idx|
  {
    var init := idx[..|idx| - 1];
    if j == |idx| - 1 {
      SumAtNonNegative(s, init);
    } else {
      SumAtAtLeast(s, init, j);
    }
  }
}
