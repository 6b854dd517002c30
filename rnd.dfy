/** The random number generator of Rust/src/rnd.rs: a multiplicative congruential generator
    with the Park-Miller constants, whose multiplication wraps around at 2^32 before the
    reduction modulo P, as u32::wrapping_mul does. */
module Rnd {
  const P: int := 2147483647
  const A: int := 16807

  newtype u32 = x: int | 0 <= x < 0x1_0000_0000

  /** u32::wrapping_mul */
  function WrappingMul(a: u32, b: u32): u32 {
    ((a as int * b as int) % 0x1_0000_0000) as u32
  }

  /** The state Rnd::next moves to from current, which is also the value it returns. */
  function Step(current: u32): (r: u32)
    ensures r as int < P
  {
    (WrappingMul(current, A as u32) as int % P) as u32
  }

  /** The first n values that n calls of next return, starting from state s: a function
      of the state alone, so two fresh generators return the same values. */
  function Stream(s: u32, n: nat): (xs: seq<u32>)
    ensures |xs| == n
    decreases n
  {
    if n == 0 then [] else [Step(s)] + Stream(Step(s), n - 1)
  }

  /** Every value of a stream is below P. */
  lemma {:induction false} StreamBelowP(s: u32, n: nat)
    ensures forall k :: 0 <= k < n ==> Stream(s, n)[k] as int < P
    decreases n
  {
    if n > 0 {
      StreamBelowP(Step(s), n - 1);
      assert forall k :: 1 <= k < n ==> Stream(s, n)[k] == Stream(Step(s), n - 1)[k - 1];
    }
  }

  /** A stream of n + 1 values is the first value followed by the stream from it. */
  lemma {:induction false} StreamNext(s: u32, n: nat)
    ensures Stream(s, n + 1) == [Step(s)] + Stream(Step(s), n)
  {
  }

  /** The state n calls of next lead to from state s. */
  function StateAfter(s: u32, n: nat): u32
    decreases n
  {
    if n == 0 then s else StateAfter(Step(s), n - 1)
  }

  /** One more call of next appends the step from the state the first n calls lead to. */
  lemma {:induction false} StreamSnoc(s: u32, n: nat)
    ensures StateAfter(s, n + 1) == Step(StateAfter(s, n))
    ensures Stream(s, n + 1) == Stream(s, n) + [Step(StateAfter(s, n))]
    decreases n
  {
    if n > 0 {
      StreamSnoc(Step(s), n - 1);
      StreamNext(s, n);
      StreamNext(s, n - 1);
      assert [Step(s)] + (Stream(Step(s), n - 1) + [Step(StateAfter(Step(s), n - 1))]) ==
        ([Step(s)] + Stream(Step(s), n - 1)) + [Step(StateAfter(Step(s), n - 1))];
    }
  }

  /** The first values of a fresh generator.  The third one already differs from the
      textbook Park-Miller sequence (1622650073), because 282475249 * 16807 wraps. */
  lemma FreshStream()
    ensures Stream(1, 3) == [16807, 282475249, 1622647863]
  {
    assert Step(1) == 16807;
    assert Step(16807) == 282475249;
    assert Step(282475249) == 1622647863;
    StreamNext(1, 2);
    StreamNext(16807, 1);
    StreamNext(282475249, 0);
  }

  /** The state 0 is never left, and because the product wraps, two non-zero states lead
      to it. */
  lemma ZeroAbsorbing()
    ensures Step(0) == 0
    ensures Step(868985321) == 0 && Step(1737970642) == 0
  {
    assert 868985321 * 16807 == 14605036290047;
    assert 14605036290047 % 0x1_0000_0000 == P;
    assert 1737970642 * 16807 == 29210072580094;
    assert 29210072580094 % 0x1_0000_0000 == 2 * P;
  }

  class Rnd {
    var current: u32

    /** Rnd::new */
    constructor ()
      ensures current == 1
    {
      current := 1;
    }

    /** Rnd::next */
    method Next() returns (r: u32)
      modifies this
      ensures current == Step(old(current)) && r == current
      ensures r as int < P
    {
      current := (WrappingMul(current, A as u32) as int % P) as u32;
      r := current;
    }

    /** n successive calls of next: the values are the stream from the state. */
    method Take(n: nat) returns (xs: seq<u32>)
      modifies this
      ensures xs == Stream(old(current), n) && current == StateAfter(old(current), n)
    {
      xs := [];
      ghost var start := current;
      for i := 0 to n
        invariant xs == Stream(start, i) && current == StateAfter(start, i)
      {
        StreamSnoc(start, i);
        var x := Next();
        xs := xs + [x];
      }
    }

    /** Rnd::next_float: the new state over P, in [0, 1). */
    method NextFloat() returns (f: real)
      modifies this
      ensures current == Step(old(current))
      ensures f == current as real / P as real
      ensures 0.0 <= f < 1.0
    {
      var u := Next();
      f := u as real / P as real;
    }
  }

  /** Two fresh generators return the same first n values: the stream from 1. */
  method FreshGeneratorsAgree(n: nat) returns (xs: seq<u32>, ys: seq<u32>)
    ensures xs == ys == Stream(1, n)
  {
    var first := new Rnd();
    var second := new Rnd();
    xs := first.Take(n);
    ys := second.Take(n);
  }
}
