/**
  The "first strictly better" scan the players use to pick a move: walk the candidates in
  order and replace the best so far only on a strictly larger value.  MinimaxAI::SelectMove
  scans move values this way and MCTS::SelectBestMove scans visit counts.
*/
module Choice {
  /** The index the scan of vals[i..] keeps, starting from index best with value bestValue. */
  function FirstMaxFrom(vals: seq<int>, i: nat, best: int, bestValue: int): (k: int)
    requires i <= |vals|
    ensures k == best || i <= k < |vals|
    decreases |vals| - i
  {
    if i == |vals| then best
    else if vals[i] > bestValue then FirstMaxFrom(vals, i + 1, i, vals[i])
    else FirstMaxFrom(vals, i + 1, best, bestValue)
  }

  /** k holds a largest value of vals, and no earlier index does. */
  predicate IsFirstMax(vals: seq<int>, k: int) {
    0 <= k < |vals| &&
    (forall j :: 0 <= j < |vals| ==> vals[j] <= vals[k]) &&
    (forall j :: 0 <= j < k ==> vals[j] < vals[k])
  }

  /** There is only one first maximum. */
  lemma FirstMaxUnique(vals: seq<int>, k1: int, k2: int)
    requires IsFirstMax(vals, k1) && IsFirstMax(vals, k2)
    ensures k1 == k2
  {
    assert vals[k1] <= vals[k2] && vals[k2] <= vals[k1];
  }

  /** The scan's invariant carries it to the first maximum. */
  lemma {:induction false} FirstMaxFromSpec(vals: seq<int>, i: nat, best: int, bestValue: int)
    requires i <= |vals|
    requires i == 0 ==> forall j :: 0 <= j < |vals| ==> bestValue < vals[j]
    requires 0 < i ==> 0 <= best < i && bestValue == vals[best]
    requires forall j :: 0 <= j < i ==> vals[j] <= bestValue
    requires forall j :: 0 <= j < best && j < |vals| ==> vals[j] < bestValue
    ensures |vals| == 0 ==> FirstMaxFrom(vals, i, best, bestValue) == best
    ensures |vals| > 0 ==> IsFirstMax(vals, FirstMaxFrom(vals, i, best, bestValue))
    decreases |vals| - i
  {
    if i < |vals| {
      if vals[i] > bestValue {
        FirstMaxFromSpec(vals, i + 1, i, vals[i]);
      } else {
        FirstMaxFromSpec(vals, i + 1, best, bestValue);
      }
    }
  }

  /** A scan started below every value finds the first maximum, and keeps best on no values. */
  lemma FirstMaxFound(vals: seq<int>, best: int, floor: int)
    requires forall j :: 0 <= j < |vals| ==> floor < vals[j]
    requires best <= 0
    ensures |vals| == 0 ==> FirstMaxFrom(vals, 0, best, floor) == best
    ensures |vals| > 0 ==> IsFirstMax(vals, FirstMaxFrom(vals, 0, best, floor))
  {
    FirstMaxFromSpec(vals, 0, best, floor);
  }

  // The same scan over real values, started from minus infinity: MCTS::Selection over
  // child scores and the network-output argmax of the legacy players.

  /** The index a "strictly greater than the best so far" scan of vals[k..] keeps, having
      kept best so far. */
  function FirstBestFrom(vals: seq<real>, k: nat, best: nat): (b: nat)
    requires best < k <= |vals|
    ensures b < |vals|
    decreases |vals| - k
  {
    if k == |vals| then best
    else if vals[k] > vals[best] then FirstBestFrom(vals, k + 1, k)
    else FirstBestFrom(vals, k + 1, best)
  }

  /** The scan starting from minus infinity: the first child is always taken. */
  function FirstBest(vals: seq<real>): (b: nat)
    requires vals != []
    ensures b < |vals|
  {
    FirstBestFrom(vals, 1, 0)
  }

  /** b holds a largest value of vals, and no earlier index does. */
  predicate IsFirstBest(vals: seq<real>, b: int) {
    0 <= b < |vals| &&
    (forall j :: 0 <= j < |vals| ==> vals[j] <= vals[b]) &&
    (forall j :: 0 <= j < b ==> vals[j] < vals[b])
  }

  lemma {:induction false} FirstBestFromSpec(vals: seq<real>, k: nat, best: nat)
    requires best < k <= |vals|
    requires forall j :: 0 <= j < k ==> vals[j] <= vals[best]
    requires forall j :: 0 <= j < best ==> vals[j] < vals[best]
    ensures IsFirstBest(vals, FirstBestFrom(vals, k, best))
    decreases |vals| - k
  {
    if k < |vals| {
      if vals[k] > vals[best] {
        FirstBestFromSpec(vals, k + 1, k);
      } else {
        FirstBestFromSpec(vals, k + 1, best);
      }
    }
  }

  /** The scan from minus infinity ends at the first strict maximum. */
  lemma {:induction false} FirstBestSpec(vals: seq<real>)
    requires vals != []
    ensures IsFirstBest(vals, FirstBest(vals))
  {
    FirstBestFromSpec(vals, 1, 0);
  }
}
