/** The policy half of the Evaluator interface (ConnectFour/evaluator.h): a vector of one
    prior per column.  Both evaluators leave every column that does not accept a piece at
    0 and share two ways of turning raw per-column numbers into a distribution:
    dividing by their total over the legal columns, or 1/|moves| on every legal column. */
module Priors {
  import opened GameBoard
  import opened Sums

  /** A vector with one entry per column that is zero on every full or off-board column. */
  predicate SupportedOn(p: seq<real>, g: Position) {
    |p| == Cols && forall c :: 0 <= c < Cols && !Legal(g, c) ==> p[c] == 0.0
  }

  lemma MovesLegal(g: Position)
    ensures forall k :: 0 <= k < |LegalMoves(g)| ==> Legal(g, LegalMoves(g)[k])
  {
    LegalMovesFromMembers(g, 0);
    forall k | 0 <= k < |LegalMoves(g)|
      ensures Legal(g, LegalMoves(g)[k])
    {
      assert LegalMoves(g)[k] in LegalMovesFrom(g, 0);
    }
  }

  /** A position with a legal column has a legal move. */
  lemma HasMoves(g: Position, c: int)
    requires Legal(g, c)
    ensures LegalMoves(g) != []
  {
    LegalMovesFromMembers(g, 0);
  }

  lemma LegalIndices(s: seq<real>, g: Position)
    requires |s| == Cols
    ensures Indices(s, LegalMoves(g))
  {
    MovesLegal(g);
  }

  lemma {:induction false} SumFromSupported(p: seq<real>, g: Position, col: nat)
    requires SupportedOn(p, g) && col <= Cols
    ensures Indices(p, LegalMovesFrom(g, col))
    ensures Sum(p[col..]) == SumAt(p, LegalMovesFrom(g, col))
    decreases Cols - col
  {
    LegalMovesFromMembers(g, col);
    if col < Cols {
      SumFromSupported(p, g, col + 1);
      SumHead(p, col);
      SumAtHead(p, g, col);
    }
  }

  lemma SumHead(p: seq<real>, col: nat)
    requires col < |p|
    ensures Sum(p[col..]) == p[col] + Sum(p[col + 1..])
  {
    assert p[col..] == [p[col]] + p[col + 1..];
    SumAppend([p[col]], p[col + 1..]);
    assert Sum([p[col]]) == p[col] by {
      assert [p[col]][..0] == [];
    }
  }

  lemma SumAtHead(p: seq<real>, g: Position, col: nat)
    requires SupportedOn(p, g) && col < Cols && Indices(p, LegalMovesFrom(g, col + 1))
    ensures Indices(p, LegalMovesFrom(g, col))
    ensures SumAt(p, LegalMovesFrom(g, col)) == p[col] + SumAt(p, LegalMovesFrom(g, col + 1))
  {
    var rest := LegalMovesFrom(g, col + 1);
    if Legal(g, col) {
      assert LegalMovesFrom(g, col) == [col] + rest;
      SumAtAppend(p, [col], rest);
      assert SumAt(p, [col]) == p[col] by {
        assert [col][..0] == [];
      }
    } else {
      assert LegalMovesFrom(g, col) == rest;
    }
  }

  /** A vector supported on the legal columns sums to its sum over the legal moves. */
  lemma SumOverLegal(p: seq<real>, g: Position)
    requires SupportedOn(p, g)
    ensures Indices(p, LegalMoves(g))
    ensures Sum(p) == SumAt(p, LegalMoves(g))
  {
    SumFromSupported(p, g, 0);
    assert p[0..] == p;
  }

  /** The vector that divides each legal column's raw entry by total and is 0 elsewhere. */
  function Divided(raw: seq<real>, g: Position, total: real): (p: seq<real>)
    requires |raw| == Cols && total != 0.0
    ensures SupportedOn(p, g)
  {
    seq(Cols, c requires 0 <= c < Cols => if Legal(g, c) then raw[c] / total else 0.0)
  }

  /** The vector that gives each legal column 1/|moves| and every other column 0. */
  function Uniform(g: Position): (p: seq<real>)
    requires LegalMoves(g) != []
    ensures SupportedOn(p, g)
  {
    seq(Cols, c requires 0 <= c < Cols => if Legal(g, c) then 1.0 / |LegalMoves(g)| as real else 0.0)
  }

  /** Dividing by the legal total gives a distribution. */
  lemma DividedSumsToOne(raw: seq<real>, g: Position, total: real)
    requires |raw| == Cols && Indices(raw, LegalMoves(g))
    requires total == SumAt(raw, LegalMoves(g)) && total != 0.0
    ensures Sum(Divided(raw, g, total)) == 1.0
  {
    var p := Divided(raw, g, total);
    var moves := LegalMoves(g);
    SumOverLegal(p, g);
    MovesLegal(g);
    assert forall k :: 0 <= k < |moves| ==> p[moves[k]] == raw[moves[k]] / total;
    SumAtScaled(raw, p, moves, total);
    Quotient(SumAt(raw, moves), total);
  }

  /** The uniform fallback is a distribution. */
  lemma UniformSumsToOne(g: Position)
    requires LegalMoves(g) != []
    ensures Sum(Uniform(g)) == 1.0
  {
    SumOverLegal(Uniform(g), g);
    UniformOverMoves(g);
  }

  lemma UniformOverMoves(g: Position)
    requires LegalMoves(g) != []
    ensures Indices(Uniform(g), LegalMoves(g))
    ensures SumAt(Uniform(g), LegalMoves(g)) == 1.0
  {
    var p := Uniform(g);
    var moves := LegalMoves(g);
    MovesLegal(g);
    assert forall k :: 0 <= k < |moves| ==> p[moves[k]] == 1.0 / |moves| as real;
    SumAtUniform(p, moves);
  }

  /** The smallest raw prior a network-scored column gets. */
  const PriorFloor: real := 0.01

  /** The column of the network output that scores board column col. */
  function NetworkColumn(col: int, mirrored: bool): int {
    if mirrored then MirrorColumn(col) else col
  }

  /** std::max(0.01, x) */
  function Floored(x: real): (r: real)
    ensures r >= PriorFloor && (r == x || r == PriorFloor)
  {
    if PriorFloor < x then x else PriorFloor
  }

  /** The prior the network gives board column col: its output for the column the network
      sees (the mirror image when the input was mirrored), at least PriorFloor, or nothing
      (0) when the output has no such entry. */
  function NetworkPrior(output: seq<real>, mirrored: bool, col: int): (r: real)
    ensures r == 0.0 || r >= PriorFloor
    ensures 0 <= NetworkColumn(col, mirrored) < |output| <==> r >= PriorFloor
  {
    var actual := NetworkColumn(col, mirrored);
    if 0 <= actual < |output| then Floored(output[actual]) else 0.0
  }

  /** The all-zero prior vector both evaluators start from. */
  function NoPriors(): seq<real> {
    seq(Cols, _ => 0.0)
  }

  /** Without a legal move, priors supported on the legal columns are all zero. */
  lemma SupportedNoMoves(p: seq<real>, g: Position)
    requires SupportedOn(p, g) && LegalMoves(g) == []
    ensures p == NoPriors()
  {
    forall c | 0 <= c < Cols
      ensures p[c] == 0.0
    {
      if Legal(g, c) {
        HasMoves(g, c);
      }
    }
  }

  /** base after a loop over the first i moves that sets entry col to p[col]. */
  function Filled(base: seq<real>, moves: seq<int>, p: seq<real>, i: nat): (q: seq<real>)
    requires |base| == Cols && |p| == Cols && i <= |moves|
    requires forall k :: 0 <= k < |moves| ==> 0 <= moves[k] < Cols
    ensures |q| == Cols
  {
    if i == 0 then base
    else Filled(base, moves, p, i - 1)[moves[i - 1] := p[moves[i - 1]]]
  }

  lemma {:induction false} FilledSpec(base: seq<real>, moves: seq<int>, p: seq<real>, i: nat)
    requires |base| == Cols && |p| == Cols && i <= |moves|
    requires forall k :: 0 <= k < |moves| ==> 0 <= moves[k] < Cols
    ensures forall c :: 0 <= c < Cols ==>
      Filled(base, moves, p, i)[c] == if c in moves[..i] then p[c] else base[c]
  {
    if i > 0 {
      FilledSpec(base, moves, p, i - 1);
      assert moves[..i] == moves[..i - 1] + [moves[i - 1]];
    }
  }

  /** Filling every legal move from a vector supported on the legal columns rebuilds it. */
  lemma FilledLegal(base: seq<real>, p: seq<real>, g: Position)
    requires SupportedOn(base, g) && SupportedOn(p, g)
    ensures forall k :: 0 <= k < |LegalMoves(g)| ==> 0 <= LegalMoves(g)[k] < Cols
    ensures Filled(base, LegalMoves(g), p, |LegalMoves(g)|) == p
  {
    var moves := LegalMoves(g);
    MovesLegal(g);
    var q := Filled(base, moves, p, |moves|);
    FilledSpec(base, moves, p, |moves|);
    assert moves[..|moves|] == moves;
    forall c | 0 <= c < Cols
      ensures q[c] == p[c]
    {
      LegalMovesFromMembers(g, 0);
    }
  }

  /** No move is listed twice. */
  predicate Distinct(moves: seq<int>) {
    forall i :: 0 <= i < |moves| ==> moves[i] !in moves[..i]
  }

  /** No legal move is listed twice. */
  lemma MovesDistinct(g: Position)
    ensures Distinct(LegalMoves(g))
  {
    LegalMovesFromSorted(g, 0);
  }

  /** An entry the loop has not reached yet still holds its base value. */
  lemma FilledNotYet(base: seq<real>, moves: seq<int>, p: seq<real>, i: nat)
    requires |base| == Cols && |p| == Cols && i < |moves| && Distinct(moves)
    requires forall k :: 0 <= k < |moves| ==> 0 <= moves[k] < Cols
    ensures Filled(base, moves, p, i)[moves[i]] == base[moves[i]]
  {
    FilledSpec(base, moves, p, i);
  }

  /** One iteration of a fill loop over distinct moves: writing p's entry extends it, and
      so does skipping an entry that already holds it. */
  lemma FilledStepOf(base: seq<real>, moves: seq<int>, p: seq<real>, i: nat, priors: seq<real>)
    requires |base| == Cols && |p| == Cols && i < |moves| && Distinct(moves)
    requires forall k :: 0 <= k < |moves| ==> 0 <= moves[k] < Cols
    requires priors == Filled(base, moves, p, i)
    ensures priors[moves[i]] == base[moves[i]]
    ensures priors[moves[i] := p[moves[i]]] == Filled(base, moves, p, i + 1)
    ensures p[moves[i]] == base[moves[i]] ==> priors == Filled(base, moves, p, i + 1)
  {
    var col := moves[i];
    FilledNotYet(base, moves, p, i);
    if p[col] == base[col] {
      assert priors[col := p[col]] == priors;
    }
  }

  /** FilledStepOf for the legal moves of g. */
  lemma FilledStep(base: seq<real>, g: Position, p: seq<real>, i: nat, priors: seq<real>)
    requires |base| == Cols && |p| == Cols && i < |LegalMoves(g)|
    requires forall k :: 0 <= k < |LegalMoves(g)| ==> 0 <= LegalMoves(g)[k] < Cols
    requires priors == Filled(base, LegalMoves(g), p, i)
    ensures priors[LegalMoves(g)[i]] == base[LegalMoves(g)[i]]
    ensures priors[LegalMoves(g)[i] := p[LegalMoves(g)[i]]] == Filled(base, LegalMoves(g), p, i + 1)
    ensures p[LegalMoves(g)[i]] == base[LegalMoves(g)[i]] ==> priors == Filled(base, LegalMoves(g), p, i + 1)
  {
    MovesDistinct(g);
    FilledStepOf(base, LegalMoves(g), p, i, priors);
  }


  /** A loop over the legal moves that sets priors[col] := raw[col] / total on base. */
  method DivideLoop(ghost g: Position, validMoves: seq<int>, base: seq<real>, raw: seq<real>, total: real)
    returns (priors: seq<real>)
    requires validMoves == LegalMoves(g) && SupportedOn(base, g) && |raw| == Cols && total != 0.0
    ensures priors == Divided(raw, g, total)
  {
    FilledLegal(base, Divided(raw, g, total), g);
    MovesLegal(g);
    priors := base;
    for i := 0 to |validMoves|
      invariant priors == Filled(base, validMoves, Divided(raw, g, total), i)
    {
      var col := validMoves[i];
      priors := priors[col := raw[col] / total];
    }
  }

  /** A loop over the legal moves that sets priors[col] := 1/|moves| on base. */
  method UniformLoop(ghost g: Position, validMoves: seq<int>, base: seq<real>)
    returns (priors: seq<real>)
    requires validMoves == LegalMoves(g) != [] && SupportedOn(base, g)
    ensures priors == Uniform(g)
  {
    FilledLegal(base, Uniform(g), g);
    MovesLegal(g);
    var uniform := 1.0 / |validMoves| as real;
    priors := base;
    for i := 0 to |validMoves|
      invariant priors == Filled(base, validMoves, Uniform(g), i)
    {
      var col := validMoves[i];
      priors := priors[col := uniform];
    }
  }
}
