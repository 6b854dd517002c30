/** The policy half of MCTS::EvaluatePosition (ConnectFour/mcts.cpp): the network's
    output, un-mirrored and floored at PriorFloor, on every legal column it covers, then
    divided by its total, or 1/|moves| on every legal column when the total is not
    positive.  Unlike NeuralEvaluator, no column is singled out as a win or a block.

    The network is the parameter predict; the value estimate EvaluatePosition derives
    from the priors is not modelled. */
module MctsPolicy {
  import opened GameBoard
  import opened Sums
  import opened Priors

  /** priors after the first loop of EvaluatePosition: each legal column's network prior. */
  function NetworkRaw(g: Position, output: seq<real>, mirrored: bool): (p: seq<real>)
    ensures SupportedOn(p, g)
  {
    seq(Cols, c requires 0 <= c < Cols => if Legal(g, c) then NetworkPrior(output, mirrored, c) else 0.0)
  }

  /** totalProb after the first loop. */
  function NetworkTotal(g: Position, output: seq<real>, mirrored: bool): real {
    var raw := NetworkRaw(g, output, mirrored);
    LegalIndices(raw, g);
    SumAt(raw, LegalMoves(g))
  }

  /** The priors EvaluatePosition returns for the network output and the mirroring flag:
      the raw priors over their total, or 1/|moves| on every legal column when the total is
      not positive.  The uniform loop writes nothing when there is no legal move. */
  function NetworkPriors(g: Position, output: seq<real>, mirrored: bool): (p: seq<real>)
    ensures SupportedOn(p, g)
  {
    var total := NetworkTotal(g, output, mirrored);
    if total > 0.0 then Divided(NetworkRaw(g, output, mirrored), g, total)
    else if LegalMoves(g) != [] then Uniform(g)
    else NoPriors()
  }

  lemma {:induction false} NetworkRawAt(g: Position, output: seq<real>, mirrored: bool, col: int)
    requires Legal(g, col)
    ensures NetworkRaw(g, output, mirrored)[col] == NetworkPrior(output, mirrored, col)
  {
  }

  /** A legal column with a network entry makes the total at least its floored output. */
  lemma {:induction false} NetworkTotalPositive(g: Position, output: seq<real>, mirrored: bool, col: int)
    requires Legal(g, col) && 0 <= NetworkColumn(col, mirrored) < |output|
    ensures NetworkTotal(g, output, mirrored) >= NetworkRaw(g, output, mirrored)[col] >= PriorFloor
  {
    var raw := NetworkRaw(g, output, mirrored);
    LegalIndices(raw, g);
    var j := LegalMoveIndex(g, col);
    SumAtAtLeast(raw, LegalMoves(g), j);
  }

  /** Without any network-scored legal column the total is zero. */
  lemma {:induction false} NetworkTotalZero(g: Position, output: seq<real>, mirrored: bool)
    requires forall c :: Legal(g, c) ==> !(0 <= NetworkColumn(c, mirrored) < |output|)
    ensures NetworkTotal(g, output, mirrored) == 0.0
  {
    var raw := NetworkRaw(g, output, mirrored);
    LegalIndices(raw, g);
    MovesLegal(g);
    assert forall k :: 0 <= k < |LegalMoves(g)| ==> raw[LegalMoves(g)[k]] == 0.0;
    SumAtConstant(raw, LegalMoves(g), 0.0);
  }

  /** The priors are all zero without a legal move, a distribution otherwise, and uniform
      when no legal column has a network entry. */
  lemma {:induction false} NetworkPriorsDistribution(g: Position, output: seq<real>, mirrored: bool)
    ensures LegalMoves(g) == [] ==> NetworkPriors(g, output, mirrored) == NoPriors()
    ensures LegalMoves(g) != [] ==> Sum(NetworkPriors(g, output, mirrored)) == 1.0
    ensures (forall c :: Legal(g, c) ==> !(0 <= NetworkColumn(c, mirrored) < |output|)) && LegalMoves(g) != [] ==>
      NetworkPriors(g, output, mirrored) == Uniform(g)
  {
    var raw := NetworkRaw(g, output, mirrored);
    var total := NetworkTotal(g, output, mirrored);
    LegalIndices(raw, g);
    if LegalMoves(g) == [] {
      assert total == 0.0;
    } else if total > 0.0 {
      DividedSumsToOne(raw, g, total);
    } else {
      UniformSumsToOne(g);
    }
    if forall c :: Legal(g, c) ==> !(0 <= NetworkColumn(c, mirrored) < |output|) {
      NetworkTotalZero(g, output, mirrored);
    }
  }

  /** A legal column with a network entry gets its floored output over the total. */
  lemma {:induction false} NetworkPriorsAt(g: Position, output: seq<real>, mirrored: bool, col: int)
    requires Legal(g, col) && 0 <= NetworkColumn(col, mirrored) < |output|
    ensures NetworkTotal(g, output, mirrored) > 0.0
    ensures NetworkPriors(g, output, mirrored)[col] ==
      Floored(output[NetworkColumn(col, mirrored)]) / NetworkTotal(g, output, mirrored)
  {
    NetworkTotalPositive(g, output, mirrored, col);
    NetworkRawAt(g, output, mirrored, col);
  }

  /** With a network output for every column, every legal column gets a positive prior. */
  lemma {:induction false} NetworkPriorsPositive(g: Position, output: seq<real>, mirrored: bool, col: int)
    requires Legal(g, col) && |output| >= Cols
    ensures NetworkPriors(g, output, mirrored)[col] > 0.0
  {
    MirrorColumnRange(col, mirrored);
    NetworkPriorsAt(g, output, mirrored, col);
    PositiveQuotient(Floored(output[NetworkColumn(col, mirrored)]), NetworkTotal(g, output, mirrored));
  }

  lemma MirrorColumnRange(col: int, mirrored: bool)
    requires 0 <= col < Cols
    ensures 0 <= NetworkColumn(col, mirrored) < Cols
  {
  }

  lemma PositiveQuotient(a: real, d: real)
    requires a > 0.0 && d > 0.0
    ensures a / d > 0.0
  {
  }

  /** One iteration of the first loop of EvaluatePosition. */
  lemma {:induction false} NetworkStep(g: Position, output: seq<real>, mirrored: bool, raw: seq<real>,
                                       i: nat, col: int, actual: int, priors: seq<real>, total: real)
    requires raw == NetworkRaw(g, output, mirrored)
    requires i < |LegalMoves(g)| && col == LegalMoves(g)[i] && actual == NetworkColumn(col, mirrored)
    requires forall k :: 0 <= k < |LegalMoves(g)| ==> Legal(g, LegalMoves(g)[k])
    requires Indices(raw, LegalMoves(g))
    requires priors == Filled(NoPriors(), LegalMoves(g), raw, i)
    requires total == SumAt(raw, LegalMoves(g)[..i])
    ensures 0 <= actual < |output| ==>
      priors[col := Floored(output[actual])] == Filled(NoPriors(), LegalMoves(g), raw, i + 1) &&
      total + Floored(output[actual]) == SumAt(raw, LegalMoves(g)[..i + 1])
    ensures !(0 <= actual < |output|) ==>
      priors == Filled(NoPriors(), LegalMoves(g), raw, i + 1) &&
      total == SumAt(raw, LegalMoves(g)[..i + 1])
  {
    FilledStep(NoPriors(), g, raw, i, priors);
    NetworkRawAt(g, output, mirrored, col);
    SumAtStep(raw, LegalMoves(g), i);
  }

  /** The first loop of EvaluatePosition. */
  method NetworkLoop(ghost g: Position, validMoves: seq<int>, output: seq<real>, wasMirrored: bool)
    returns (priors: seq<real>, totalProb: real)
    requires validMoves == LegalMoves(g)
    ensures priors == NetworkRaw(g, output, wasMirrored)
    ensures totalProb == NetworkTotal(g, output, wasMirrored)
  {
    ghost var raw := NetworkRaw(g, output, wasMirrored);
    MovesLegal(g);
    LegalIndices(raw, g);
    priors := NoPriors();
    totalProb := 0.0;
    for i := 0 to |validMoves|
      invariant priors == Filled(NoPriors(), validMoves, raw, i)
      invariant totalProb == SumAt(raw, validMoves[..i])
    {
      var col := validMoves[i];
      var actualCol := if wasMirrored then MirrorColumn(col) else col;
      NetworkStep(g, output, wasMirrored, raw, i, col, actualCol, priors, totalProb);
      if 0 <= actualCol < |output| {
        priors := priors[col := Floored(output[actualCol])];
        totalProb := totalProb + priors[col];
      }
    }
    FilledLegal(NoPriors(), raw, g);
    assert validMoves[..|validMoves|] == validMoves;
  }

  /** MCTS::EvaluatePosition up to its value estimate: the network's Predict is predict. */
  method EvaluatePriors(board: Board, player: Player, predict: seq<real> -> seq<real>)
    returns (priors: seq<real>)
    requires board.Valid()
    ensures var (input, mirrored) := Normalized(board.Value(), player);
      priors == NetworkPriors(board.Value(), predict(input), mirrored)
  {
    var input, wasMirrored := board.GetNormalizedInput(player);
    var output := predict(input);
    var validMoves := board.GetValidMoves();
    ghost var g := board.Value();
    assert (input, wasMirrored) == Normalized(g, player) && validMoves == LegalMoves(g);
    var totalProb;
    priors, totalProb := NetworkLoop(g, validMoves, output, wasMirrored);
    ghost var target := NetworkPriors(g, output, wasMirrored);
    if totalProb > 0.0 {
      priors := DivideLoop(g, validMoves, priors, priors, totalProb);
      assert priors == target;
    } else if |validMoves| > 0 {
      priors := UniformLoop(g, validMoves, priors);
      assert priors == target;
    } else {
      SupportedNoMoves(priors, g);
    }
  }
}
