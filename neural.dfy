/** NeuralEvaluator of ConnectFour/neural_evaluator.cpp: priors from a network's policy
    output, corrected by the immediate wins and blocks of the position, and a value of 0.

    The network is the parameter predict: the model says which input it is given (the
    normalised encoding of Board.GetNormalizedInput) and what is done with its output, not
    what the output is.  The output may have any length and any entries. */
module Neural {
  import opened GameBoard
  import opened Sums
  import opened Priors
  import opened Heuristic

  const WinPrior: real := 100.0
  const BlockPrior: real := 50.0

  /** The raw prior the first loop writes for a legal column: 100 for a winning move,
      else 50 for a move the opponent would win with, else nothing (0). */
  function Critical(g: Position, player: Player, col: int): real
    requires Legal(g, col)
  {
    var k := MoveClass(g, player, col);
    if k == 2 then WinPrior else if k == 1 then BlockPrior else 0.0
  }

  /** priors after the first loop. */
  function CriticalPriors(g: Position, player: Player): (p: seq<real>)
    ensures SupportedOn(p, g)
  {
    seq(Cols, c requires 0 <= c < Cols => if Legal(g, c) then Critical(g, player, c) else 0.0)
  }

  /** The raw prior of a legal column after the second loop. */
  function RawPrior(g: Position, player: Player, output: seq<real>, mirrored: bool, col: int): real
    requires Legal(g, col)
  {
    var k := Critical(g, player, col);
    if k > 0.0 then k else NetworkPrior(output, mirrored, col)
  }

  /** priors after the second loop. */
  function RawPriors(g: Position, player: Player, output: seq<real>, mirrored: bool): (p: seq<real>)
    ensures SupportedOn(p, g)
  {
    seq(Cols, c requires 0 <= c < Cols => if Legal(g, c) then RawPrior(g, player, output, mirrored, c) else 0.0)
  }

  /** totalProb after the second loop. */
  function RawTotal(g: Position, player: Player, output: seq<real>, mirrored: bool): real {
    var raw := RawPriors(g, player, output, mirrored);
    LegalIndices(raw, g);
    SumAt(raw, LegalMoves(g))
  }

  /** The priors Evaluate returns for the network output and the mirroring flag. */
  function NeuralPriors(g: Position, player: Player, output: seq<real>, mirrored: bool): (p: seq<real>)
    ensures SupportedOn(p, g)
  {
    var raw := RawPriors(g, player, output, mirrored);
    var total := RawTotal(g, player, output, mirrored);
    if LegalMoves(g) == [] then NoPriors()
    else if total > 0.0 then Divided(raw, g, total)
    else Uniform(g)
  }

  /** The raw prior of each kind of legal column. */
  lemma RawPriorCases(g: Position, player: Player, output: seq<real>, mirrored: bool, col: int)
    requires Legal(g, col)
    ensures MoveClass(g, player, col) == 2 ==> RawPrior(g, player, output, mirrored, col) == WinPrior
    ensures MoveClass(g, player, col) == 1 ==> RawPrior(g, player, output, mirrored, col) == BlockPrior
    ensures MoveClass(g, player, col) == 0 && 0 <= NetworkColumn(col, mirrored) < |output| ==>
      RawPrior(g, player, output, mirrored, col) == Floored(output[NetworkColumn(col, mirrored)])
    ensures MoveClass(g, player, col) == 0 && !(0 <= NetworkColumn(col, mirrored) < |output|) ==>
      RawPrior(g, player, output, mirrored, col) == 0.0
    ensures RawPrior(g, player, output, mirrored, col) >= 0.0
  {
  }

  /** A full-length output scores every legal column. */
  lemma RawPriorPositive(g: Position, player: Player, output: seq<real>, mirrored: bool, col: int)
    requires Legal(g, col) && |output| >= Cols
    ensures RawPrior(g, player, output, mirrored, col) >= PriorFloor
  {
    RawPriorCases(g, player, output, mirrored, col);
  }

  lemma RawAt(g: Position, player: Player, output: seq<real>, mirrored: bool, col: int)
    requires Legal(g, col)
    ensures RawPriors(g, player, output, mirrored)[col] == RawPrior(g, player, output, mirrored, col)
    ensures CriticalPriors(g, player)[col] == Critical(g, player, col)
  {
  }

  /** With a full-length output the raw total over a non-empty move list is positive. */
  lemma RawTotalPositive(g: Position, player: Player, output: seq<real>, mirrored: bool)
    requires LegalMoves(g) != [] && |output| >= Cols
    ensures RawTotal(g, player, output, mirrored) > 0.0
  {
    var raw := RawPriors(g, player, output, mirrored);
    var moves := LegalMoves(g);
    LegalIndices(raw, g);
    MovesLegal(g);
    forall k | 0 <= k < |moves|
      ensures raw[moves[k]] > 0.0
    {
      RawAt(g, player, output, mirrored, moves[k]);
      RawPriorPositive(g, player, output, mirrored, moves[k]);
    }
    SumAtPositive(raw, moves);
  }

  /** The priors are zero off the legal columns, all zero without a legal move, and a
      distribution otherwise. */
  lemma NeuralPriorsDistribution(g: Position, player: Player, output: seq<real>, mirrored: bool)
    ensures SupportedOn(NeuralPriors(g, player, output, mirrored), g)
    ensures LegalMoves(g) == [] ==> forall c :: 0 <= c < Cols ==> NeuralPriors(g, player, output, mirrored)[c] == 0.0
    ensures LegalMoves(g) != [] ==> Sum(NeuralPriors(g, player, output, mirrored)) == 1.0
  {
    var raw := RawPriors(g, player, output, mirrored);
    var total := RawTotal(g, player, output, mirrored);
    if LegalMoves(g) != [] {
      if total > 0.0 {
        LegalIndices(raw, g);
        DividedSumsToOne(raw, g, total);
      } else {
        UniformSumsToOne(g);
      }
    }
  }

  /** With a network output for every column, every legal column gets a positive prior. */
  lemma NeuralPriorsPositive(g: Position, player: Player, output: seq<real>, mirrored: bool, col: int)
    requires Legal(g, col) && |output| >= Cols
    ensures NeuralPriors(g, player, output, mirrored)[col] > 0.0
  {
    HasMoves(g, col);
    RawTotalPositive(g, player, output, mirrored);
    RawAt(g, player, output, mirrored, col);
    RawPriorPositive(g, player, output, mirrored, col);
    QuotientPositive(RawPriors(g, player, output, mirrored)[col], RawTotal(g, player, output, mirrored));
  }

  // ---------------------------------------------------------------------------
  // NeuralEvaluator::Evaluate
  // ---------------------------------------------------------------------------

  /** The body of the first loop for one legal column. */
  method CriticalValue(board: Board, col: int, player: Player) returns (v: real)
    requires board.Valid() && Legal(board.Value(), col)
    ensures v == Critical(board.Value(), player, col)
  {
    var testBoard := new Board.Copy(board);
    var ok := testBoard.MakeMove(col, player);
    var winner := testBoard.CheckWinner();
    if winner == player {
      return WinPrior;
    }
    var opponentTest := new Board.Copy(board);
    ok := opponentTest.MakeMove(col, Opponent(player));
    winner := opponentTest.CheckWinner();
    if winner == Opponent(player) {
      return BlockPrior;
    }
    return 0.0;
  }

  lemma CriticalAt(g: Position, player: Player, col: int)
    requires Legal(g, col)
    ensures CriticalPriors(g, player)[col] == Critical(g, player, col) >= 0.0
  {
  }

  /** The first loop: 100 or 50 on the critical columns, 0 everywhere else. */
  method CriticalLoop(board: Board, validMoves: seq<int>, player: Player) returns (priors: seq<real>)
    requires board.Valid() && validMoves == LegalMoves(board.Value())
    ensures priors == CriticalPriors(board.Value(), player)
  {
    ghost var g := board.Value();
    ghost var crit := CriticalPriors(g, player);
    FilledLegal(NoPriors(), crit, g);
    MovesLegal(g);
    priors := NoPriors();
    for i := 0 to |validMoves|
      invariant priors == Filled(NoPriors(), validMoves, crit, i)
    {
      var col := validMoves[i];
      var v := CriticalValue(board, col, player);
      CriticalAt(g, player, col);
      FilledStep(NoPriors(), g, crit, i, priors);
      if v > 0.0 {
        priors := priors[col := v];
      }
    }
  }

  /** The entry the second loop reads at a legal column: a non-negative critical prior,
      which the raw prior keeps when it is positive and the network prior replaces
      otherwise. */
  lemma RawEntry(g: Position, player: Player, output: seq<real>, mirrored: bool, crit: seq<real>, raw: seq<real>, col: int)
    requires crit == CriticalPriors(g, player) && raw == RawPriors(g, player, output, mirrored) && Legal(g, col)
    ensures Entry(crit, raw, output, mirrored, col)
  {
    RawAt(g, player, output, mirrored, col);
  }

  /** One iteration of the second loop, for the critical priors crit and the raw priors
      raw: each branch leaves the loop's two specifications one step further on. */
  lemma RawStep(moves: seq<int>, output: seq<real>, mirrored: bool, crit: seq<real>,
                raw: seq<real>, i: nat, col: int, priors: seq<real>, total: real)
    requires |crit| == Cols && |raw| == Cols && Distinct(moves)
    requires i < |moves| && col == moves[i]
    requires forall k :: 0 <= k < |moves| ==> 0 <= moves[k] < Cols
    requires Indices(raw, moves)
    requires Entry(crit, raw, output, mirrored, col)
    requires priors == Filled(crit, moves, raw, i)
    requires total == SumAt(raw, moves[..i])
    ensures Indices(raw, moves[..i + 1])
    ensures priors[col] > 0.0 ==>
      priors == Filled(crit, moves, raw, i + 1) &&
      total + priors[col] == SumAt(raw, moves[..i + 1])
    ensures priors[col] <= 0.0 && 0 <= NetworkColumn(col, mirrored) < |output| ==>
      priors[col := Floored(output[NetworkColumn(col, mirrored)])] == Filled(crit, moves, raw, i + 1) &&
      total + Floored(output[NetworkColumn(col, mirrored)]) == SumAt(raw, moves[..i + 1])
    ensures priors[col] <= 0.0 && !(0 <= NetworkColumn(col, mirrored) < |output|) ==>
      priors == Filled(crit, moves, raw, i + 1) &&
      total == SumAt(raw, moves[..i + 1])
  {
    FilledStepOf(crit, moves, raw, i, priors);
    SumAtStep(raw, moves, i);
  }

  /** The entries of every legal move, as RawEntry states them for one. */
  lemma RawEntries(g: Position, player: Player, output: seq<real>, mirrored: bool, crit: seq<real>, raw: seq<real>)
    requires crit == CriticalPriors(g, player) && raw == RawPriors(g, player, output, mirrored)
    ensures |crit| == Cols && |raw| == Cols && Distinct(LegalMoves(g))
    ensures forall k :: 0 <= k < |LegalMoves(g)| ==> 0 <= LegalMoves(g)[k] < Cols
    ensures Indices(raw, LegalMoves(g))
    ensures forall k :: 0 <= k < |LegalMoves(g)| ==> Entry(crit, raw, output, mirrored, LegalMoves(g)[k])
    ensures Filled(crit, LegalMoves(g), raw, |LegalMoves(g)|) == raw
    ensures RawTotal(g, player, output, mirrored) == SumAt(raw, LegalMoves(g))
  {
    var moves := LegalMoves(g);
    MovesLegal(g);
    MovesDistinct(g);
    LegalIndices(raw, g);
    FilledLegal(crit, raw, g);
    forall k | 0 <= k < |moves|
      ensures Entry(crit, raw, output, mirrored, moves[k])
    {
      RawEntry(g, player, output, mirrored, crit, raw, moves[k]);
    }
  }

  /** The second loop reads the critical prior of col and, where it is not positive,
      writes the network prior instead. */
  predicate Entry(crit: seq<real>, raw: seq<real>, output: seq<real>, mirrored: bool, col: int)
    requires |crit| == Cols && |raw| == Cols && 0 <= col < Cols
  {
    crit[col] >= 0.0 && raw[col] == if crit[col] > 0.0 then crit[col] else NetworkPrior(output, mirrored, col)
  }

  /** The second loop over the legal moves of g, from the critical priors crit towards the
      raw priors raw. */
  method RawFill(validMoves: seq<int>, critical: seq<real>, ghost raw: seq<real>,
                 output: seq<real>, wasMirrored: bool)
    returns (priors: seq<real>, totalProb: real)
    requires Distinct(validMoves) && |critical| == Cols && |raw| == Cols
    requires forall k :: 0 <= k < |validMoves| ==> 0 <= validMoves[k] < Cols
    requires Indices(raw, validMoves)
    requires forall k :: 0 <= k < |validMoves| ==> Entry(critical, raw, output, wasMirrored, validMoves[k])
    ensures priors == Filled(critical, validMoves, raw, |validMoves|)
    ensures totalProb == SumAt(raw, validMoves)
  {
    priors := critical;
    totalProb := 0.0;
    for i := 0 to |validMoves|
      invariant priors == Filled(critical, validMoves, raw, i)
      invariant totalProb == SumAt(raw, validMoves[..i])
    {
      priors, totalProb := RawIteration(validMoves, critical, raw, output, wasMirrored, i, priors, totalProb);
    }
    assert validMoves[..|validMoves|] == validMoves;
  }

  /** The body of the second loop for the i-th legal move. */
  method RawIteration(validMoves: seq<int>, ghost crit: seq<real>, ghost raw: seq<real>,
                      output: seq<real>, wasMirrored: bool, i: nat, priors: seq<real>, totalProb: real)
    returns (priors': seq<real>, totalProb': real)
    requires Distinct(validMoves) && |crit| == Cols && |raw| == Cols && i < |validMoves|
    requires forall k :: 0 <= k < |validMoves| ==> 0 <= validMoves[k] < Cols
    requires Indices(raw, validMoves)
    requires Entry(crit, raw, output, wasMirrored, validMoves[i])
    requires priors == Filled(crit, validMoves, raw, i)
    requires totalProb == SumAt(raw, validMoves[..i])
    ensures Indices(raw, validMoves[..i + 1])
    ensures priors' == Filled(crit, validMoves, raw, i + 1)
    ensures totalProb' == SumAt(raw, validMoves[..i + 1])
  {
    var col := validMoves[i];
    RawStep(validMoves, output, wasMirrored, crit, raw, i, col, priors, totalProb);
    priors', totalProb' := priors, totalProb;
    if priors'[col] > 0.0 {
      totalProb' := totalProb' + priors'[col];
    } else {
      var actualCol := if wasMirrored then MirrorColumn(col) else col;
      if 0 <= actualCol < |output| {
        priors' := priors'[col := Floored(output[actualCol])];
        totalProb' := totalProb' + priors'[col];
      }
    }
  }

  /** The second loop: keep the critical priors and let the network score the rest. */
  method RawLoop(ghost g: Position, ghost player: Player, validMoves: seq<int>, critical: seq<real>,
                 output: seq<real>, wasMirrored: bool)
    returns (priors: seq<real>, totalProb: real)
    requires validMoves == LegalMoves(g) && critical == CriticalPriors(g, player)
    ensures priors == RawPriors(g, player, output, wasMirrored)
    ensures totalProb == RawTotal(g, player, output, wasMirrored)
  {
    ghost var raw := RawPriors(g, player, output, wasMirrored);
    RawEntries(g, player, output, wasMirrored, critical, raw);
    priors, totalProb := RawFill(validMoves, critical, raw, output, wasMirrored);
  }

  /** Without a legal move the second loop leaves the priors at zero. */
  lemma NoMovesNoPriors(g: Position, player: Player, output: seq<real>, mirrored: bool)
    requires LegalMoves(g) == []
    ensures RawPriors(g, player, output, mirrored) == NoPriors()
  {
    LegalMovesFromMembers(g, 0);
  }

  /** NeuralEvaluator::Evaluate with the network's Predict as predict. */
  method Evaluate(board: Board, player: Player, predict: seq<real> -> seq<real>)
    returns (priors: seq<real>, value: real)
    requires board.Valid()
    ensures var (input, mirrored) := Normalized(board.Value(), player);
      priors == NeuralPriors(board.Value(), player, predict(input), mirrored)
    ensures value == 0.0
  {
    var input, wasMirrored := board.GetNormalizedInput(player);
    var output := predict(input);
    var validMoves := board.GetValidMoves();
    priors := CriticalLoop(board, validMoves, player);
    var totalProb;
    priors, totalProb := RawLoop(board.Value(), player, validMoves, priors, output, wasMirrored);
    if totalProb > 0.0 {
      priors := DivideLoop(board.Value(), validMoves, priors, priors, totalProb);
    } else if |validMoves| > 0 {
      priors := UniformLoop(board.Value(), validMoves, priors);
    } else {
      NoMovesNoPriors(board.Value(), player, output, wasMirrored);
    }
    value := 0.0;
  }
}
