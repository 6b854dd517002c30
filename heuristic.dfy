/** HeuristicEvaluator of ConnectFour/heuristic_evaluator.cpp: the evaluator MCTS uses
    without a network.

    Evaluate scores every legal column (1e6 for a move that wins at once, else 1e5 for a move
    that takes the opponent's winning square, else the threat heuristic of the board after the
    move), leaves the other columns at -1e9, rescales all seven scores to [0, 1] by their
    minimum and maximum, and turns the legal ones into priors through exp.  The exponential
    and tanh are parameters: the model says which numbers go into them, not what they return.
    CountThreats and EvaluatePosition of this file are the same code as MinimaxAI's and are the
    members Threats.CountThreats and Threats.EvaluatePosition. */
module Heuristic {
  import opened GameBoard
  import opened Threats
  import opened Sums
  import opened Priors

  /** The score every column starts with; only legal columns are overwritten. */
  const Unscored: int := -1_000_000_000
  const WinningMove: int := 1_000_000
  const BlockingMove: int := 100_000

  /** The class of a legal column: 2 when playing it wins at once, else 1 when the opponent
      would win by playing it, else 0. */
  function MoveClass(g: Position, player: Player, col: int): nat
    requires Legal(g, col)
  {
    if Winner(Play(g, col, player)) == player then 2
    else if Winner(Play(g, col, Opponent(player))) == Opponent(player) then 1
    else 0
  }

  /** The score the first loop of Evaluate gives a legal column. */
  function MoveScore(g: Position, player: Player, col: int): int
    requires Legal(g, col)
  {
    var k := MoveClass(g, player, col);
    if k == 2 then WinningMove
    else if k == 1 then BlockingMove
    else PositionScore(Play(g, col, player), player)
  }

  /** What the score of each class of legal column is. */
  lemma MoveScoreOfClass(g: Position, player: Player, col: int)
    requires Legal(g, col)
    ensures MoveClass(g, player, col) == 2 ==> MoveScore(g, player, col) == WinningMove
    ensures MoveClass(g, player, col) == 1 ==> MoveScore(g, player, col) == BlockingMove
    ensures MoveClass(g, player, col) == 0 ==> -7608 <= MoveScore(g, player, col) <= 7608
  {
    PositionScoreBound(Play(g, col, player), player);
  }

  /** Winning columns outscore blocking columns, which outscore positional ones, and every
      legal column outscores the -1e9 of the columns that were never scored. */
  lemma MoveScoreRanks(g: Position, player: Player, a: int, b: int)
    requires Legal(g, a) && Legal(g, b)
    ensures MoveClass(g, player, a) > MoveClass(g, player, b) ==> MoveScore(g, player, a) > MoveScore(g, player, b)
    ensures MoveClass(g, player, a) == MoveClass(g, player, b) > 0 ==> MoveScore(g, player, a) == MoveScore(g, player, b)
    ensures MoveScore(g, player, a) > Unscored
  {
    MoveScoreOfClass(g, player, a);
    MoveScoreOfClass(g, player, b);
  }

  function ScoreAt(g: Position, player: Player, col: int): int {
    if Legal(g, col) then MoveScore(g, player, col) else Unscored
  }

  /** moveScores after the scoring loop. */
  function MoveScores(g: Position, player: Player): (s: seq<int>)
    ensures |s| == Cols
  {
    seq(Cols, c => ScoreAt(g, player, c))
  }

  /** std::min_element: the first smallest entry. */
  function MinElement(s: seq<int>): int
    requires s != []
  {
    if |s| == 1 then s[0]
    else
      var rest := MinElement(s[1..]);
      if s[0] <= rest then s[0] else rest
  }

  lemma {:induction false} MinElementSpec(s: seq<int>)
    requires s != []
    ensures MinElement(s) in s && forall k :: 0 <= k < |s| ==> MinElement(s) <= s[k]
  {
    if |s| > 1 {
      MinElementSpec(s[1..]);
      assert forall k :: 1 <= k < |s| ==> s[k] == s[1..][k - 1];
    }
  }

  /** std::max_element: the first largest entry. */
  function MaxElement(s: seq<int>): int
    requires s != []
  {
    if |s| == 1 then s[0]
    else
      var rest := MaxElement(s[1..]);
      if rest <= s[0] then s[0] else rest
  }

  lemma {:induction false} MaxElementSpec(s: seq<int>)
    requires s != []
    ensures MaxElement(s) in s && forall k :: 0 <= k < |s| ==> s[k] <= MaxElement(s)
  {
    if |s| > 1 {
      MaxElementSpec(s[1..]);
      assert forall k :: 1 <= k < |s| ==> s[k] == s[1..][k - 1];
    }
  }

  lemma UnitQuotient(a: real, b: real)
    requires 0.0 <= a <= b && b > 0.0
    ensures 0.0 <= a / b <= 1.0
  {
  }

  lemma QuotientMonotone(a: real, b: real, d: real)
    requires a <= b && d > 0.0
    ensures a / d <= b / d
  {
  }

  /** The rescaling of x to [0, 1] by the bounds lo and hi; 0.5 when they agree. */
  function Scale(x: real, lo: real, hi: real): (r: real)
    requires lo <= x <= hi
    ensures 0.0 <= r <= 1.0
  {
    if hi > lo then
      UnitQuotient(x - lo, hi - lo);
      (x - lo) / (hi - lo)
    else 0.5
  }

  /** A score rescaled by the minimum and maximum of all seven scores. */
  function Rescaled(s: seq<int>, col: int): (x: real)
    requires s != [] && 0 <= col < |s|
    ensures 0.0 <= x <= 1.0
  {
    MinElementSpec(s);
    MaxElementSpec(s);
    Scale(s[col] as real, MinElement(s) as real, MaxElement(s) as real)
  }

  /** Scale keeps order and sends hi to 1. */
  lemma ScaleOrder(x: real, y: real, lo: real, hi: real)
    requires lo <= x <= hi && lo <= y <= hi
    ensures x <= y ==> Scale(x, lo, hi) <= Scale(y, lo, hi)
    ensures hi > lo && x == hi ==> Scale(x, lo, hi) == 1.0
  {
    if hi > lo {
      if x <= y {
        QuotientMonotone(x - lo, y - lo, hi - lo);
      }
      if x == hi {
        Quotient(x - lo, hi - lo);
      }
    }
  }

  /** Rescaling keeps the order of the scores, sends the largest to 1 and, when all scores
      agree, every column to 0.5. */
  lemma RescaledOrder(s: seq<int>, a: int, b: int)
    requires s != [] && 0 <= a < |s| && 0 <= b < |s|
    ensures s[a] <= s[b] ==> Rescaled(s, a) <= Rescaled(s, b)
    ensures s[a] == MaxElement(s) > MinElement(s) ==> Rescaled(s, a) == 1.0
    ensures MaxElement(s) == MinElement(s) ==> Rescaled(s, a) == 0.5
  {
    MinElementSpec(s);
    MaxElementSpec(s);
    ScaleOrder(s[a] as real, s[b] as real, MinElement(s) as real, MaxElement(s) as real);
  }

  /** A legal column's entry of MoveScores is its MoveScore. */
  lemma MoveScoresAt(g: Position, player: Player, c: int)
    requires Legal(g, c)
    ensures MoveScores(g, player)[c] == MoveScore(g, player, c)
  {
  }

  /** expScores after the second loop: exp(5 x) of each legal column's rescaled score. */
  function ExpScores(g: Position, s: seq<int>, exp: real -> real): (e: seq<real>)
    requires |s| == Cols
    ensures |e| == Cols
  {
    seq(Cols, c requires 0 <= c < Cols => if Legal(g, c) then exp(Rescaled(s, c) * 5.0) else 0.0)
  }

  lemma ExpScoresAt(g: Position, s: seq<int>, exp: real -> real, c: int, x: real)
    requires |s| == Cols && Legal(g, c) && x == Rescaled(s, c)
    ensures ExpScores(g, s, exp)[c] == exp(x * 5.0)
  {
  }

  /** sumExp: the total of expScores over the legal moves. */
  function SumExp(g: Position, s: seq<int>, exp: real -> real): real
    requires |s| == Cols
  {
    var e := ExpScores(g, s, exp);
    LegalIndices(e, g);
    SumAt(e, LegalMoves(g))
  }

  /** The priors Evaluate derives from the scores s. */
  function ScorePriors(g: Position, s: seq<int>, exp: real -> real): (p: seq<real>)
    requires |s| == Cols
    ensures SupportedOn(p, g)
  {
    if LegalMoves(g) == [] then NoPriors()
    else if SumExp(g, s, exp) > 0.0 then Divided(ExpScores(g, s, exp), g, SumExp(g, s, exp))
    else Uniform(g)
  }

  /** The priors Evaluate returns. */
  function HeuristicPriors(g: Position, player: Player, exp: real -> real): (p: seq<real>)
    ensures SupportedOn(p, g)
  {
    ScorePriors(g, MoveScores(g, player), exp)
  }

  /** A threat score squashed by tanh(score / 200). */
  function Squashed(score: int, tanh: real -> real): real {
    tanh(score as real / 200.0)
  }

  /** The value Evaluate returns: 0 without a legal move, else the squashed score of the board. */
  function HeuristicValue(g: Position, player: Player, tanh: real -> real): real {
    if LegalMoves(g) == [] then 0.0 else Squashed(PositionScore(g, player), tanh)
  }

  /** The priors are zero off the legal columns, all zero without a legal move, and a
      distribution otherwise. */
  lemma ScorePriorsDistribution(g: Position, s: seq<int>, exp: real -> real)
    requires |s| == Cols
    ensures LegalMoves(g) == [] ==> forall c :: 0 <= c < Cols ==> ScorePriors(g, s, exp)[c] == 0.0
    ensures LegalMoves(g) != [] ==> Sum(ScorePriors(g, s, exp)) == 1.0
  {
    if LegalMoves(g) != [] {
      if SumExp(g, s, exp) > 0.0 {
        LegalIndices(ExpScores(g, s, exp), g);
        DividedSumsToOne(ExpScores(g, s, exp), g, SumExp(g, s, exp));
      } else {
        UniformSumsToOne(g);
      }
    }
  }

  lemma HeuristicPriorsDistribution(g: Position, player: Player, exp: real -> real)
    ensures SupportedOn(HeuristicPriors(g, player, exp), g)
    ensures LegalMoves(g) == [] ==> forall c :: 0 <= c < Cols ==> HeuristicPriors(g, player, exp)[c] == 0.0
    ensures LegalMoves(g) != [] ==> Sum(HeuristicPriors(g, player, exp)) == 1.0
  {
    ScorePriorsDistribution(g, MoveScores(g, player), exp);
  }

  lemma ExpScoresPositive(g: Position, s: seq<int>, exp: real -> real)
    requires |s| == Cols && forall x :: exp(x) > 0.0
    ensures LegalMoves(g) != [] ==> SumExp(g, s, exp) > 0.0
  {
    var e := ExpScores(g, s, exp);
    var moves := LegalMoves(g);
    LegalIndices(e, g);
    MovesLegal(g);
    if moves != [] {
      assert forall k :: 0 <= k < |moves| ==> e[moves[k]] > 0.0;
      SumAtPositive(e, moves);
    }
  }

  lemma QuotientPositive(a: real, d: real)
    requires a > 0.0 && d > 0.0
    ensures a / d > 0.0
  {
  }

  /** With a positive exponential a legal column's prior is its expScore over sumExp. */
  lemma ScorePriorAt(g: Position, s: seq<int>, exp: real -> real, c: int)
    requires |s| == Cols && Legal(g, c) && forall x :: exp(x) > 0.0
    ensures SumExp(g, s, exp) > 0.0
    ensures ScorePriors(g, s, exp)[c] == ExpScores(g, s, exp)[c] / SumExp(g, s, exp)
  {
    HasMoves(g, c);
    ExpScoresPositive(g, s, exp);
  }

  /** With a positive, increasing exponential every legal column gets a positive prior and
      the priors keep the order of the scores. */
  lemma ScorePriorsFollowScores(g: Position, s: seq<int>, exp: real -> real, a: int, b: int)
    requires |s| == Cols && Legal(g, a) && Legal(g, b)
    requires forall x :: exp(x) > 0.0
    requires forall x, y :: x <= y ==> exp(x) <= exp(y)
    ensures ScorePriors(g, s, exp)[a] > 0.0
    ensures s[a] <= s[b] ==> ScorePriors(g, s, exp)[a] <= ScorePriors(g, s, exp)[b]
  {
    ScorePriorAt(g, s, exp, a);
    ScorePriorAt(g, s, exp, b);
    var e := ExpScores(g, s, exp);
    assert e[a] == exp(Rescaled(s, a) * 5.0) && e[b] == exp(Rescaled(s, b) * 5.0);
    var total := SumExp(g, s, exp);
    QuotientPositive(e[a], total);
    if s[a] <= s[b] {
      RescaledOrder(s, a, b);
      assert e[a] <= e[b];
      QuotientMonotone(e[a], e[b], total);
    }
  }

  /** Every legal column gets a positive prior and never a smaller one than a column it
      outscores; with MoveScoreRanks this puts winning moves first, then blocking moves,
      then the rest. */
  lemma HeuristicPriorsFollowScores(g: Position, player: Player, exp: real -> real, a: int, b: int)
    requires Legal(g, a) && Legal(g, b)
    requires forall x :: exp(x) > 0.0
    requires forall x, y :: x <= y ==> exp(x) <= exp(y)
    ensures HeuristicPriors(g, player, exp)[a] > 0.0
    ensures MoveScore(g, player, a) <= MoveScore(g, player, b) ==>
      HeuristicPriors(g, player, exp)[a] <= HeuristicPriors(g, player, exp)[b]
  {
    MoveScoresAt(g, player, a);
    MoveScoresAt(g, player, b);
    ScorePriorsFollowScores(g, MoveScores(g, player), exp, a, b);
  }

  // ---------------------------------------------------------------------------
  // HeuristicEvaluator::Evaluate
  // ---------------------------------------------------------------------------

  /** The body of the first loop for one legal column: try the move on a copy of the board,
      then the opponent's move on another copy. */
  method ClassifyMove(board: Board, col: int, player: Player, opponent: Player) returns (score: int)
    requires board.Valid() && Legal(board.Value(), col) && opponent == Opponent(player)
    ensures score == MoveScore(board.Value(), player, col)
  {
    var testBoard := new Board.Copy(board);
    var ok := testBoard.MakeMove(col, player);
    var winner := testBoard.CheckWinner();
    if winner == player {
      return WinningMove;
    }
    var opponentBoard := new Board.Copy(board);
    ok := opponentBoard.MakeMove(col, opponent);
    winner := opponentBoard.CheckWinner();
    if winner == opponent {
      return BlockingMove;
    }
    score := EvaluatePosition(testBoard.Value(), player);
  }

  /** moveScores after the first i iterations of the first loop over moves. */
  function ScoredUpTo(g: Position, player: Player, moves: seq<int>, i: nat): (s: seq<int>)
    requires i <= |moves| && forall k :: 0 <= k < |moves| ==> Legal(g, moves[k])
    ensures |s| == Cols
  {
    if i == 0 then seq(Cols, _ => Unscored)
    else ScoredUpTo(g, player, moves, i - 1)[moves[i - 1] := MoveScore(g, player, moves[i - 1])]
  }

  lemma {:induction false} ScoredUpToSpec(g: Position, player: Player, moves: seq<int>, i: nat)
    requires i <= |moves| && forall k :: 0 <= k < |moves| ==> Legal(g, moves[k])
    ensures forall c :: 0 <= c < Cols ==>
      ScoredUpTo(g, player, moves, i)[c] == if c in moves[..i] then MoveScore(g, player, c) else Unscored
  {
    if i > 0 {
      ScoredUpToSpec(g, player, moves, i - 1);
      assert moves[..i] == moves[..i - 1] + [moves[i - 1]];
    }
  }

  lemma ScoredStep(g: Position, player: Player, moves: seq<int>, i: nat)
    requires i < |moves| && forall k :: 0 <= k < |moves| ==> Legal(g, moves[k])
    ensures ScoredUpTo(g, player, moves, i + 1) == ScoredUpTo(g, player, moves, i)[moves[i] := MoveScore(g, player, moves[i])]
  {
  }

  /** Scoring every legal move yields MoveScores. */
  lemma ScoredAll(g: Position, player: Player)
    ensures forall k :: 0 <= k < |LegalMoves(g)| ==> Legal(g, LegalMoves(g)[k])
    ensures ScoredUpTo(g, player, LegalMoves(g), |LegalMoves(g)|) == MoveScores(g, player)
  {
    var moves := LegalMoves(g);
    MovesLegal(g);
    var s := ScoredUpTo(g, player, moves, |moves|);
    ScoredUpToSpec(g, player, moves, |moves|);
    assert moves[..|moves|] == moves;
    forall c | 0 <= c < Cols
      ensures s[c] == ScoreAt(g, player, c)
    {
      LegalMovesFromMembers(g, 0);
    }
  }

  /** The first loop: moveScores starts at -1e9 and each legal column gets its score. */
  method ScoreMoves(board: Board, validMoves: seq<int>, player: Player, opponent: Player)
    returns (moveScores: seq<int>)
    requires board.Valid() && validMoves == LegalMoves(board.Value()) && opponent == Opponent(player)
    ensures moveScores == MoveScores(board.Value(), player)
  {
    ghost var g := board.Value();
    ScoredAll(g, player);
    moveScores := seq(Cols, _ => Unscored);
    for i := 0 to |validMoves|
      invariant moveScores == ScoredUpTo(g, player, validMoves, i)
    {
      var col := validMoves[i];
      var score := ClassifyMove(board, col, player, opponent);
      ScoredStep(g, player, validMoves, i);
      moveScores := moveScores[col := score];
    }
  }

  /** ExpScores is zero off the legal columns and its legal entries can be summed. */
  lemma ExpScoresSupported(g: Position, s: seq<int>, exp: real -> real)
    requires |s| == Cols
    ensures SupportedOn(ExpScores(g, s, exp), g)
    ensures Indices(ExpScores(g, s, exp), LegalMoves(g))
    ensures forall k :: 0 <= k < |LegalMoves(g)| ==> Legal(g, LegalMoves(g)[k])
  {
    LegalIndices(ExpScores(g, s, exp), g);
    MovesLegal(g);
  }

  /** One iteration of the second loop. */
  lemma ExpStep(g: Position, s: seq<int>, exp: real -> real, i: nat, e: seq<real>, total: real, x: real)
    requires |s| == Cols && i < |LegalMoves(g)|
    requires forall k :: 0 <= k < |LegalMoves(g)| ==> Legal(g, LegalMoves(g)[k])
    requires Indices(ExpScores(g, s, exp), LegalMoves(g))
    requires e == Filled(NoPriors(), LegalMoves(g), ExpScores(g, s, exp), i)
    requires total == SumAt(ExpScores(g, s, exp), LegalMoves(g)[..i])
    requires x == ExpScores(g, s, exp)[LegalMoves(g)[i]]
    ensures e[LegalMoves(g)[i] := x] == Filled(NoPriors(), LegalMoves(g), ExpScores(g, s, exp), i + 1)
    ensures total + x == SumAt(ExpScores(g, s, exp), LegalMoves(g)[..i + 1])
  {
    SumAtStep(ExpScores(g, s, exp), LegalMoves(g), i);
  }

  /** The second loop ends with ExpScores and SumExp. */
  lemma ExpDone(g: Position, s: seq<int>, exp: real -> real, e: seq<real>, total: real)
    requires |s| == Cols
    requires forall k :: 0 <= k < |LegalMoves(g)| ==> Legal(g, LegalMoves(g)[k])
    requires Indices(ExpScores(g, s, exp), LegalMoves(g))
    requires e == Filled(NoPriors(), LegalMoves(g), ExpScores(g, s, exp), |LegalMoves(g)|)
    requires total == SumAt(ExpScores(g, s, exp), LegalMoves(g)[..|LegalMoves(g)|])
    ensures e == ExpScores(g, s, exp) && total == SumExp(g, s, exp)
  {
    ExpScoresSupported(g, s, exp);
    FilledLegal(NoPriors(), ExpScores(g, s, exp), g);
    assert LegalMoves(g)[..|LegalMoves(g)|] == LegalMoves(g);
  }

  /** expScores[col] as the second loop computes it from the bounds of all seven scores. */
  method ExpEntry(ghost g: Position, moveScores: seq<int>, minScore: int, maxScore: int, col: int, exp: real -> real)
    returns (x: real)
    requires |moveScores| == Cols && Legal(g, col)
    requires minScore == MinElement(moveScores) && maxScore == MaxElement(moveScores)
    ensures x == ExpScores(g, moveScores, exp)[col]
  {
    MinElementSpec(moveScores);
    MaxElementSpec(moveScores);
    var normalized := Scale(moveScores[col] as real, minScore as real, maxScore as real);
    ExpScoresAt(g, moveScores, exp, col, normalized);
    x := exp(normalized * 5.0);
  }

  /** The second loop: rescale each legal column's score, exponentiate it and add it up. */
  method ExpLoop(ghost g: Position, validMoves: seq<int>, moveScores: seq<int>, exp: real -> real)
    returns (expScores: seq<real>, sumExp: real)
    requires validMoves == LegalMoves(g) != [] && |moveScores| == Cols
    ensures expScores == ExpScores(g, moveScores, exp)
    ensures sumExp == SumExp(g, moveScores, exp)
  {
    ExpScoresSupported(g, moveScores, exp);
    var minScore := MinElement(moveScores);
    var maxScore := MaxElement(moveScores);
    expScores := NoPriors();
    sumExp := 0.0;
    for i := 0 to |validMoves|
      invariant expScores == Filled(NoPriors(), validMoves, ExpScores(g, moveScores, exp), i)
      invariant sumExp == SumAt(ExpScores(g, moveScores, exp), validMoves[..i])
    {
      var col := validMoves[i];
      var x := ExpEntry(g, moveScores, minScore, maxScore, col, exp);
      ExpStep(g, moveScores, exp, i, expScores, sumExp, x);
      expScores := expScores[col := x];
      sumExp := sumExp + x;
    }
    ExpDone(g, moveScores, exp, expScores, sumExp);
  }

  /** The third loop: divide by sumExp when it is positive, else spread 1/|moves|. */
  method NormalizeLoop(ghost g: Position, validMoves: seq<int>, expScores: seq<real>, sumExp: real)
    returns (priors: seq<real>)
    requires validMoves == LegalMoves(g) != [] && |expScores| == Cols
    ensures priors == if sumExp > 0.0 then Divided(expScores, g, sumExp) else Uniform(g)
  {
    if sumExp > 0.0 {
      priors := DivideLoop(g, validMoves, NoPriors(), expScores, sumExp);
    } else {
      priors := UniformLoop(g, validMoves, NoPriors());
    }
  }

  /** The priors of Evaluate for a position with a legal move. */
  method EvaluatePriors(board: Board, validMoves: seq<int>, player: Player, exp: real -> real)
    returns (priors: seq<real>)
    requires board.Valid() && validMoves == LegalMoves(board.Value()) != []
    ensures priors == HeuristicPriors(board.Value(), player, exp)
  {
    var g := board.Value();
    var opponent := Opponent(player);
    var moveScores := ScoreMoves(board, validMoves, player, opponent);
    var expScores, sumExp := ExpLoop(g, validMoves, moveScores, exp);
    priors := NormalizeLoop(g, validMoves, expScores, sumExp);
  }

  /** The value of Evaluate for a position with a legal move. */
  method EvaluateValue(g: Position, player: Player, tanh: real -> real) returns (value: real)
    requires LegalMoves(g) != []
    ensures value == HeuristicValue(g, player, tanh)
  {
    var score := EvaluatePosition(g, player);
    value := Squashed(score, tanh);
  }

  /** HeuristicEvaluator::Evaluate: the priors and value of the position for player. */
  method Evaluate(board: Board, player: Player, exp: real -> real, tanh: real -> real)
    returns (priors: seq<real>, value: real)
    requires board.Valid()
    ensures priors == HeuristicPriors(board.Value(), player, exp)
    ensures value == HeuristicValue(board.Value(), player, tanh)
  {
    var validMoves := board.GetValidMoves();
    priors := NoPriors();
    if |validMoves| == 0 {
      return priors, 0.0;
    }
    priors := EvaluatePriors(board, validMoves, player, exp);
    value := EvaluateValue(board.Value(), player, tanh);
  }
}
