/**
  The depth-limited minimax player of ConnectFour/minimax.cpp.

  GameTree unfolds a position into the tree MinimaxAI::Minimax walks: a leaf wherever the
  search stops (a winner, a full board, depth 0) carrying the score given there, and
  otherwise one subtree per legal move, in GetValidMoves order.  Over that tree sit two
  definitions: MinimaxValue, plain minimax, and AlphaBeta, the fail-soft alpha-beta
  recursion as MinimaxAI::Minimax performs it (same running maximum, same alpha update,
  same cut-off test, same node count).  AlphaBetaSound ties them together, and the class
  MinimaxAI is proved against AlphaBeta of GameTree.

  Scores are integers: every score the search produces is an integral double.  The two
  infinities are modelled by the sentinel Infinity, which exceeds every score a search
  can produce (GameTreeBounded).
*/
module Minimax {
  import opened GameBoard
  import opened Threats
  import opened Choice

  /** The score of a won position, before the depth bonus. */
  const WinScore := 10000
  /** Stands for `std::numeric_limits<double>::infinity()`. */
  const Infinity := 0x1_0000_0000_0000

  /** std::max(a, b) */
  function Max(a: int, b: int): int {
    if a < b then b else a
  }

  /** std::min(a, b) */
  function Min(a: int, b: int): int {
    if b < a then b else a
  }

  function Abs(x: int): nat {
    if x < 0 then -x else x
  }

  /** A depth an `int` holds. */
  predicate Int32(d: int) {
    -0x8000_0000 <= d < 0x8000_0000
  }

  // ---------------------------------------------------------------------------
  // The game tree of a position
  // ---------------------------------------------------------------------------

  /** Every column of moves accepts a piece in g. */
  predicate AllLegal(g: Position, moves: seq<int>) {
    forall k :: 0 <= k < |moves| ==> Legal(g, moves[k])
  }

  lemma LegalMovesAreLegal(g: Position)
    ensures AllLegal(g, LegalMoves(g))
  {
    LegalMovesSpec(g);
    forall k | 0 <= k < |LegalMoves(g)|
      ensures Legal(g, LegalMoves(g)[k])
    {
      assert LegalMoves(g)[k] in LegalMoves(g);
    }
  }

  /** The position after p plays col: a move uses up one empty slot. */
  function Next(g: Position, col: int, p: Player): (h: Position)
    requires Legal(g, col)
    ensures FreeSlots(h) == FreeSlots(g) - 1
  {
    PlayUsesSlot(g, col, p);
    Play(g, col, p)
  }

  /** The score of a position won by w, seen by maxP, with depth plies left. */
  function WinValue(w: Player, depth: int, maxP: Player): int {
    if w == maxP then WinScore + depth else -WinScore - depth
  }

  datatype Tree = Leaf(score: int) | Node(maximizing: bool, children: seq<Tree>)

  /** The tree MinimaxAI::Minimax(board, depth, _, _, player, maxP) searches. */
  function GameTree(g: Position, depth: int, player: Player, maxP: Player): Tree
    decreases FreeSlots(g), 1
  {
    if Winner(g) != None then Leaf(WinValue(Winner(g), depth, maxP))
    else if Full(g) then Leaf(0)
    else if depth == 0 then Leaf(PositionScore(g, maxP))
    else
      var moves := LegalMoves(g);
      LegalMovesAreLegal(g);
      Node(player == maxP, seq(|moves|, k requires 0 <= k < |moves| =>
        Child(g, moves[k], player, depth - 1, maxP)))
  }

  /** The tree searched below the move col of player, with depth plies left. */
  function Child(g: Position, col: int, player: Player, depth: int, maxP: Player): Tree
    requires Legal(g, col)
    decreases FreeSlots(g), 0
  {
    GameTree(Next(g, col, player), depth, Opponent(player), maxP)
  }

  /** The subtrees of an inner node are the positions after each legal move, in order. */
  lemma GameTreeNode(g: Position, depth: int, player: Player, maxP: Player)
    requires Winner(g) == None && !Full(g) && depth != 0
    ensures AllLegal(g, LegalMoves(g))
    ensures GameTree(g, depth, player, maxP).Node?
    ensures GameTree(g, depth, player, maxP).maximizing == (player == maxP)
    ensures |GameTree(g, depth, player, maxP).children| == |LegalMoves(g)| > 0
    ensures forall k :: 0 <= k < |LegalMoves(g)| ==>
      GameTree(g, depth, player, maxP).children[k] == Child(g, LegalMoves(g)[k], player, depth - 1, maxP)
  {
    LegalMovesAreLegal(g);
    FullIffNoLegalMoves(g);
  }

  // ---------------------------------------------------------------------------
  // Reference definition: minimax without pruning
  // ---------------------------------------------------------------------------

  function MinimaxValue(t: Tree): int
    decreases t, 1, 0
  {
    match t
    case Leaf(s) => s
    case Node(maximizing, _) => if maximizing then MaxOf(t, 0) else MinOf(t, 0)
  }

  /** The largest value among the children of t from index i on (-Infinity if none). */
  function MaxOf(t: Tree, i: nat): (v: int)
    requires t.Node? && i <= |t.children|
    ensures v >= -Infinity
    decreases t, 0, |t.children| - i
  {
    if i == |t.children| then -Infinity
    else Max(MinimaxValue(t.children[i]), MaxOf(t, i + 1))
  }

  /** The smallest value among the children of t from index i on (Infinity if none). */
  function MinOf(t: Tree, i: nat): (v: int)
    requires t.Node? && i <= |t.children|
    ensures v <= Infinity
    decreases t, 0, |t.children| - i
  {
    if i == |t.children| then Infinity
    else Min(MinimaxValue(t.children[i]), MinOf(t, i + 1))
  }

  // ---------------------------------------------------------------------------
  // MinimaxAI::Minimax as written: fail-soft alpha-beta with a node count
  // ---------------------------------------------------------------------------

  /** The value a search returns and the number of nodes it evaluated. */
  datatype Search = Search(value: int, nodes: nat)

  function AlphaBeta(t: Tree, alpha: int, beta: int): Search
    decreases t, 1, 0
  {
    match t
    case Leaf(s) => Search(s, 1)
    case Node(maximizing, _) =>
      var r := if maximizing then MaxLoop(t, 0, alpha, beta, -Infinity) else MinLoop(t, 0, alpha, beta, Infinity);
      Search(r.value, r.nodes + 1)
  }

  /** The maximising loop from child i on, with the running alpha and maxEval. */
  function MaxLoop(t: Tree, i: nat, alpha: int, beta: int, maxEval: int): Search
    requires t.Node? && i <= |t.children|
    decreases t, 0, |t.children| - i
  {
    if i == |t.children| then Search(maxEval, 0)
    else
      var child := AlphaBeta(t.children[i], alpha, beta);
      var m := Max(maxEval, child.value);
      var a := Max(alpha, child.value);
      if beta <= a then Search(m, child.nodes)
      else
        var rest := MaxLoop(t, i + 1, a, beta, m);
        Search(rest.value, child.nodes + rest.nodes)
  }

  /** The minimising loop from child i on, with the running beta and minEval. */
  function MinLoop(t: Tree, i: nat, alpha: int, beta: int, minEval: int): Search
    requires t.Node? && i <= |t.children|
    decreases t, 0, |t.children| - i
  {
    if i == |t.children| then Search(minEval, 0)
    else
      var child := AlphaBeta(t.children[i], alpha, beta);
      var m := Min(minEval, child.value);
      var b := Min(beta, child.value);
      if b <= alpha then Search(m, child.nodes)
      else
        var rest := MinLoop(t, i + 1, alpha, b, m);
        Search(rest.value, child.nodes + rest.nodes)
  }

  // ---------------------------------------------------------------------------
  // Pruning is sound
  // ---------------------------------------------------------------------------

  /** The fail-soft contract: r is exact inside (alpha, beta) and a bound outside it. */
  predicate FailSoft(r: int, v: int, alpha: int, beta: int) {
    (alpha < v < beta ==> r == v) &&
    (v <= alpha ==> v <= r <= alpha) &&
    (beta <= v ==> beta <= r <= v)
  }

  lemma {:induction false} AlphaBetaSound(t: Tree, alpha: int, beta: int)
    requires -Infinity <= alpha < beta <= Infinity
    ensures FailSoft(AlphaBeta(t, alpha, beta).value, MinimaxValue(t), alpha, beta)
    decreases t, 1, 0
  {
    match t
    case Leaf(_) =>
    case Node(maximizing, _) =>
      if maximizing {
        MaxLoopSound(t, 0, alpha, beta, -Infinity);
      } else {
        MinLoopSound(t, 0, alpha, beta, Infinity);
      }
  }

  lemma {:induction false} MaxLoopSound(t: Tree, i: nat, alpha: int, beta: int, maxEval: int)
    requires t.Node? && i <= |t.children|
    requires -Infinity <= maxEval <= alpha < beta <= Infinity
    ensures FailSoft(MaxLoop(t, i, alpha, beta, maxEval).value, Max(maxEval, MaxOf(t, i)), alpha, beta)
    decreases t, 0, |t.children| - i
  {
    if i < |t.children| {
      var e := AlphaBeta(t.children[i], alpha, beta).value;
      AlphaBetaSound(t.children[i], alpha, beta);
      if Max(alpha, e) < beta {
        MaxLoopSound(t, i + 1, Max(alpha, e), beta, Max(maxEval, e));
      }
      MaxStep(alpha, beta, maxEval, MinimaxValue(t.children[i]), MaxOf(t, i + 1), e,
              MaxLoop(t, i, alpha, beta, maxEval).value);
    }
  }

  /** One step of the maximising loop keeps the fail-soft contract. */
  lemma MaxStep(alpha: int, beta: int, maxEval: int, v: int, w: int, e: int, r: int)
    requires maxEval <= alpha < beta
    requires FailSoft(e, v, alpha, beta)
    requires beta <= Max(alpha, e) ==> r == Max(maxEval, e)
    requires Max(alpha, e) < beta ==> FailSoft(r, Max(Max(maxEval, e), w), Max(alpha, e), beta)
    ensures FailSoft(r, Max(maxEval, Max(v, w)), alpha, beta)
  {
  }

  lemma {:induction false} MinLoopSound(t: Tree, i: nat, alpha: int, beta: int, minEval: int)
    requires t.Node? && i <= |t.children|
    requires -Infinity <= alpha < beta <= minEval <= Infinity
    ensures FailSoft(MinLoop(t, i, alpha, beta, minEval).value, Min(minEval, MinOf(t, i)), alpha, beta)
    decreases t, 0, |t.children| - i
  {
    if i < |t.children| {
      var e := AlphaBeta(t.children[i], alpha, beta).value;
      AlphaBetaSound(t.children[i], alpha, beta);
      if alpha < Min(beta, e) {
        MinLoopSound(t, i + 1, alpha, Min(beta, e), Min(minEval, e));
      }
      MinStep(alpha, beta, minEval, MinimaxValue(t.children[i]), MinOf(t, i + 1), e,
              MinLoop(t, i, alpha, beta, minEval).value);
    }
  }

  /** One step of the minimising loop keeps the fail-soft contract. */
  lemma MinStep(alpha: int, beta: int, minEval: int, v: int, w: int, e: int, r: int)
    requires alpha < beta <= minEval
    requires FailSoft(e, v, alpha, beta)
    requires Min(beta, e) <= alpha ==> r == Min(minEval, e)
    requires alpha < Min(beta, e) ==> FailSoft(r, Min(Min(minEval, e), w), alpha, Min(beta, e))
    ensures FailSoft(r, Min(minEval, Min(v, w)), alpha, beta)
  {
  }

  // ---------------------------------------------------------------------------
  // Pruning only saves work
  // ---------------------------------------------------------------------------

  /** The number of nodes of t: what a search without pruning evaluates. */
  function Size(t: Tree): nat
    decreases t, 1
  {
    match t
    case Leaf(_) => 1
    case Node(_, _) => 1 + SizeFrom(t, 0)
  }

  function SizeFrom(t: Tree, i: nat): nat
    requires t.Node? && i <= |t.children|
    decreases t, 0, |t.children| - i
  {
    if i == |t.children| then 0 else Size(t.children[i]) + SizeFrom(t, i + 1)
  }

  /** An alpha-beta search evaluates the root and never more nodes than the tree has. */
  lemma {:induction false} AlphaBetaNodes(t: Tree, alpha: int, beta: int)
    ensures 1 <= AlphaBeta(t, alpha, beta).nodes <= Size(t)
    decreases t, 1, 0
  {
    match t
    case Leaf(_) =>
    case Node(maximizing, _) =>
      if maximizing {
        MaxLoopNodes(t, 0, alpha, beta, -Infinity);
      } else {
        MinLoopNodes(t, 0, alpha, beta, Infinity);
      }
  }

  lemma {:induction false} MaxLoopNodes(t: Tree, i: nat, alpha: int, beta: int, maxEval: int)
    requires t.Node? && i <= |t.children|
    ensures MaxLoop(t, i, alpha, beta, maxEval).nodes <= SizeFrom(t, i)
    decreases t, 0, |t.children| - i
  {
    if i < |t.children| {
      var e := AlphaBeta(t.children[i], alpha, beta).value;
      AlphaBetaNodes(t.children[i], alpha, beta);
      MaxLoopNodes(t, i + 1, Max(alpha, e), beta, Max(maxEval, e));
    }
  }

  lemma {:induction false} MinLoopNodes(t: Tree, i: nat, alpha: int, beta: int, minEval: int)
    requires t.Node? && i <= |t.children|
    ensures MinLoop(t, i, alpha, beta, minEval).nodes <= SizeFrom(t, i)
    decreases t, 0, |t.children| - i
  {
    if i < |t.children| {
      var e := AlphaBeta(t.children[i], alpha, beta).value;
      AlphaBetaNodes(t.children[i], alpha, beta);
      MinLoopNodes(t, i + 1, alpha, Min(beta, e), Min(minEval, e));
    }
  }

  // ---------------------------------------------------------------------------
  // Bounds: every score lies strictly inside (-Infinity, Infinity)
  // ---------------------------------------------------------------------------

  /** A bound on every score a search whose depth an `int` holds can produce. */
  const ScoreBound := WinScore + 0x1_0000_0000

  /** Every leaf of t scores within bound, and every inner node has a child. */
  predicate Bounded(t: Tree, bound: int)
    decreases t
  {
    match t
    case Leaf(s) => Abs(s) <= bound
    case Node(_, cs) => |cs| > 0 && forall k :: 0 <= k < |cs| ==> Bounded(cs[k], bound)
  }

  lemma {:induction false} BoundedValue(t: Tree, bound: int)
    requires Bounded(t, bound)
    ensures Abs(MinimaxValue(t)) <= bound
    decreases t, 1, 0
  {
    match t
    case Leaf(_) =>
    case Node(maximizing, _) =>
      if maximizing {
        MaxOfBounded(t, 0, bound);
      } else {
        MinOfBounded(t, 0, bound);
      }
  }

  lemma {:induction false} MaxOfBounded(t: Tree, i: nat, bound: int)
    requires t.Node? && i < |t.children| && Bounded(t, bound)
    ensures Abs(MaxOf(t, i)) <= bound
    decreases t, 0, |t.children| - i
  {
    BoundedValue(t.children[i], bound);
    if i + 1 < |t.children| {
      MaxOfBounded(t, i + 1, bound);
    }
  }

  lemma {:induction false} MinOfBounded(t: Tree, i: nat, bound: int)
    requires t.Node? && i < |t.children| && Bounded(t, bound)
    ensures Abs(MinOf(t, i)) <= bound
    decreases t, 0, |t.children| - i
  {
    BoundedValue(t.children[i], bound);
    if i + 1 < |t.children| {
      MinOfBounded(t, i + 1, bound);
    }
  }

  /** Where the search stops, the leaf score lies within ScoreBound. */
  lemma LeafBounded(g: Position, depth: int, player: Player, maxP: Player)
    requires Winner(g) != None || Full(g) || depth == 0
    requires Abs(depth) <= 0x1_0000_0000
    ensures Bounded(GameTree(g, depth, player, maxP), ScoreBound)
  {
    var t := GameTree(g, depth, player, maxP);
    var s: int;
    if Winner(g) != None {
      s := WinValue(Winner(g), depth, maxP);
    } else if Full(g) {
      s := 0;
    } else {
      PositionScoreBound(g, maxP);
      s := PositionScore(g, maxP);
    }
    assert t == Leaf(s);
    assert Abs(s) <= ScoreBound;
  }

  /** The scores of a game tree stay within ScoreBound while depth and the empty slots do. */
  lemma {:induction false} GameTreeBounded(g: Position, depth: int, player: Player, maxP: Player)
    requires Abs(depth) + FreeSlots(g) <= 0x1_0000_0000
    ensures Bounded(GameTree(g, depth, player, maxP), ScoreBound)
    decreases FreeSlots(g), 1
  {
    if Winner(g) != None || Full(g) || depth == 0 {
      LeafBounded(g, depth, player, maxP);
    } else {
      GameTreeNode(g, depth, player, maxP);
      var moves := LegalMoves(g);
      forall k | 0 <= k < |moves|
        ensures Bounded(Child(g, moves[k], player, depth - 1, maxP), ScoreBound)
      {
        ChildBounded(g, moves[k], player, depth - 1, maxP);
      }
    }
  }

  lemma {:induction false} ChildBounded(g: Position, col: int, player: Player, depth: int, maxP: Player)
    requires Legal(g, col) && Abs(depth) + FreeSlots(g) <= 0x1_0000_0001
    ensures Bounded(Child(g, col, player, depth, maxP), ScoreBound)
    decreases FreeSlots(g), 0
  {
    GameTreeBounded(Next(g, col, player), depth, Opponent(player), maxP);
  }

  // ---------------------------------------------------------------------------
  // MinimaxAI::SelectMove: the root loop
  // ---------------------------------------------------------------------------

  /** The value a root search reports: the full window, as SelectMove opens it. */
  function RootValue(t: Tree): int {
    AlphaBeta(t, -Infinity, Infinity).value
  }

  /** The index SelectMove's loop keeps, scanning the trees from i with the best so far:
      a tree replaces the best only with a strictly larger root value. */
  function ScanFrom(ts: seq<Tree>, i: nat, best: nat, bestValue: int): (k: nat)
    requires i <= |ts| && best < |ts|
    ensures k < |ts|
    decreases |ts| - i
  {
    if i == |ts| then best
    else if RootValue(ts[i]) > bestValue then ScanFrom(ts, i + 1, i, RootValue(ts[i]))
    else ScanFrom(ts, i + 1, best, bestValue)
  }

  /** The nodes the root searches of ts[i..] evaluate together. */
  function NodesFrom(ts: seq<Tree>, i: nat): nat
    requires i <= |ts|
    decreases |ts| - i
  {
    if i == |ts| then 0 else AlphaBeta(ts[i], -Infinity, Infinity).nodes + NodesFrom(ts, i + 1)
  }

  /** The root values of ts, in order. */
  function RootValues(ts: seq<Tree>): (vals: seq<int>)
    ensures |vals| == |ts|
  {
    seq(|ts|, j requires 0 <= j < |ts| => RootValue(ts[j]))
  }

  /** SelectMove's loop is the first-strict-maximum scan of the root values. */
  lemma {:induction false} ScanFromFirstMax(ts: seq<Tree>, i: nat, best: nat, bestValue: int)
    requires i <= |ts| && best < |ts|
    ensures ScanFrom(ts, i, best, bestValue) == FirstMaxFrom(RootValues(ts), i, best, bestValue)
    decreases |ts| - i
  {
    if i < |ts| {
      assert RootValues(ts)[i] == RootValue(ts[i]);
      if RootValue(ts[i]) > bestValue {
        ScanFromFirstMax(ts, i + 1, i, RootValue(ts[i]));
      } else {
        ScanFromFirstMax(ts, i + 1, best, bestValue);
      }
    }
  }

  /** On a tree whose scores lie within ScoreBound the full-window search is exact. */
  lemma FullWindowExact(t: Tree)
    requires Bounded(t, ScoreBound)
    ensures RootValue(t) == MinimaxValue(t)
    ensures -Infinity < MinimaxValue(t) < Infinity
  {
    BoundedValue(t, ScoreBound);
    AlphaBetaSound(t, -Infinity, Infinity);
  }

  /** Over trees whose scores lie within ScoreBound, SelectMove's scan picks the first tree
      of largest minimax value. */
  lemma ScanPicksBest(ts: seq<Tree>)
    requires |ts| > 0 && forall j :: 0 <= j < |ts| ==> Bounded(ts[j], ScoreBound)
    ensures forall j :: 0 <= j < |ts| ==> MinimaxValue(ts[j]) <= MinimaxValue(ts[ScanFrom(ts, 0, 0, -Infinity)])
    ensures forall j :: 0 <= j < ScanFrom(ts, 0, 0, -Infinity) ==>
      MinimaxValue(ts[j]) < MinimaxValue(ts[ScanFrom(ts, 0, 0, -Infinity)])
  {
    var vals := RootValues(ts);
    forall j | 0 <= j < |ts|
      ensures vals[j] == MinimaxValue(ts[j]) > -Infinity
    {
      FullWindowExact(ts[j]);
    }
    FirstMaxFound(vals, 0, -Infinity);
    ScanFromFirstMax(ts, 0, 0, -Infinity);
  }

  /** The trees SelectMove searches, one per move: the board after player plays the move,
      with maxDepth - 1 plies left and the opponent to move. */
  function RootTrees(g: Position, moves: seq<int>, player: Player, maxDepth: int): (ts: seq<Tree>)
    requires AllLegal(g, moves)
    ensures |ts| == |moves|
    ensures forall k :: 0 <= k < |moves| ==> ts[k] == Child(g, moves[k], player, maxDepth - 1, player)
  {
    seq(|moves|, k requires 0 <= k < |moves| => Child(g, moves[k], player, maxDepth - 1, player))
  }

  /** The column SelectMove returns: -1 when there is no legal move. */
  function BestMove(g: Position, player: Player, maxDepth: int): int {
    var moves := LegalMoves(g);
    if moves == [] then -1
    else
      LegalMovesAreLegal(g);
      moves[ScanFrom(RootTrees(g, moves, player, maxDepth), 0, 0, -Infinity)]
  }

  /** The nodes SelectMove evaluates in all. */
  function SelectNodes(g: Position, player: Player, maxDepth: int): nat {
    if LegalMoves(g) == [] then 0
    else
      LegalMovesAreLegal(g);
      NodesFrom(RootTrees(g, LegalMoves(g), player, maxDepth), 0)
  }

  /** The minimax value, for player, of playing col with maxDepth plies in all. */
  function MoveValue(g: Position, col: int, player: Player, maxDepth: int): int
    requires Legal(g, col)
  {
    MinimaxValue(Child(g, col, player, maxDepth - 1, player))
  }

  /** With the full window and a depth an `int` holds, the root search of a move is exact. */
  lemma RootSearchExact(g: Position, col: int, player: Player, maxDepth: int)
    requires Legal(g, col) && Int32(maxDepth)
    ensures RootValue(Child(g, col, player, maxDepth - 1, player)) == MoveValue(g, col, player, maxDepth)
    ensures -Infinity < MoveValue(g, col, player, maxDepth) < Infinity
  {
    FreeSlotsBound(g);
    ChildBounded(g, col, player, maxDepth - 1, player);
    FullWindowExact(Child(g, col, player, maxDepth - 1, player));
  }

  /** SelectMove returns -1 exactly when the board is full, and a legal column otherwise. */
  lemma BestMoveLegal(g: Position, player: Player, maxDepth: int)
    ensures BestMove(g, player, maxDepth) == -1 <==> Full(g)
    ensures !Full(g) ==> Legal(g, BestMove(g, player, maxDepth))
  {
    FullIffNoLegalMoves(g);
    LegalMovesAreLegal(g);
  }

  /** The trees the root searches of SelectMove look at all stay within ScoreBound. */
  lemma RootTreesBounded(g: Position, player: Player, maxDepth: int)
    requires Int32(maxDepth)
    ensures AllLegal(g, LegalMoves(g))
    ensures forall j :: 0 <= j < |LegalMoves(g)| ==> Bounded(RootTrees(g, LegalMoves(g), player, maxDepth)[j], ScoreBound)
  {
    var moves := LegalMoves(g);
    LegalMovesAreLegal(g);
    var ts := RootTrees(g, moves, player, maxDepth);
    FreeSlotsBound(g);
    assert Abs(maxDepth - 1) + FreeSlots(g) <= 0x1_0000_0001;
    forall j | 0 <= j < |ts|
      ensures Bounded(ts[j], ScoreBound)
    {
      ChildBounded(g, moves[j], player, maxDepth - 1, player);
      assert ts[j] == Child(g, moves[j], player, maxDepth - 1, player);
    }
  }

  /** SelectMove returns the leftmost legal column whose minimax value is largest. */
  lemma BestMoveOptimal(g: Position, player: Player, maxDepth: int)
    requires !Full(g) && Int32(maxDepth)
    ensures Legal(g, BestMove(g, player, maxDepth))
    ensures forall c :: Legal(g, c) ==>
      MoveValue(g, c, player, maxDepth) <= MoveValue(g, BestMove(g, player, maxDepth), player, maxDepth)
    ensures forall c :: Legal(g, c) && c < BestMove(g, player, maxDepth) ==>
      MoveValue(g, c, player, maxDepth) < MoveValue(g, BestMove(g, player, maxDepth), player, maxDepth)
  {
    BestMoveLegal(g, player, maxDepth);
    FullIffNoLegalMoves(g);
    var moves := LegalMoves(g);
    RootTreesBounded(g, player, maxDepth);
    var ts := RootTrees(g, moves, player, maxDepth);
    ScanPicksBest(ts);
    var k := ScanFrom(ts, 0, 0, -Infinity);
    assert BestMove(g, player, maxDepth) == moves[k];
    BestTreeBestColumn(g, player, maxDepth, k);
  }

  /** The leftmost best tree of the root searches is the leftmost best legal column. */
  lemma BestTreeBestColumn(g: Position, player: Player, maxDepth: int, k: nat)
    requires AllLegal(g, LegalMoves(g)) && k < |LegalMoves(g)|
    requires var ts := RootTrees(g, LegalMoves(g), player, maxDepth);
      (forall j :: 0 <= j < |ts| ==> MinimaxValue(ts[j]) <= MinimaxValue(ts[k])) &&
      (forall j :: 0 <= j < k ==> MinimaxValue(ts[j]) < MinimaxValue(ts[k]))
    ensures forall c :: Legal(g, c) ==>
      MoveValue(g, c, player, maxDepth) <= MoveValue(g, LegalMoves(g)[k], player, maxDepth)
    ensures forall c :: Legal(g, c) && c < LegalMoves(g)[k] ==>
      MoveValue(g, c, player, maxDepth) < MoveValue(g, LegalMoves(g)[k], player, maxDepth)
  {
    var moves := LegalMoves(g);
    var ts := RootTrees(g, moves, player, maxDepth);
    forall c | Legal(g, c)
      ensures MoveValue(g, c, player, maxDepth) <= MoveValue(g, moves[k], player, maxDepth)
      ensures c < moves[k] ==> MoveValue(g, c, player, maxDepth) < MoveValue(g, moves[k], player, maxDepth)
    {
      var j := LegalMoveIndex(g, c);
      LegalMovesOrdered(g, j, k);
      assert ts[j] == Child(g, c, player, maxDepth - 1, player);
    }
  }

  // ---------------------------------------------------------------------------
  // Terminal values and immediate wins
  // ---------------------------------------------------------------------------

  /** Where the search stops, Minimax evaluates one node and returns, whatever the window:
      WinScore + depth for a position the maximizing player has won, -WinScore - depth for
      one the other player has won, 0 for a full board, and EvaluatePosition at depth 0. */
  lemma TerminalValues(g: Position, depth: int, player: Player, maxP: Player, alpha: int, beta: int)
    ensures var r := AlphaBeta(GameTree(g, depth, player, maxP), alpha, beta);
      (Winner(g) != None && Winner(g) == maxP ==> r == Search(WinScore + depth, 1)) &&
      (Winner(g) != None && Winner(g) != maxP ==> r == Search(-WinScore - depth, 1)) &&
      (Winner(g) == None && Full(g) ==> r == Search(0, 1)) &&
      (Winner(g) == None && !Full(g) && depth == 0 ==> r == Search(PositionScore(g, maxP), 1)) &&
      (Winner(g) == None && !Full(g) && depth != 0 ==> r.nodes > 1)
  {
    if Winner(g) == None && !Full(g) && depth != 0 {
      var t := GameTree(g, depth, player, maxP);
      GameTreeNode(g, depth, player, maxP);
      AlphaBetaNodes(t.children[0], alpha, beta);
    }
  }

  /** Where the search stops with depth >= 0 plies left, the leaf lies within WinScore + depth. */
  lemma LeafWithin(g: Position, depth: int, player: Player, maxP: Player, bound: int)
    requires Winner(g) != None || Full(g) || depth == 0
    requires 0 <= depth && WinScore + depth <= bound
    ensures Bounded(GameTree(g, depth, player, maxP), bound)
  {
    var t := GameTree(g, depth, player, maxP);
    var s: int;
    if Winner(g) != None {
      s := WinValue(Winner(g), depth, maxP);
    } else if Full(g) {
      s := 0;
    } else {
      PositionScoreBound(g, maxP);
      s := PositionScore(g, maxP);
    }
    assert t == Leaf(s);
  }

  /** With depth >= 0 plies left, every score of the tree lies within WinScore + depth. */
  lemma {:induction false} DepthBounded(g: Position, depth: int, player: Player, maxP: Player, bound: int)
    requires 0 <= depth && WinScore + depth <= bound
    ensures Bounded(GameTree(g, depth, player, maxP), bound)
    decreases FreeSlots(g), 1
  {
    if Winner(g) != None || Full(g) || depth == 0 {
      LeafWithin(g, depth, player, maxP, bound);
    } else {
      NodeWithin(g, depth, player, maxP, bound);
    }
  }

  lemma {:induction false} NodeWithin(g: Position, depth: int, player: Player, maxP: Player, bound: int)
    requires Winner(g) == None && !Full(g) && 0 < depth && WinScore + depth - 1 <= bound
    ensures Bounded(GameTree(g, depth, player, maxP), bound)
    decreases FreeSlots(g), 0
  {
    GameTreeNode(g, depth, player, maxP);
    var t := GameTree(g, depth, player, maxP);
    var moves := LegalMoves(g);
    forall k | 0 <= k < |t.children|
      ensures Bounded(t.children[k], bound)
    {
      DepthBounded(Next(g, moves[k], player), depth - 1, Opponent(player), maxP, bound);
    }
  }

  /** The move col of player completes four in a row. */
  predicate WinsAtOnce(g: Position, col: int, player: Player) {
    Legal(g, col) && Winner(Play(g, col, player)) == player
  }

  /** A move that wins at once is worth WinScore + maxDepth - 1 to the root search. */
  lemma WinningMoveValue(g: Position, col: int, player: Player, maxDepth: int)
    requires player != None && WinsAtOnce(g, col, player)
    ensures MoveValue(g, col, player, maxDepth) == WinScore + maxDepth - 1
  {
    var h := Next(g, col, player);
    assert Winner(h) == player;
    assert GameTree(h, maxDepth - 1, Opponent(player), player) == Leaf(WinValue(player, maxDepth - 1, player));
  }

  /** Where the search stops with depth >= 0 plies left in a position maxP has not won, the
      score is below WinScore + depth. */
  lemma LeafBelow(g: Position, depth: int, player: Player, maxP: Player)
    requires Winner(g) != None || Full(g) || depth == 0
    requires 0 <= depth && Winner(g) != maxP
    ensures MinimaxValue(GameTree(g, depth, player, maxP)) < WinScore + depth
  {
    var t := GameTree(g, depth, player, maxP);
    if Winner(g) != None {
      assert t == Leaf(-WinScore - depth);
    } else if Full(g) {
      assert t == Leaf(0);
    } else {
      PositionScoreBound(g, maxP);
      assert t == Leaf(PositionScore(g, maxP));
    }
  }

  /** A position maxP has not won is worth less than WinScore + depth to maxP: a win found
      deeper scores a smaller depth bonus. */
  lemma NotWonBelow(g: Position, depth: int, player: Player, maxP: Player)
    requires 0 <= depth && Winner(g) != maxP
    ensures MinimaxValue(GameTree(g, depth, player, maxP)) < WinScore + depth
  {
    if Winner(g) != None || Full(g) || depth == 0 {
      LeafBelow(g, depth, player, maxP);
    } else {
      NodeWithin(g, depth, player, maxP, WinScore + depth - 1);
      BoundedValue(GameTree(g, depth, player, maxP), WinScore + depth - 1);
    }
  }

  /** Any move that does not win at once is worth less to the root search. */
  lemma NonWinningMoveValue(g: Position, col: int, player: Player, maxDepth: int)
    requires 1 <= maxDepth && Legal(g, col) && !WinsAtOnce(g, col, player)
    ensures MoveValue(g, col, player, maxDepth) < WinScore + maxDepth - 1
  {
    NotWonBelow(Next(g, col, player), maxDepth - 1, Opponent(player), player);
  }

  /** SelectMove plays the lowest column that wins at once, whenever there is one. */
  lemma FirstWinningMoveChosen(g: Position, col: int, player: Player, maxDepth: int)
    requires player != None && 1 <= maxDepth && Int32(maxDepth)
    requires WinsAtOnce(g, col, player)
    requires forall c :: 0 <= c < col ==> !WinsAtOnce(g, c, player)
    ensures BestMove(g, player, maxDepth) == col
  {
    BestMoveOptimal(g, player, maxDepth);
    var best := BestMove(g, player, maxDepth);
    WinningMoveValue(g, col, player, maxDepth);
    if !WinsAtOnce(g, best, player) {
      NonWinningMoveValue(g, best, player, maxDepth);
      assert false;
    }
    WinningMoveValue(g, best, player, maxDepth);
  }

  // ---------------------------------------------------------------------------
  // The position of the minimax test: three in a row on the bottom line
  // ---------------------------------------------------------------------------

  /** PLAYER1's pieces in columns 0, 1 and 2 of the bottom row, as MakeMove leaves them. */
  function ThreeInARow(): (g: Position)
    ensures g.heights == [1, 1, 1, 0, 0, 0, 0]
  {
    var g1 := Play(EmptyPosition(), 0, Player1);
    var g2 := Play(g1, 1, Player1);
    Play(g2, 2, Player1)
  }

  /** CheckWinner visits only vertical or diagonal windows, which go up, and horizontal
      windows, which go right. */
  lemma ScanDirections(k: int)
    requires 0 <= k < |ScanOrder()|
    ensures ScanOrder()[k].dRow == 1 || (ScanOrder()[k].dRow == 0 && ScanOrder()[k].dCol == 1)
  {
    var h, v, r := HorizontalScan(), VerticalScan(), DownRightScan();
    if k < 24 {
      assert ScanOrder()[k] == h[k];
    } else if k < 45 {
      assert ScanOrder()[k] == v[k - 24];
    } else if k < 57 {
      assert ScanOrder()[k] == r[k - 45];
    } else {
      assert ScanOrder()[k] == DownLeftScan()[k - 57];
    }
  }

  /** A board whose pieces lie in the bottom row of columns 0..2 and one above in column c0
      holds no four in a row. */
  lemma NoLineLow(h: Position, c0: int)
    requires 0 <= c0 < 3
    requires forall c :: 0 <= c < Cols ==> h.heights[c] <= (if c == c0 then 2 else if c < 3 then 1 else 0)
    ensures Winner(h) == None
  {
    FirstWinnerSpec(h, ScanOrder());
    forall k | 0 <= k < |ScanOrder()|
      ensures !LineAt(h, ScanOrder()[k])
    {
      var w := ScanOrder()[k];
      ScanDirections(k);
      if w.dRow == 1 {
        assert !(Cell(h, w.row, w.col) != None && InLine(h, w, 2));
      } else {
        assert !(Cell(h, w.row, w.col) != None && InLine(h, w, 1) && InLine(h, w, 3));
      }
    }
  }

  /** After PLAYER1 plays column 3, the bottom row holds PLAYER1 in columns 0..3 and
      nothing else is on the board. */
  lemma FourInTheRow()
    ensures var h := Play(ThreeInARow(), 3, Player1);
      h.heights == [1, 1, 1, 1, 0, 0, 0] && forall c :: 0 <= c < 4 ==> Cell(h, 0, c) == Player1
  {
    var g1 := Play(EmptyPosition(), 0, Player1);
    var g2 := Play(g1, 1, Player1);
    var g := Play(g2, 2, Player1);
    PlayFrame(g1, 1, Player1);
    PlayFrame(g2, 2, Player1);
    PlayFrame(g, 3, Player1);
  }

  /** On a board holding only p's pieces, CheckWinner finds p or nobody. */
  lemma OnlyPieces(h: Position, p: Player)
    requires forall r, c :: OnBoard(r, c) && Cell(h, r, c) != None ==> Cell(h, r, c) == p
    ensures Winner(h) == None || Winner(h) == p
  {
    if Winner(h) != None {
      WinnerSound(h);
    }
  }

  /** After PLAYER1 plays column 3, the bottom row is a line. */
  lemma FourInTheRowLine()
    ensures LineAt(Play(ThreeInARow(), 3, Player1), Window(0, 0, 0, 1))
  {
    var h := Play(ThreeInARow(), 3, Player1);
    FourInTheRow();
    var w := Window(0, 0, 0, 1);
    assert InLine(h, w, 1) && InLine(h, w, 2) && InLine(h, w, 3);
  }

  /** After PLAYER1 plays column 3, the only pieces are PLAYER1's. */
  lemma FourInTheRowAlone()
    ensures var h := Play(ThreeInARow(), 3, Player1);
      forall r, c :: OnBoard(r, c) && Cell(h, r, c) != None ==> Cell(h, r, c) == Player1
  {
    var h := Play(ThreeInARow(), 3, Player1);
    FourInTheRow();
    forall r, c | OnBoard(r, c) && Cell(h, r, c) != None
      ensures Cell(h, r, c) == Player1
    {
      assert r < h.heights[c];
    }
  }

  /** Column 3 completes the row for PLAYER1. */
  lemma ThreeInARowWins()
    ensures WinsAtOnce(ThreeInARow(), 3, Player1)
  {
    var h := Play(ThreeInARow(), 3, Player1);
    FourInTheRowLine();
    FourInTheRowAlone();
    WinnerComplete(h, Window(0, 0, 0, 1));
    OnlyPieces(h, Player1);
  }

  /** The test of MinimaxAI with depth 4: from three PLAYER1 pieces in columns 0..2 of the
      bottom row, PLAYER1 to move, SelectMove plays column 3. */
  lemma ThreeInARowChosen()
    ensures BestMove(ThreeInARow(), Player1, 4) == 3
  {
    var g := ThreeInARow();
    forall c | 0 <= c < 3
      ensures !WinsAtOnce(g, c, Player1)
    {
      NoLineLow(Play(g, c, Player1), c);
    }
    ThreeInARowWins();
    FirstWinningMoveChosen(g, 3, Player1, 4);
  }

  // ---------------------------------------------------------------------------
  // The player object
  // ---------------------------------------------------------------------------

  class MinimaxAI {
    const maxDepth: int
    /** The nodes the last SelectMove evaluated (MinimaxAI::GetNodesEvaluated). */
    var nodesEvaluated: int

    /** MinimaxAI(depth); the default depth is 7. */
    constructor (depth: int)
      ensures maxDepth == depth
    {
      maxDepth := depth;
    }

    /** MinimaxAI::SelectMove: search every legal move on a copy of the board and keep the
        first one of strictly largest value; -1 when the board has no legal move. */
    method SelectMove(board: Board, player: Player) returns (move: int)
      requires board.Valid()
      modifies this
      ensures move == BestMove(board.Value(), player, maxDepth)
      ensures nodesEvaluated == SelectNodes(board.Value(), player, maxDepth)
    {
      nodesEvaluated := 0;
      var validMoves := board.GetValidMoves();
      if |validMoves| == 0 {
        return -1;
      }
      var copy := new Board.Copy(board);
      var opponent := if player == Player1 then Player2 else Player1;
      LegalMovesAreLegal(board.Value());
      ghost var ts := RootTrees(board.Value(), validMoves, player, maxDepth);
      move := ScanMoves(copy, ts, validMoves, player, opponent);
    }

    /** SelectMove's loop over the legal moves. */
    method ScanMoves(board: Board, ghost ts: seq<Tree>, moves: seq<int>, player: Player, opponent: Player)
      returns (move: int)
      requires board.Valid() && AllLegal(board.Value(), moves) && opponent == Opponent(player)
      requires |ts| == |moves| > 0
      requires forall k {:trigger Child(board.Value(), moves[k], player, maxDepth - 1, player)} :: 0 <= k < |moves| ==>
        ts[k] == Child(board.Value(), moves[k], player, maxDepth - 1, player)
      modifies this, board.cells, board.heights
      ensures move == moves[ScanFrom(ts, 0, 0, -Infinity)]
      ensures nodesEvaluated == old(nodesEvaluated) + NodesFrom(ts, 0)
    {
      ghost var g := board.Value();
      var bestMove := moves[0];
      var bestValue := -Infinity;
      ghost var best := 0;
      for i := 0 to |moves|
        invariant board.Valid() && board.Value() == g
        invariant 0 <= best < |moves| && bestMove == moves[best]
        invariant ScanFrom(ts, 0, 0, -Infinity) == ScanFrom(ts, i, best, bestValue)
        invariant old(nodesEvaluated) + NodesFrom(ts, 0) == nodesEvaluated + NodesFrom(ts, i)
      {
        var col := moves[i];
        var value := ChildSearch(board, ts[i], col, maxDepth - 1, -Infinity, Infinity, player, opponent, player);
        if value > bestValue {
          bestValue := value;
          bestMove := col;
          best := i;
        }
      }
      move := bestMove;
    }

    /** MinimaxAI::Minimax: fail-soft alpha-beta search that counts every node it visits. */
    method Minimax(board: Board, depth: int, alpha: int, beta: int, player: Player, maxP: Player)
      returns (value: int)
      requires board.Valid()
      modifies this, board.cells, board.heights
      ensures board.Valid() && board.Value() == old(board.Value())
      ensures value == AlphaBeta(GameTree(old(board.Value()), depth, player, maxP), alpha, beta).value
      ensures nodesEvaluated == old(nodesEvaluated) + AlphaBeta(GameTree(old(board.Value()), depth, player, maxP), alpha, beta).nodes
      decreases FreeSlots(board.Value()), 3
    {
      nodesEvaluated := nodesEvaluated + 1;
      var winner := board.CheckWinner();
      if winner != None {
        return if winner == maxP then WinScore + depth else -WinScore - depth;
      }
      var full := board.IsFull();
      if full {
        return 0;
      }
      if depth == 0 {
        value := EvaluatePosition(board.Value(), maxP);
        return;
      }
      value := SearchChildren(board, depth, alpha, beta, player, maxP);
    }

    /** The rest of MinimaxAI::Minimax once the position is neither decided nor at the
        depth limit: search every legal move with the side to move maximising or minimising. */
    method SearchChildren(board: Board, depth: int, alpha: int, beta: int, player: Player, maxP: Player)
      returns (value: int)
      requires board.Valid() && Winner(board.Value()) == None && !Full(board.Value()) && depth != 0
      modifies this, board.cells, board.heights
      ensures board.Valid() && board.Value() == old(board.Value())
      ensures value == AlphaBeta(GameTree(old(board.Value()), depth, player, maxP), alpha, beta).value
      ensures nodesEvaluated + 1 == old(nodesEvaluated) + AlphaBeta(GameTree(old(board.Value()), depth, player, maxP), alpha, beta).nodes
      decreases FreeSlots(board.Value()), 2
    {
      var validMoves := board.GetValidMoves();
      var opponent := if player == Player1 then Player2 else Player1;
      GameTreeNode(board.Value(), depth, player, maxP);
      ghost var t := GameTree(board.Value(), depth, player, maxP);
      if player == maxP {
        value := MaxSearch(board, t, validMoves, depth, alpha, beta, player, opponent, maxP);
      } else {
        value := MinSearch(board, t, validMoves, depth, alpha, beta, player, opponent, maxP);
      }
    }

    /** The maximising branch of MinimaxAI::Minimax. */
    method MaxSearch(board: Board, ghost t: Tree, moves: seq<int>, depth: int, alpha: int, beta: int,
                     player: Player, opponent: Player, maxP: Player) returns (value: int)
      requires board.Valid() && AllLegal(board.Value(), moves) && opponent == Opponent(player)
      requires t.Node? && |t.children| == |moves|
      requires forall k {:trigger Child(board.Value(), moves[k], player, depth - 1, maxP)} :: 0 <= k < |moves| ==>
        t.children[k] == Child(board.Value(), moves[k], player, depth - 1, maxP)
      modifies this, board.cells, board.heights
      ensures board.Valid() && board.Value() == old(board.Value())
      ensures value == MaxLoop(t, 0, alpha, beta, -Infinity).value
      ensures nodesEvaluated == old(nodesEvaluated) + MaxLoop(t, 0, alpha, beta, -Infinity).nodes
      decreases FreeSlots(board.Value()), 1
    {
      ghost var g := board.Value();
      var maxEval := -Infinity;
      var a := alpha;
      var i := 0;
      while i < |moves|
        invariant 0 <= i <= |moves|
        invariant board.Valid() && board.Value() == g
        invariant MaxLoop(t, 0, alpha, beta, -Infinity).value == MaxLoop(t, i, a, beta, maxEval).value
        invariant old(nodesEvaluated) + MaxLoop(t, 0, alpha, beta, -Infinity).nodes
               == nodesEvaluated + MaxLoop(t, i, a, beta, maxEval).nodes
        decreases |moves| - i
      {
        ghost var a0, m0, n0 := a, maxEval, nodesEvaluated;
        var eval := ChildSearch(board, t.children[i], moves[i], depth - 1, a, beta, player, opponent, maxP);
        maxEval := Max(maxEval, eval);
        a := Max(a, eval);
        if beta <= a {
          assert MaxLoop(t, i, a0, beta, m0) == Search(maxEval, nodesEvaluated - n0);
          break;
        }
        i := i + 1;
      }
      value := maxEval;
    }

    /** The minimising branch of MinimaxAI::Minimax. */
    method MinSearch(board: Board, ghost t: Tree, moves: seq<int>, depth: int, alpha: int, beta: int,
                     player: Player, opponent: Player, maxP: Player) returns (value: int)
      requires board.Valid() && AllLegal(board.Value(), moves) && opponent == Opponent(player)
      requires t.Node? && |t.children| == |moves|
      requires forall k {:trigger Child(board.Value(), moves[k], player, depth - 1, maxP)} :: 0 <= k < |moves| ==>
        t.children[k] == Child(board.Value(), moves[k], player, depth - 1, maxP)
      modifies this, board.cells, board.heights
      ensures board.Valid() && board.Value() == old(board.Value())
      ensures value == MinLoop(t, 0, alpha, beta, Infinity).value
      ensures nodesEvaluated == old(nodesEvaluated) + MinLoop(t, 0, alpha, beta, Infinity).nodes
      decreases FreeSlots(board.Value()), 1
    {
      ghost var g := board.Value();
      var minEval := Infinity;
      var b := beta;
      var i := 0;
      while i < |moves|
        invariant 0 <= i <= |moves|
        invariant board.Valid() && board.Value() == g
        invariant MinLoop(t, 0, alpha, beta, Infinity).value == MinLoop(t, i, alpha, b, minEval).value
        invariant old(nodesEvaluated) + MinLoop(t, 0, alpha, beta, Infinity).nodes
               == nodesEvaluated + MinLoop(t, i, alpha, b, minEval).nodes
        decreases |moves| - i
      {
        var eval := ChildSearch(board, t.children[i], moves[i], depth - 1, alpha, b, player, opponent, maxP);
        minEval := Min(minEval, eval);
        b := Min(b, eval);
        if b <= alpha {
          break;
        }
        i := i + 1;
      }
      value := minEval;
    }

    /** Make the move, search the position below it, undo the move. */
    method ChildSearch(board: Board, ghost t: Tree, col: int, depth: int, alpha: int, beta: int,
                       player: Player, opponent: Player, maxP: Player) returns (eval: int)
      requires board.Valid() && Legal(board.Value(), col) && opponent == Opponent(player)
      requires t == Child(board.Value(), col, player, depth, maxP)
      modifies this, board.cells, board.heights
      ensures board.Valid() && board.Value() == old(board.Value())
      ensures eval == AlphaBeta(t, alpha, beta).value
      ensures nodesEvaluated == old(nodesEvaluated) + AlphaBeta(t, alpha, beta).nodes
      decreases FreeSlots(board.Value()), 0
    {
      ghost var g := board.Value();
      var ok := board.MakeMove(col, player);
      eval := Minimax(board, depth, alpha, beta, opponent, maxP);
      board.UndoMove(col);
      UndoAfterPlay(g, col, player);
    }
  }
}
