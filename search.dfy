/** The MCTS class of ConnectFour/mcts.cpp: the search tree as an arena of nodes, with its
    four phases and the readers of the root.  Every method is proved against the functions
    of module Mcts, and each phase keeps the tree linked and every node expanded at most
    once (Valid). */
module MctsSearch {
  import opened GameBoard
  import opened Sums
  import opened Priors
  import opened Choice
  import opened Mcts

  /** The index of the root child with the most visits, the first one on a tie: the
      "strictly more than the best so far" scan of MCTS::SelectBestMove, from -1. */
  function BestChild(visits: seq<nat>, cs: seq<nat>): (k: int)
    requires forall k :: 0 <= k < |cs| ==> cs[k] < |visits|
    requires cs != []
    ensures IsFirstMax(ChildVisitList(visits, cs), k)
  {
    var vs := ChildVisitList(visits, cs);
    FirstMaxFound(vs, -1, -1);
    FirstMaxFrom(vs, 0, -1, -1)
  }

  /** MCTS::Expansion on the arena once the priors are known: record them at node i, whose
      board is g, then append one child per legal column, in column order, with its board,
      the column's prior, no visits and no value. */
  method ExpandAt(nodes: seq<Node>, boards: seq<Position>, visits: seq<nat>, values: seq<real>,
                  g: Position, i: int, priors: seq<real>)
    returns (ns: seq<Node>, bs: seq<Position>, vs: seq<nat>, tv: seq<real>)
    requires 0 <= i < |nodes| && |priors| == Cols
    ensures ns == Expanded(nodes, g, i, priors)
    ensures bs == boards + ChildBoards(g, nodes[i].player)
    ensures vs == visits + seq(|LegalMoves(g)|, _ => 0)
    ensures tv == values + seq(|LegalMoves(g)|, _ => 0.0)
  {
    var player := nodes[i].player;
    ghost var start := nodes[i := nodes[i].(priorProbabilities := priors)];
    ghost var kids := ChildrenAt(player, g, i, priors);
    ghost var more := ChildBoards(g, player);
    var validMoves := LegalMoves(g);
    MovesLegal(g);
    ns := nodes[i := nodes[i].(priorProbabilities := priors)];
    bs, vs, tv := boards, visits, values;
    for m := 0 to |validMoves|
      invariant ns == Appended(start, i, kids, m)
      invariant bs == boards + more[..m]
      invariant vs == visits + seq(m, _ => 0)
      invariant tv == values + seq(m, _ => 0.0)
    {
      var col := validMoves[m];
      var childBoard := Play(g, col, player);
      var child := NewNode(Opponent(player), col, i, priors[col]);
      AddChildStep(start, boards, visits, values, g, i, player, priors, m, col, child, childBoard);
      ns := AddChild(ns, i, child);
      bs := bs + [childBoard];
      vs := vs + [0];
      tv := tv + [0.0];
    }
    assert more[..|validMoves|] == more;
  }

  /** One iteration of the loop of ExpandAt appends the next child, board, visit count and value. */
  lemma AddChildStep(nodes: seq<Node>, boards: seq<Position>, visits: seq<nat>, values: seq<real>,
                     g: Position, i: int, player: Player, priors: seq<real>, m: nat,
                     col: int, child: Node, childBoard: Position)
    requires 0 <= i < |nodes| && |priors| == Cols && m < |LegalMoves(g)| && col == LegalMoves(g)[m]
    requires Legal(g, col)
    requires child == NewNode(Opponent(player), col, i, priors[col]) && childBoard == Play(g, col, player)
    ensures AddChild(Appended(nodes, i, ChildrenAt(player, g, i, priors), m), i, child) ==
      Appended(nodes, i, ChildrenAt(player, g, i, priors), m + 1)
    ensures boards + ChildBoards(g, player)[..m] + [childBoard] == boards + ChildBoards(g, player)[..m + 1]
    ensures visits + seq(m, _ => 0) + [0] == visits + seq(m + 1, _ => 0)
    ensures values + seq(m, _ => 0.0) + [0.0] == values + seq(m + 1, _ => 0.0)
  {
    assert child == ChildrenAt(player, g, i, priors)[m];
    assert childBoard == ChildBoards(g, player)[m];
    AppendTake(boards, ChildBoards(g, player), m);
    AppendConstant(visits, m, 0);
    AppendConstant(values, m, 0.0);
  }

  lemma AppendTake<T>(a: seq<T>, s: seq<T>, m: nat)
    requires m < |s|
    ensures a + s[..m] + [s[m]] == a + s[..m + 1]
  {
    assert s[..m + 1] == s[..m] + [s[m]];
  }

  lemma AppendConstant<T>(a: seq<T>, m: nat, x: T)
    ensures a + seq(m, _ => x) + [x] == a + seq(m + 1, _ => x)
  {
    assert seq(m + 1, _ => x) == seq(m, _ => x) + [x];
  }

  /** The inner loop of MCTS::Selection at node r: the first child with the highest score,
      where the scan starts from minus infinity. */
  method BestScoring(nodes: seq<Node>, visits: seq<nat>, values: seq<real>,
                     score: (real, real, nat, nat) -> real, r: int) returns (bestChild: int)
    requires Linked(nodes) && |visits| == |nodes| && |values| == |nodes| && 0 <= r < |nodes|
    requires nodes[r].children != []
    ensures bestChild == nodes[r].children[FirstBest(ChildScores(nodes, visits, values, score, r))]
  {
    var cs := nodes[r].children;
    ghost var vals := ChildScores(nodes, visits, values, score, r);
    bestChild := -1;
    var bestUCB := 0.0;
    ghost var best := 0;
    for k := 0 to |cs|
      invariant k == 0 ==> bestChild == -1
      invariant k > 0 ==> best < k && bestChild == cs[best] && bestUCB == vals[best]
      invariant k > 0 ==> FirstBestFrom(vals, k, best) == FirstBest(vals)
    {
      var child := cs[k];
      var ucb := score(QValue(visits[child], values[child]), nodes[child].prior, visits[child], visits[r]);
      assert ucb == vals[k];
      if bestChild < 0 || ucb > bestUCB {
        bestUCB := ucb;
        bestChild := child;
        best := k;
      }
    }
  }

  /** The loop of MCTS::GetVisitCounts over the children cs of the root. */
  method CountVisits(nodes: seq<Node>, visits: seq<nat>, cs: seq<nat>) returns (counts: seq<int>)
    requires forall k :: 0 <= k < |cs| ==> cs[k] < |nodes| && cs[k] < |visits| && 0 <= nodes[cs[k]].move < Cols
    ensures counts == Tally(ChildMoves(nodes, cs), ChildVisitList(visits, cs), |cs|)
  {
    ghost var moves, vs := ChildMoves(nodes, cs), ChildVisitList(visits, cs);
    counts := seq(Cols, _ => 0);
    for k := 0 to |cs|
      invariant counts == Tally(moves, vs, k)
    {
      var child := cs[k];
      counts := counts[nodes[child].move := visits[child]];
    }
  }

  /** The loop of MCTS::SelectBestMove over the children cs of the root: the move of the
      first child with the most visits, where the scan starts from -1 visits. */
  method MostVisited(nodes: seq<Node>, visits: seq<nat>, cs: seq<nat>) returns (bestMove: int)
    requires forall k :: 0 <= k < |cs| ==> cs[k] < |nodes| && cs[k] < |visits|
    requires cs != []
    ensures bestMove == nodes[cs[BestChild(visits, cs)]].move
  {
    ghost var vs := ChildVisitList(visits, cs);
    bestMove := -1;
    var maxVisits: int := -1;
    ghost var best := -1;
    for k := 0 to |cs|
      invariant k == 0 ==> best == -1 && maxVisits == -1
      invariant k > 0 ==> 0 <= best < k && maxVisits == vs[best] && bestMove == nodes[cs[best]].move
      invariant FirstMaxFrom(vs, k, best, maxVisits) == FirstMaxFrom(vs, 0, -1, -1)
    {
      var child := cs[k];
      if visits[child] > maxVisits {
        maxVisits := visits[child];
        bestMove := nodes[child].move;
        best := k;
      }
    }
  }

  class Search {
    /** The network's EvaluatePosition, as a function of the board and the player to move. */
    const evaluate: (Position, Player) -> Evaluation
    /** MCTSNode::GetUCB as a function of the child's Q value, its prior, its visits and its
        parent's visits; explorationConstant is part of it. */
    const score: (real, real, nat, nat) -> real
    var nodes: seq<Node>
    var boards: seq<Position>
    var visits: seq<nat>
    var totalValues: seq<real>

    ghost predicate Valid()
      reads this
    {
      |boards| == |nodes| && |visits| == |nodes| && |totalValues| == |nodes| &&
      Linked(nodes) && Expansions(nodes, boards)
    }

    /** MCTS::MCTS: no tree yet. */
    constructor (evaluate: (Position, Player) -> Evaluation, score: (real, real, nat, nat) -> real)
      ensures Valid() && nodes == []
      ensures this.evaluate == evaluate && this.score == score
    {
      this.evaluate := evaluate;
      this.score := score;
      nodes, boards, visits, totalValues := [], [], [], [];
    }

    /** MCTS::Backpropagation: one more visit and value, with alternating signs, for every
        node from node up to the root. */
    method Backpropagation(node: int, value: real)
      requires Valid() && 0 <= node < |nodes|
      modifies this
      ensures nodes == old(nodes) && boards == old(boards)
      ensures visits == VisitsAfter(nodes, old(visits), node)
      ensures totalValues == ValuesAfter(nodes, old(totalValues), node, value)
      ensures Valid()
    {
      var vs, tv := visits, totalValues;
      var n, v := node, value;
      while n >= 0
        invariant |vs| == |nodes| && |tv| == |nodes| && n < |nodes|
        invariant n >= 0 ==> VisitsAfter(nodes, vs, n) == VisitsAfter(nodes, visits, node)
        invariant n >= 0 ==> ValuesAfter(nodes, tv, n, v) == ValuesAfter(nodes, totalValues, node, value)
        invariant n < 0 ==> vs == VisitsAfter(nodes, visits, node) && tv == ValuesAfter(nodes, totalValues, node, value)
        decreases n + 1
      {
        vs := vs[n := vs[n] + 1];
        tv := tv[n := tv[n] + v];
        v := -v;
        n := nodes[n].parent;
      }
      visits, totalValues := vs, tv;
    }

    /** MCTS::Selection: from start, move to the best-scoring child while the node is fully
        expanded and its game is not over. */
    method Selection(start: int) returns (r: int)
      requires Valid() && 0 <= start < |nodes|
      ensures r == Selected(nodes, boards, visits, totalValues, score, start)
    {
      r := start;
      while FullyExpanded(nodes[r], boards[r]) && !GameOver(boards[r])
        invariant start <= r < |nodes|
        invariant Selected(nodes, boards, visits, totalValues, score, r) == Selected(nodes, boards, visits, totalValues, score, start)
        decreases |nodes| - r
      {
        var bestChild := BestScoring(nodes, visits, totalValues, score, r);
        r := bestChild;
      }
    }

    /** MCTS::Expansion: unless the game is over, record the evaluator's priors at node i and
        append one child per legal column, in column order, each with its board, its prior
        and no visits. */
    method Expansion(i: int)
      requires Valid() && 0 <= i < |nodes|
      modifies this
      ensures GameOver(old(boards)[i]) ==>
        nodes == old(nodes) && boards == old(boards) && visits == old(visits) && totalValues == old(totalValues)
      ensures !GameOver(old(boards)[i]) ==>
        var g := old(boards)[i];
        var player := old(nodes)[i].player;
        nodes == Expanded(old(nodes), g, i, evaluate(g, player).0) &&
        boards == old(boards) + ChildBoards(g, player) &&
        visits == old(visits) + seq(|LegalMoves(g)|, _ => 0) &&
        totalValues == old(totalValues) + seq(|LegalMoves(g)|, _ => 0.0)
      ensures |boards| == |nodes| && |visits| == |nodes| && |totalValues| == |nodes| && Linked(nodes)
      ensures old(nodes)[i].children == [] ==> Valid()
    {
      var g := boards[i];
      if GameOver(g) {
        return;
      }
      var player := nodes[i].player;
      var priors := evaluate(g, player).0;
      ExpandedValid(nodes, boards, i, priors, player);
      var ns, bs, vs, tv := ExpandAt(nodes, boards, visits, totalValues, g, i, priors);
      nodes, boards, visits, totalValues := ns, bs, vs, tv;
    }

    /** MCTS::Simulation: the result of a decided game for the root player, or the
        evaluator's value turned to the root player's point of view. */
    method Simulation(i: int) returns (v: real)
      requires Valid() && 0 <= i < |nodes|
      ensures v == SimulationValue(nodes, boards, evaluate, i)
    {
      var g := boards[i];
      var winner := Winner(g);
      if winner != None {
        var current := i;
        while nodes[current].parent >= 0
          invariant 0 <= current <= i && Top(nodes, current) == Top(nodes, i)
          decreases current
        {
          current := nodes[current].parent;
        }
        if winner == nodes[current].player {
          return 1.0;
        } else {
          return -1.0;
        }
      }
      if Full(g) {
        return 0.0;
      }
      var value := evaluate(g, nodes[i].player).1;
      var current := i;
      var depth := 0;
      while nodes[current].parent >= 0
        invariant 0 <= current <= i && depth + Depth(nodes, current) == Depth(nodes, i)
        decreases current
      {
        current := nodes[current].parent;
        depth := depth + 1;
      }
      if depth % 2 == 1 {
        value := -value;
      }
      return value;
    }

    /** The first half of one pass of the loops of MCTS::SearchSimulations and
        MCTS::SearchTime: select a node, and if its game goes on and it has been visited,
        expand it and continue from its first child.  The root has been expanded before, so
        below an undecided root the node is never the root. */
    method Descend() returns (node: int)
      requires Valid() && |nodes| > 0 && (GameOver(boards[0]) || nodes[0].children != [])
      modifies this
      ensures Valid() && 0 <= node < |nodes| && nodes[0] == old(nodes[0]) && boards[0] == old(boards[0])
      ensures visits[0] == old(visits[0])
      ensures ChildVisits(visits, nodes[0].children) == ChildVisits(old(visits), nodes[0].children)
      ensures GameOver(boards[0]) ==> node == 0 && nodes == old(nodes)
      ensures !GameOver(boards[0]) ==> node > 0
    {
      ExpandedFully(nodes, boards, 0);
      node := Selection(0);
      SelectedSpec(nodes, boards, visits, totalValues, score, 0);
      if !GameOver(boards[node]) && visits[node] > 0 {
        ExpandedFully(nodes, boards, node);
        node := ExpandVisited(node);
      }
    }

    /** The expansion step of Descend: expand the unexpanded leaf node below the root and
        continue from its first child, if it got one. */
    method ExpandVisited(node: int) returns (next: int)
      requires Valid() && 0 < node < |nodes| && !GameOver(boards[node]) && nodes[node].children == []
      modifies this
      ensures Valid() && 0 < next < |nodes| && nodes[0] == old(nodes[0]) && boards[0] == old(boards[0])
      ensures visits[0] == old(visits[0])
      ensures ChildVisits(visits, nodes[0].children) == ChildVisits(old(visits), nodes[0].children)
    {
      ghost var n1, b1, v1 := nodes, boards, visits;
      Expansion(node);
      ExpandedKeeps(n1, b1[node], node, evaluate(b1[node], n1[node].player).0, 0);
      ChildVisitsExtend(v1, seq(|LegalMoves(b1[node])|, _ => 0), n1[0].children);
      next := node;
      if nodes[node].children != [] {
        next := nodes[node].children[0];
      }
    }

    /** One pass of the loops of MCTS::SearchSimulations and MCTS::SearchTime: descend,
        simulate, back the value up.  The root gets one more visit, and below an undecided
        root exactly one of its children does too. */
    method Iterate()
      requires Valid() && |nodes| > 0 && (GameOver(boards[0]) || nodes[0].children != [])
      modifies this
      ensures Valid() && |nodes| > 0 && nodes[0] == old(nodes[0]) && boards[0] == old(boards[0])
      ensures visits[0] == old(visits[0]) + 1
      ensures !GameOver(boards[0]) ==>
        ChildVisits(visits, nodes[0].children) == ChildVisits(old(visits), nodes[0].children) + 1
      ensures GameOver(boards[0]) ==> nodes == old(nodes)
    {
      var node := Descend();
      var value := Simulation(node);
      ghost var v2 := visits;
      Backpropagation(node, value);
      TopIsRoot(nodes, node);
      VisitsAfterAt(nodes, v2, node, 0);
      if node > 0 {
        VisitsAfterRoot(nodes, v2, node);
      }
    }
 
    /** The start of MCTS::SearchSimulations and MCTS::SearchTime: a fresh root for
        rootBoard and rootPlayer (move -1, no parent, prior 1), expanded at once.  An
        undecided root gets one unvisited child per legal move and the evaluator's priors; a
        decided one stays alone. */
    method Start(rootBoard: Position, rootPlayer: Player)
      modifies this
      ensures Valid() && |nodes| > 0 && boards[0] == rootBoard && visits[0] == 0
      ensures nodes[0].player == rootPlayer && nodes[0].move == -1 && nodes[0].parent == -1 && nodes[0].prior == 1.0
      ensures GameOver(rootBoard) ==> |nodes| == 1 && nodes[0].children == []
      ensures !GameOver(rootBoard) ==>
        nodes[0].children != [] && nodes[0].priorProbabilities == evaluate(rootBoard, rootPlayer).0 &&
        ChildVisits(visits, nodes[0].children) == 0
    {
      var root := NewNode(rootPlayer, -1, -1, 1.0);
      SingleRoot(root, rootBoard);
      nodes, boards, visits, totalValues := [root], [rootBoard], [0], [0.0];
      Expansion(0);
      assert Valid();
      if !GameOver(rootBoard) {
        ghost var priors := evaluate(rootBoard, rootPlayer).0;
        assert nodes == Expanded([root], rootBoard, 0, priors);
        assert visits == [0] + seq(|LegalMoves(rootBoard)|, _ => 0);
        RootStarted(root, rootBoard, priors, visits);
        ChildVisitsZero(visits, nodes[0].children);
      }
    }

    /** MCTS::SearchSimulations: Start, then numSimulations passes.  The root ends with one
        visit per pass, and the visits of an undecided root's children, one per legal move
        in order, add up to the root's. */
    method SearchSimulations(rootBoard: Position, rootPlayer: Player, numSimulations: int)
      modifies this
      ensures Valid() && |nodes| > 0 && boards[0] == rootBoard
      ensures nodes[0].player == rootPlayer && nodes[0].move == -1 && nodes[0].parent == -1 && nodes[0].prior == 1.0
      ensures visits[0] == if numSimulations > 0 then numSimulations else 0
      ensures GameOver(rootBoard) ==> |nodes| == 1 && nodes[0].children == []
      ensures !GameOver(rootBoard) ==>
        nodes[0].children != [] && nodes[0].priorProbabilities == evaluate(rootBoard, rootPlayer).0 &&
        ChildMoves(nodes, nodes[0].children) == LegalMoves(rootBoard) &&
        ChildVisits(visits, nodes[0].children) == visits[0]
    {
      Start(rootBoard, rootPlayer);
      ghost var top := nodes[0];
      var i := 0;
      while i < numSimulations
        invariant Valid() && |nodes| > 0 && nodes[0] == top && boards[0] == rootBoard
        invariant top.player == rootPlayer && top.move == -1 && top.parent == -1 && top.prior == 1.0
        invariant 0 <= i && (i <= numSimulations || i == 0) && visits[0] == i
        invariant GameOver(rootBoard) ==> |nodes| == 1 && top.children == []
        invariant !GameOver(rootBoard) ==>
          top.children != [] && top.priorProbabilities == evaluate(rootBoard, rootPlayer).0 &&
          ChildVisits(visits, top.children) == i
      {
        Iterate();
        i := i + 1;
      }
      if !GameOver(rootBoard) {
        ChildMovesLegal(nodes, boards, 0);
      }
    }

    /** MCTS::GetVisitCounts: each root child's visits at its move. */
    method GetVisitCounts() returns (counts: seq<int>)
      requires Valid()
      ensures counts == VisitCounts(nodes, boards, visits)
    {
      if |nodes| == 0 {
        return seq(Cols, _ => 0);
      }
      ExpandedMoves(nodes, boards, 0);
      counts := CountVisits(nodes, visits, nodes[0].children);
    }

    /** MCTS::GetMoveProbabilities: the visit counts over their total, or all 0. */
    method GetMoveProbabilities() returns (probs: seq<real>)
      requires Valid()
      ensures probs == Probabilities(VisitCounts(nodes, boards, visits))
    {
      var counts := GetVisitCounts();
      probs := seq(Cols, _ => 0.0);
      var totalVisits := 0;
      for i := 0 to Cols
        invariant totalVisits == IntSum(counts[..i])
      {
        assert counts[..i + 1][..i] == counts[..i];
        totalVisits := totalVisits + counts[i];
      }
      assert counts[..Cols] == counts;
      if totalVisits > 0 {
        var t := totalVisits as real;
        for i := 0 to Cols
          invariant |probs| == Cols
          invariant forall j :: 0 <= j < i ==> probs[j] == counts[j] as real / t
          invariant forall j :: i <= j < Cols ==> probs[j] == 0.0
        {
          probs := probs[i := counts[i] as real / t];
        }
      }
    }

    /** MCTS::SelectBestMove: -1 without a root or without root children, otherwise the
        move of the first root child with the most visits, a legal column of the root board. */
    method SelectBestMove() returns (bestMove: int)
      requires Valid()
      ensures |nodes| == 0 || nodes[0].children == [] ==> bestMove == -1
      ensures |nodes| > 0 && nodes[0].children != [] ==>
        bestMove == nodes[nodes[0].children[BestChild(visits, nodes[0].children)]].move &&
        Legal(boards[0], bestMove)
    {
      if |nodes| == 0 || nodes[0].children == [] {
        return -1;
      }
      ExpandedMoves(nodes, boards, 0);
      bestMove := MostVisited(nodes, visits, nodes[0].children);
    }

    /** MCTS::GetRootValue: the root's Q value, 0 without a root. */
    method GetRootValue() returns (v: real)
      requires Valid()
      ensures |nodes| == 0 ==> v == 0.0
      ensures |nodes| > 0 && visits[0] == 0 ==> v == 0.0
      ensures |nodes| > 0 && visits[0] > 0 ==> v * visits[0] as real == totalValues[0]
    {
      if |nodes| == 0 {
        return 0.0;
      }
      v := QValue(visits[0], totalValues[0]);
    }
  }

  /** The move SelectBestMove picks has the largest visit count GetVisitCounts reports. */
  lemma BestMoveMostVisited(nodes: seq<Node>, boards: seq<Position>, visits: seq<nat>)
    requires Linked(nodes) && |boards| == |nodes| && |visits| == |nodes| && Expansions(nodes, boards)
    requires nodes != [] && nodes[0].children != []
    ensures var cs := nodes[0].children;
      var move := nodes[cs[BestChild(visits, cs)]].move;
      0 <= move < Cols &&
      forall c :: 0 <= c < Cols ==> VisitCounts(nodes, boards, visits)[c] <= VisitCounts(nodes, boards, visits)[move]
  {
    var cs := nodes[0].children;
    var vs := ChildVisitList(visits, cs);
    var b := BestChild(visits, cs);
    var counts := VisitCounts(nodes, boards, visits);
    VisitCountsAt(nodes, boards, visits);
    VisitCountsZero(nodes, boards, visits);
    forall c | 0 <= c < Cols
      ensures counts[c] <= counts[nodes[cs[b]].move]
    {
      if c in ChildMoves(nodes, cs) {
        var k :| 0 <= k < |cs| && ChildMoves(nodes, cs)[k] == c;
        assert vs[k] <= vs[b];
      }
    }
  }
}
