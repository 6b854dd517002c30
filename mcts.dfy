/** The Monte Carlo tree search of ConnectFour/mcts.cpp.

    The tree of MCTSNode objects is an arena: a sequence of nodes in which a node names its
    children and its parent by index, the root is entry 0 and an empty arena is "no root".
    A child is always appended after its parent, so parents have smaller indices than their
    children and every walk up or down the tree terminates.

    The evaluator is the function evaluate, and the PUCT score of MCTSNode::GetUCB is the
    function score: the search only ever compares scores and takes the first strict
    maximum.  Every MCTSNode holds its own copy of the board; the model keeps these copies,
    like the two counters Backpropagation updates, in sequences beside the nodes. */
module Mcts {
  import opened GameBoard
  import opened Sums
  import opened Priors
  import opened Choice

  /** What an evaluator returns for a position: one prior per column and a value. */
  type Evaluation = e: (seq<real>, real) | |e.0| == Cols witness (seq(7, _ => 0.0), 0.0)

  /** The links and labels of an MCTSNode; parent < 0 stands for nullptr.  Its board and
      the two fields that Backpropagation updates, visits and totalValue, are kept beside
      the nodes, in the sequences boards, visits and totalValues of the search.
      wasMirrored is never read by the search and is not modelled. */
  datatype Node = Node(player: Player, move: int, prior: real,
                       children: seq<nat>, parent: int, priorProbabilities: seq<real>)

  /** The MCTSNode constructor, apart from the board, visits = 0 and totalValue = 0. */
  function NewNode(player: Player, move: int, parent: int, prior: real): (n: Node)
    ensures n.children == [] && n.priorProbabilities == []
    ensures n.player == player && n.move == move && n.parent == parent && n.prior == prior
  {
    Node(player, move, prior, [], parent, [])
  }

  /** MCTSNode::GetQValue: the mean backed-up value, 0 before the first visit. */
  function QValue(visits: nat, totalValue: real): (q: real)
    ensures visits == 0 ==> q == 0.0
    ensures visits > 0 ==> q * visits as real == totalValue
  {
    if visits == 0 then 0.0 else totalValue / visits as real
  }

  /** MCTSNode::IsFullyExpanded, for a node n with board g. */
  predicate FullyExpanded(n: Node, g: Position) {
    GameOver(g) || (n.children != [] && |n.children| == |LegalMoves(g)|)
  }

  // ---------------------------------------------------------------------------
  // The shape of the arena
  // ---------------------------------------------------------------------------

  /** Every parent index is below its node, and only the root has none. */
  predicate ParentsBelow(nodes: seq<Node>) {
    forall i :: 0 <= i < |nodes| ==> nodes[i].parent < i && (i > 0 ==> nodes[i].parent >= 0)
  }

  /** Children come after their parent, name it as their parent, and are listed in
      increasing order. */
  predicate ChildrenAbove(nodes: seq<Node>) {
    (forall i, k :: 0 <= i < |nodes| && 0 <= k < |nodes[i].children| ==>
      i < nodes[i].children[k] < |nodes| && nodes[nodes[i].children[k]].parent == i) &&
    (forall i, k, l :: 0 <= i < |nodes| && 0 <= k < l < |nodes[i].children| ==>
      nodes[i].children[k] < nodes[i].children[l])
  }

  /** Every node other than the root is listed among its parent's children. */
  predicate ChildrenComplete(nodes: seq<Node>)
    requires ParentsBelow(nodes)
  {
    forall j :: 0 < j < |nodes| ==> j in nodes[nodes[j].parent].children
  }

  /** The pointer structure of an MCTS tree rooted at entry 0. */
  predicate Linked(nodes: seq<Node>) {
    ParentsBelow(nodes) && ChildrenAbove(nodes) && ChildrenComplete(nodes)
  }

  /** Number of parent steps from node i up to the root. */
  function Depth(nodes: seq<Node>, i: int): nat
    requires ParentsBelow(nodes) && 0 <= i < |nodes|
    decreases i
  {
    if nodes[i].parent < 0 then 0 else 1 + Depth(nodes, nodes[i].parent)
  }

  /** The node the parent walk from i ends at. */
  function Top(nodes: seq<Node>, i: int): (t: int)
    requires ParentsBelow(nodes) && 0 <= i < |nodes|
    ensures 0 <= t <= i && nodes[t].parent < 0
    decreases i
  {
    if nodes[i].parent < 0 then i else Top(nodes, nodes[i].parent)
  }

  /** j is i or one of its ancestors. */
  predicate OnPath(nodes: seq<Node>, i: int, j: int)
    requires ParentsBelow(nodes) && 0 <= i < |nodes|
    decreases i
  {
    i == j || (nodes[i].parent >= 0 && OnPath(nodes, nodes[i].parent, j))
  }

  lemma {:induction false} PathBelow(nodes: seq<Node>, i: int, j: int)
    requires ParentsBelow(nodes) && 0 <= i < |nodes| && OnPath(nodes, i, j)
    ensures 0 <= j <= i
    decreases i
  {
    if i != j {
      PathBelow(nodes, nodes[i].parent, j);
    }
  }

  /** In a linked arena the walk up from every node ends at the root. */
  lemma {:induction false} TopIsRoot(nodes: seq<Node>, i: int)
    requires Linked(nodes) && 0 <= i < |nodes|
    ensures Top(nodes, i) == 0 && OnPath(nodes, i, 0)
    decreases i
  {
    if i > 0 {
      TopIsRoot(nodes, nodes[i].parent);
    }
  }

  // ---------------------------------------------------------------------------
  // Backpropagation
  // ---------------------------------------------------------------------------

  /** The value v, negated when d is odd. */
  function Signed(v: real, d: int): (r: real)
    ensures r == v || r == -v
  {
    if d % 2 == 1 then -v else v
  }

  lemma {:induction false} SignedStep(v: real, d: int)
    ensures Signed(-v, d) == Signed(v, d + 1)
  {
  }

  /** The visit counts after Backpropagation from node i. */
  function VisitsAfter(nodes: seq<Node>, visits: seq<nat>, i: int): (r: seq<nat>)
    requires ParentsBelow(nodes) && |visits| == |nodes| && 0 <= i < |nodes|
    ensures |r| == |visits|
    decreases i
  {
    var bumped := visits[i := visits[i] + 1];
    if nodes[i].parent < 0 then bumped else VisitsAfter(nodes, bumped, nodes[i].parent)
  }

  /** The total values after Backpropagation(i, v). */
  function ValuesAfter(nodes: seq<Node>, values: seq<real>, i: int, v: real): (r: seq<real>)
    requires ParentsBelow(nodes) && |values| == |nodes| && 0 <= i < |nodes|
    ensures |r| == |values|
    decreases i
  {
    var added := values[i := values[i] + v];
    if nodes[i].parent < 0 then added else ValuesAfter(nodes, added, nodes[i].parent, -v)
  }

  /** Backpropagation gives each node on the path from i to the root one more visit and
      leaves every other count alone. */
  lemma {:induction false} VisitsAfterAt(nodes: seq<Node>, visits: seq<nat>, i: int, j: int)
    requires ParentsBelow(nodes) && |visits| == |nodes| && 0 <= i < |nodes| && 0 <= j < |nodes|
    ensures VisitsAfter(nodes, visits, i)[j] == visits[j] + if OnPath(nodes, i, j) then 1 else 0
    decreases i
  {
    var p := nodes[i].parent;
    if p >= 0 {
      VisitsAfterAt(nodes, visits[i := visits[i] + 1], p, j);
      if j == i && OnPath(nodes, p, i) {
        PathBelow(nodes, p, i);
      }
    }
  }

  /** Backpropagation adds v, -v, v, ... to the nodes on the path from i to the root, by
      their distance from i, and leaves every other value alone. */
  lemma {:induction false} ValuesAfterAt(nodes: seq<Node>, values: seq<real>, i: int, v: real, j: int)
    requires ParentsBelow(nodes) && |values| == |nodes| && 0 <= i < |nodes| && 0 <= j < |nodes|
    ensures ValuesAfter(nodes, values, i, v)[j] ==
      values[j] + if OnPath(nodes, i, j) then Signed(v, Depth(nodes, i) - Depth(nodes, j)) else 0.0
    decreases i
  {
    var p := nodes[i].parent;
    if p >= 0 {
      ValuesAfterAt(nodes, values[i := values[i] + v], p, -v, j);
      if j == i {
        if OnPath(nodes, p, i) {
          PathBelow(nodes, p, i);
        }
      } else if OnPath(nodes, p, j) {
        SignedStep(v, Depth(nodes, p) - Depth(nodes, j));
      }
    }
  }

  /** The visits of the listed nodes, added up. */
  function ChildVisits(visits: seq<nat>, cs: seq<nat>): nat
    requires forall k :: 0 <= k < |cs| ==> cs[k] < |visits|
  {
    if cs == [] then 0 else ChildVisits(visits, cs[..|cs| - 1]) + visits[cs[|cs| - 1]]
  }

  predicate Increasing(cs: seq<nat>) {
    forall k, l :: 0 <= k < l < |cs| ==> cs[k] < cs[l]
  }

  /** One more visit at j adds one to the sum over a list of distinct nodes that holds j. */
  lemma {:induction false} ChildVisitsBump(visits: seq<nat>, cs: seq<nat>, j: nat)
    requires forall k :: 0 <= k < |cs| ==> cs[k] < |visits|
    requires Increasing(cs) && j < |visits|
    ensures ChildVisits(visits[j := visits[j] + 1], cs) == ChildVisits(visits, cs) + if j in cs then 1 else 0
  {
    if cs != [] {
      var init := cs[..|cs| - 1];
      ChildVisitsBump(visits, init, j);
      assert cs == init + [cs[|cs| - 1]];
      if j in init {
        var k :| 0 <= k < |init| && init[k] == j;
        assert cs[k] < cs[|cs| - 1];
      }
    }
  }

  /** Sums over nodes that already exist do not see entries appended after them. */
  lemma {:induction false} ChildVisitsExtend(visits: seq<nat>, more: seq<nat>, cs: seq<nat>)
    requires forall k :: 0 <= k < |cs| ==> cs[k] < |visits|
    ensures ChildVisits(visits + more, cs) == ChildVisits(visits, cs)
  {
    if cs != [] {
      ChildVisitsExtend(visits, more, cs[..|cs| - 1]);
    }
  }

  /** A backpropagation that starts below the root adds one visit to the root and one to
      exactly one of its children. */
  lemma {:induction false} VisitsAfterRoot(nodes: seq<Node>, visits: seq<nat>, i: int)
    requires Linked(nodes) && |visits| == |nodes| && 0 < i < |nodes|
    ensures VisitsAfter(nodes, visits, i)[0] == visits[0] + 1
    ensures ChildVisits(VisitsAfter(nodes, visits, i), nodes[0].children) == ChildVisits(visits, nodes[0].children) + 1
    decreases i
  {
    var cs := nodes[0].children;
    var bumped := visits[i := visits[i] + 1];
    var p := nodes[i].parent;
    ChildVisitsBump(visits, cs, i);
    if p == 0 {
      assert i in cs;
      assert VisitsAfter(nodes, visits, i) == bumped[0 := bumped[0] + 1];
      ChildVisitsBump(bumped, cs, 0);
    } else {
      assert i !in cs;
      VisitsAfterRoot(nodes, bumped, p);
    }
  }

  // ---------------------------------------------------------------------------
  // Selection
  // ---------------------------------------------------------------------------

  /** The scores of node i's children: score(Q, prior, visits, visits of i), the arguments
      of MCTSNode::GetUCB. */
  function ChildScores(nodes: seq<Node>, visits: seq<nat>, values: seq<real>,
                       score: (real, real, nat, nat) -> real, i: int): (s: seq<real>)
    requires Linked(nodes) && |visits| == |nodes| && |values| == |nodes| && 0 <= i < |nodes|
    ensures |s| == |nodes[i].children|
  {
    var cs := nodes[i].children;
    seq(|cs|, k requires 0 <= k < |cs| =>
      score(QValue(visits[cs[k]], values[cs[k]]), nodes[cs[k]].prior, visits[cs[k]], visits[i]))
  }

  /** The node Selection(i) returns: descend into the best-scoring child while the node is
      fully expanded and the game is not over. */
  function Selected(nodes: seq<Node>, boards: seq<Position>, visits: seq<nat>, values: seq<real>,
                    score: (real, real, nat, nat) -> real, i: int): (r: int)
    requires Linked(nodes) && |boards| == |nodes| && |visits| == |nodes| && |values| == |nodes| && 0 <= i < |nodes|
    ensures i <= r < |nodes|
    decreases |nodes| - i
  {
    if FullyExpanded(nodes[i], boards[i]) && !GameOver(boards[i]) then
      Selected(nodes, boards, visits, values, score, nodes[i].children[FirstBest(ChildScores(nodes, visits, values, score, i))])
    else i
  }

  /** Selection stops at a node that is over or not fully expanded, below where it started,
      and it leaves a fully expanded undecided start. */
  lemma {:induction false} SelectedSpec(nodes: seq<Node>, boards: seq<Position>, visits: seq<nat>, values: seq<real>,
                                        score: (real, real, nat, nat) -> real, i: int)
    requires Linked(nodes) && |boards| == |nodes| && |visits| == |nodes| && |values| == |nodes| && 0 <= i < |nodes|
    ensures var r := Selected(nodes, boards, visits, values, score, i);
      (GameOver(boards[r]) || !FullyExpanded(nodes[r], boards[r])) && OnPath(nodes, r, i) &&
      (FullyExpanded(nodes[i], boards[i]) && !GameOver(boards[i]) ==> r > i)
    decreases |nodes| - i
  {
    if FullyExpanded(nodes[i], boards[i]) && !GameOver(boards[i]) {
      var c := nodes[i].children[FirstBest(ChildScores(nodes, visits, values, score, i))];
      SelectedSpec(nodes, boards, visits, values, score, c);
      PathThrough(nodes, Selected(nodes, boards, visits, values, score, c), c, i);
    }
  }

  /** An ancestor of the parent is an ancestor. */
  lemma {:induction false} PathThrough(nodes: seq<Node>, r: int, c: int, i: int)
    requires ParentsBelow(nodes) && 0 <= r < |nodes| && 0 <= c < |nodes|
    requires OnPath(nodes, r, c) && nodes[c].parent == i && i >= 0
    ensures OnPath(nodes, r, i)
    decreases r
  {
    if r != c {
      PathThrough(nodes, nodes[r].parent, c, i);
    }
  }

  // ---------------------------------------------------------------------------
  // Expansion
  // ---------------------------------------------------------------------------

  /** Appends child as the next child of node i. */
  function AddChild(nodes: seq<Node>, i: int, child: Node): (r: seq<Node>)
    requires 0 <= i < |nodes|
    ensures |r| == |nodes| + 1
  {
    nodes[i := nodes[i].(children := nodes[i].children + [|nodes|])] + [child]
  }

  lemma {:induction false} AddChildLinked(nodes: seq<Node>, i: int, child: Node)
    requires Linked(nodes) && 0 <= i < |nodes| && child.parent == i && child.children == []
    ensures Linked(AddChild(nodes, i, child))
  {
    var r := AddChild(nodes, i, child);
    var n := |nodes|;
    assert forall j :: 0 <= j < n && j != i ==> r[j] == nodes[j];
    assert r[i] == nodes[i].(children := nodes[i].children + [n]);
    assert r[n] == child;
    assert ParentsBelow(r) by {
      forall j | 0 <= j < |r|
        ensures r[j].parent < j && (j > 0 ==> r[j].parent >= 0)
      {
        if j < n {
          assert r[j].parent == nodes[j].parent;
        }
      }
    }
    AddChildAbove(nodes, i, child);
    forall j | 0 < j < |r|
      ensures j in r[r[j].parent].children
    {
      if j < n {
        var p := nodes[j].parent;
        assert r[j].parent == p;
        assert j in nodes[p].children;
        assert nodes[p].children <= r[p].children;
      } else {
        assert r[i].children[|r[i].children| - 1] == j;
      }
    }
  }

  lemma {:induction false} AddChildAbove(nodes: seq<Node>, i: int, child: Node)
    requires Linked(nodes) && 0 <= i < |nodes| && child.parent == i && child.children == []
    ensures ChildrenAbove(AddChild(nodes, i, child))
  {
    var r := AddChild(nodes, i, child);
    var n := |nodes|;
    forall j, k | 0 <= j < |r| && 0 <= k < |r[j].children|
      ensures j < r[j].children[k] < |r| && r[r[j].children[k]].parent == j
    {
      if j != i {
        assert r[j] == nodes[j];
        var c := nodes[j].children[k];
        assert r[c].parent == nodes[c].parent;
      } else if k < |nodes[i].children| {
        var c := nodes[i].children[k];
        assert r[i].children[k] == c;
        assert r[c].parent == nodes[c].parent;
      } else {
        assert r[i].children[k] == n;
      }
    }
    forall j, k, l | 0 <= j < |r| && 0 <= k < l < |r[j].children|
      ensures r[j].children[k] < r[j].children[l]
    {
      if j != i {
        assert r[j] == nodes[j];
      } else if l < |nodes[i].children| {
        assert r[i].children[k] == nodes[i].children[k];
        assert r[i].children[l] == nodes[i].children[l];
      } else {
        assert r[i].children[k] == nodes[i].children[k];
      }
    }
  }

  /** The child Expansion creates at node i, whose player is player, for column col. */
  function ChildAt(player: Player, i: int, priors: seq<real>, col: int): (c: Node)
    requires 0 <= col < Cols && |priors| == Cols
    ensures c.children == [] && c.parent == i && c.move == col
    ensures c.player == Opponent(player) && c.prior == priors[col]
  {
    NewNode(Opponent(player), col, i, priors[col])
  }

  /** The children Expansion creates at node i with board g, one per legal column in column
      order. */
  function ChildrenAt(player: Player, g: Position, i: int, priors: seq<real>): (kids: seq<Node>)
    requires |priors| == Cols
    ensures |kids| == |LegalMoves(g)|
    ensures forall m :: 0 <= m < |kids| ==>
      kids[m].parent == i && kids[m].children == [] && kids[m].move == LegalMoves(g)[m]
  {
    MovesLegal(g);
    seq(|LegalMoves(g)|, m requires 0 <= m < |LegalMoves(g)| => ChildAt(player, i, priors, LegalMoves(g)[m]))
  }

  /** The boards of those children: player's piece dropped into each legal column of g. */
  function ChildBoards(g: Position, player: Player): (bs: seq<Position>)
    ensures |bs| == |LegalMoves(g)|
  {
    MovesLegal(g);
    seq(|LegalMoves(g)|, m requires 0 <= m < |LegalMoves(g)| => Play(g, LegalMoves(g)[m], player))
  }

  /** The arena after the loop of Expansion(i) has appended the first k of kids. */
  function Appended(nodes: seq<Node>, i: int, kids: seq<Node>, k: nat): (r: seq<Node>)
    requires 0 <= i < |nodes| && k <= |kids|
    ensures |r| == |nodes| + k
  {
    if k == 0 then nodes else AddChild(Appended(nodes, i, kids, k - 1), i, kids[k - 1])
  }

  /** The arena after Expansion(i) of a node with board g whose game is not over: the
      priors are recorded at node i, then its children are appended. */
  function Expanded(nodes: seq<Node>, g: Position, i: int, priors: seq<real>): (r: seq<Node>)
    requires 0 <= i < |nodes| && |priors| == Cols
    ensures |r| == |nodes| + |LegalMoves(g)|
  {
    var kids := ChildrenAt(nodes[i].player, g, i, priors);
    Appended(nodes[i := nodes[i].(priorProbabilities := priors)], i, kids, |kids|)
  }

  /** Appending children to node i keeps every other node, gives node i the new indices as
      further children, and puts the children at the end. */
  lemma {:induction false} AppendedSpec(nodes: seq<Node>, i: int, kids: seq<Node>, k: nat)
    requires 0 <= i < |nodes| && k <= |kids|
    ensures forall j :: 0 <= j < |nodes| && j != i ==> Appended(nodes, i, kids, k)[j] == nodes[j]
    ensures Appended(nodes, i, kids, k)[i] == nodes[i].(children := nodes[i].children + seq(k, m => |nodes| + m))
    ensures forall m :: 0 <= m < k ==> Appended(nodes, i, kids, k)[|nodes| + m] == kids[m]
  {
    forall j | 0 <= j < |nodes| && j != i
      ensures Appended(nodes, i, kids, k)[j] == nodes[j]
    {
      AppendedKeeps(nodes, i, kids, k, j);
    }
    AppendedNode(nodes, i, kids, k);
    forall m | 0 <= m < k
      ensures Appended(nodes, i, kids, k)[|nodes| + m] == kids[m]
    {
      AppendedChild(nodes, i, kids, k, m);
    }
  }

  lemma {:induction false} AppendedKeeps(nodes: seq<Node>, i: int, kids: seq<Node>, k: nat, j: int)
    requires 0 <= i < |nodes| && k <= |kids| && 0 <= j < |nodes| && j != i
    ensures Appended(nodes, i, kids, k)[j] == nodes[j]
  {
    if k > 0 {
      AppendedKeeps(nodes, i, kids, k - 1, j);
    }
  }

  lemma {:induction false} AppendedNode(nodes: seq<Node>, i: int, kids: seq<Node>, k: nat)
    requires 0 <= i < |nodes| && k <= |kids|
    ensures Appended(nodes, i, kids, k)[i] == nodes[i].(children := nodes[i].children + seq(k, m => |nodes| + m))
  {
    if k > 0 {
      AppendedNode(nodes, i, kids, k - 1);
      assert seq(k, m => |nodes| + m) == seq(k - 1, m => |nodes| + m) + [|nodes| + k - 1];
    } else {
      assert nodes[i].children + seq(0, m => |nodes| + m) == nodes[i].children;
    }
  }

  lemma {:induction false} AppendedChild(nodes: seq<Node>, i: int, kids: seq<Node>, k: nat, m: nat)
    requires 0 <= i < |nodes| && k <= |kids| && m < k
    ensures Appended(nodes, i, kids, k)[|nodes| + m] == kids[m]
  {
    if m < k - 1 {
      AppendedChild(nodes, i, kids, k - 1, m);
    }
  }

  /** Appending childless nodes that name i as their parent keeps the arena linked. */
  lemma {:induction false} AppendedLinked(nodes: seq<Node>, i: int, kids: seq<Node>, k: nat)
    requires Linked(nodes) && 0 <= i < |nodes| && k <= |kids|
    requires forall m :: 0 <= m < |kids| ==> kids[m].parent == i && kids[m].children == []
    ensures Linked(Appended(nodes, i, kids, k))
  {
    if k > 0 {
      AppendedLinked(nodes, i, kids, k - 1);
      AddChildLinked(Appended(nodes, i, kids, k - 1), i, kids[k - 1]);
    }
  }

  /** Node i is unexpanded, or it has one child per legal column of its board, in column
      order. */
  predicate ExpandedAt(nodes: seq<Node>, boards: seq<Position>, i: int)
    requires |boards| == |nodes| && 0 <= i < |nodes|
  {
    var cs := nodes[i].children;
    cs == [] ||
    (|cs| == |LegalMoves(boards[i])| &&
     forall k :: 0 <= k < |cs| ==> cs[k] < |nodes| && nodes[cs[k]].move == LegalMoves(boards[i])[k])
  }

  /** Every node of the arena was expanded at most once. */
  predicate Expansions(nodes: seq<Node>, boards: seq<Position>)
    requires |boards| == |nodes|
  {
    forall i :: 0 <= i < |nodes| ==> ExpandedAt(nodes, boards, i)
  }

  /** Recording the priors at node i changes nothing else about the arena. */
  lemma {:induction false} WithPriors(nodes: seq<Node>, boards: seq<Position>, i: int, priors: seq<real>)
    requires Linked(nodes) && |boards| == |nodes| && Expansions(nodes, boards) && 0 <= i < |nodes|
    ensures var start := nodes[i := nodes[i].(priorProbabilities := priors)];
      Linked(start) && Expansions(start, boards)
  {
    var start := nodes[i := nodes[i].(priorProbabilities := priors)];
    assert forall j :: 0 <= j < |nodes| ==>
      start[j].parent == nodes[j].parent && start[j].children == nodes[j].children &&
      start[j].move == nodes[j].move;
    assert Linked(start);
    forall j | 0 <= j < |start|
      ensures ExpandedAt(start, boards, j)
    {
      assert ExpandedAt(nodes, boards, j);
    }
  }

  /** Appending one child per legal column, in column order, to an unexpanded node keeps
      the arena linked and every node expanded at most once, whatever boards the children
      get. */
  lemma {:induction false} AppendedExpansions(nodes: seq<Node>, boards: seq<Position>, i: int, kids: seq<Node>, more: seq<Position>)
    requires Linked(nodes) && |boards| == |nodes| && Expansions(nodes, boards)
    requires 0 <= i < |nodes| && nodes[i].children == [] && |more| == |kids|
    requires |kids| == |LegalMoves(boards[i])|
    requires forall m :: 0 <= m < |kids| ==>
      kids[m].parent == i && kids[m].children == [] && kids[m].move == LegalMoves(boards[i])[m]
    ensures Linked(Appended(nodes, i, kids, |kids|)) && Expansions(Appended(nodes, i, kids, |kids|), boards + more)
  {
    var r := Appended(nodes, i, kids, |kids|);
    AppendedLinked(nodes, i, kids, |kids|);
    forall j | 0 <= j < |r|
      ensures ExpandedAt(r, boards + more, j)
    {
      if j >= |nodes| {
        AppendedChild(nodes, i, kids, |kids|, j - |nodes|);
        assert r[j] == kids[j - |nodes|];
        assert r[j].children == [];
      } else if j == i {
        AppendedExpandedSelf(nodes, boards, i, kids, more);
      } else {
        AppendedExpandedOld(nodes, boards, i, kids, more, j);
      }
    }
  }

  lemma {:induction false} AppendedExpandedSelf(nodes: seq<Node>, boards: seq<Position>, i: int, kids: seq<Node>, more: seq<Position>)
    requires |boards| == |nodes| && 0 <= i < |nodes| && nodes[i].children == [] && |more| == |kids|
    requires |kids| == |LegalMoves(boards[i])|
    requires forall m :: 0 <= m < |kids| ==> kids[m].move == LegalMoves(boards[i])[m]
    ensures ExpandedAt(Appended(nodes, i, kids, |kids|), boards + more, i)
  {
    var bs := boards + more;
    assert bs[i] == boards[i];
    AppendedChildMoves(nodes, i, kids, LegalMoves(boards[i]));
  }

  /** The children appended below the leaf i are the kids, in order, with their moves. */
  lemma {:induction false} AppendedChildMoves(nodes: seq<Node>, i: int, kids: seq<Node>, moves: seq<int>)
    requires 0 <= i < |nodes| && nodes[i].children == [] && |kids| == |moves|
    requires forall m :: 0 <= m < |kids| ==> kids[m].move == moves[m]
    ensures var r := Appended(nodes, i, kids, |kids|);
      |r[i].children| == |kids| &&
      forall k :: 0 <= k < |kids| ==> r[i].children[k] < |r| && r[r[i].children[k]].move == moves[k]
  {
    var r := Appended(nodes, i, kids, |kids|);
    AppendedNode(nodes, i, kids, |kids|);
    var cs := r[i].children;
    assert cs == seq(|kids|, m => |nodes| + m);
    forall k | 0 <= k < |kids|
      ensures cs[k] < |r| && r[cs[k]].move == moves[k]
    {
      assert cs[k] == |nodes| + k;
      AppendedChild(nodes, i, kids, |kids|, k);
    }
  }

  lemma {:induction false} AppendedExpandedOld(nodes: seq<Node>, boards: seq<Position>, i: int, kids: seq<Node>, more: seq<Position>, j: int)
    requires Linked(nodes) && |boards| == |nodes| && Expansions(nodes, boards)
    requires 0 <= i < |nodes| && nodes[i].children == [] && |more| == |kids|
    requires 0 <= j < |nodes| && j != i
    ensures ExpandedAt(Appended(nodes, i, kids, |kids|), boards + more, j)
  {
    var r := Appended(nodes, i, kids, |kids|);
    AppendedKeeps(nodes, i, kids, |kids|, j);
    assert ExpandedAt(nodes, boards, j);
    assert (boards + more)[j] == boards[j];
    forall k | 0 <= k < |r[j].children|
      ensures r[r[j].children[k]].move == nodes[nodes[j].children[k]].move
    {
      var c := nodes[j].children[k];
      if c != i {
        AppendedKeeps(nodes, i, kids, |kids|, c);
      } else {
        AppendedNode(nodes, i, kids, |kids|);
      }
    }
  }

  /** Expanding any node keeps the arena linked. */
  lemma {:induction false} ExpandedLinked(nodes: seq<Node>, boards: seq<Position>, i: int, priors: seq<real>)
    requires Linked(nodes) && |boards| == |nodes| && Expansions(nodes, boards)
    requires 0 <= i < |nodes| && |priors| == Cols
    ensures Linked(Expanded(nodes, boards[i], i, priors))
  {
    WithPriors(nodes, boards, i, priors);
    AppendedLinked(nodes[i := nodes[i].(priorProbabilities := priors)], i, ChildrenAt(nodes[i].player, boards[i], i, priors),
                   |LegalMoves(boards[i])|);
  }

  /** Expanding an unexpanded node keeps the arena linked and every node expanded at most
      once, and leaves the node with one child per legal column. */
  lemma {:induction false} ExpandedExpansions(nodes: seq<Node>, boards: seq<Position>, i: int, priors: seq<real>, more: seq<Position>)
    requires Linked(nodes) && |boards| == |nodes| && Expansions(nodes, boards)
    requires 0 <= i < |nodes| && |priors| == Cols && nodes[i].children == []
    requires |more| == |LegalMoves(boards[i])|
    ensures Linked(Expanded(nodes, boards[i], i, priors))
    ensures Expansions(Expanded(nodes, boards[i], i, priors), boards + more)
  {
    var start := nodes[i := nodes[i].(priorProbabilities := priors)];
    WithPriors(nodes, boards, i, priors);
    AppendedExpansions(start, boards, i, ChildrenAt(nodes[i].player, boards[i], i, priors), more);
  }

  /** What Expansion(i) needs of the arena it builds: linked, as long as the boards with
      the children's boards appended, and every node expanded at most once when node i had
      no children yet. */
  lemma {:induction false} ExpandedValid(nodes: seq<Node>, boards: seq<Position>, i: int, priors: seq<real>, player: Player)
    requires Linked(nodes) && |boards| == |nodes| && Expansions(nodes, boards)
    requires 0 <= i < |nodes| && |priors| == Cols
    ensures Linked(Expanded(nodes, boards[i], i, priors))
    ensures |Expanded(nodes, boards[i], i, priors)| == |boards + ChildBoards(boards[i], player)|
    ensures nodes[i].children == [] ==>
      Expansions(Expanded(nodes, boards[i], i, priors), boards + ChildBoards(boards[i], player))
  {
    ExpandedLinked(nodes, boards, i, priors);
    if nodes[i].children == [] {
      ExpandedExpansions(nodes, boards, i, priors, ChildBoards(boards[i], player));
    }
  }

  /** The children of an expanded node are the legal columns, each once. */
  lemma {:induction false} ExpandedMoves(nodes: seq<Node>, boards: seq<Position>, i: int)
    requires Linked(nodes) && |boards| == |nodes| && Expansions(nodes, boards) && 0 <= i < |nodes|
    ensures forall k :: 0 <= k < |nodes[i].children| ==>
      Legal(boards[i], nodes[nodes[i].children[k]].move) && 0 <= nodes[nodes[i].children[k]].move < Cols
    ensures forall k, l :: 0 <= k < l < |nodes[i].children| ==>
      nodes[nodes[i].children[k]].move < nodes[nodes[i].children[l]].move
  {
    assert ExpandedAt(nodes, boards, i);
    MovesLegal(boards[i]);
    LegalMovesFromSorted(boards[i], 0);
  }

  /** A node with children is fully expanded, and a node that is not fully expanded has no
      children. */
  lemma {:induction false} ExpandedFully(nodes: seq<Node>, boards: seq<Position>, i: int)
    requires Linked(nodes) && |boards| == |nodes| && Expansions(nodes, boards) && 0 <= i < |nodes|
    ensures nodes[i].children != [] ==> FullyExpanded(nodes[i], boards[i])
  {
    assert ExpandedAt(nodes, boards, i);
  }

  /** A lone root is a linked arena in which nothing has been expanded. */
  lemma {:induction false} SingleRoot(root: Node, g: Position)
    requires root.children == [] && root.parent < 0
    ensures Linked([root]) && Expansions([root], [g])
  {
    assert ExpandedAt([root], [g], 0);
  }

  /** Expanding a lone root whose board is not full keeps its labels, records the priors
      and gives it the nodes 1, 2, ... as children, one per legal column. */
  lemma {:induction false} RootExpanded(nodes: seq<Node>, g: Position, priors: seq<real>)
    requires |nodes| == 1 && nodes[0].children == [] && |priors| == Cols && !Full(g)
    ensures var r := Expanded(nodes, g, 0, priors)[0];
      r.player == nodes[0].player && r.move == nodes[0].move && r.parent == nodes[0].parent &&
      r.prior == nodes[0].prior && r.priorProbabilities == priors &&
      r.children != [] && |r.children| == |LegalMoves(g)| &&
      forall k :: 0 <= k < |r.children| ==> r.children[k] == 1 + k
  {
    ExpandedNode(nodes, g, 0, priors);
    FullIffNoLegalMoves(g);
  }

  /** The start of a search: the expanded lone root keeps its labels, records the priors,
      and its children, fresh after it, have no visits yet. */
  lemma {:induction false} RootStarted(root: Node, g: Position, priors: seq<real>, visits: seq<nat>)
    requires root.children == [] && |priors| == Cols && !Full(g)
    requires visits == [0] + seq(|LegalMoves(g)|, _ => 0)
    ensures var r := Expanded([root], g, 0, priors)[0];
      r.player == root.player && r.move == root.move && r.parent == root.parent &&
      r.prior == root.prior && r.priorProbabilities == priors && r.children != [] &&
      forall k :: 0 <= k < |r.children| ==> r.children[k] == 1 + k && r.children[k] < |visits| && visits[r.children[k]] == 0
  {
    RootExpanded([root], g, priors);
  }

  /** All listed nodes unvisited: no visits in total. */
  lemma {:induction false} ChildVisitsZero(visits: seq<nat>, cs: seq<nat>)
    requires forall k :: 0 <= k < |cs| ==> cs[k] < |visits| && visits[cs[k]] == 0
    ensures ChildVisits(visits, cs) == 0
  {
    if cs != [] {
      ChildVisitsZero(visits, cs[..|cs| - 1]);
    }
  }

  // ---------------------------------------------------------------------------
  // Simulation
  // ---------------------------------------------------------------------------

  /** The value Simulation(i) returns, from the root player's point of view: +1 if the
      root's player has won, -1 if someone else has, 0 on a full board, and otherwise the
      evaluator's value, negated when node i is an odd number of moves below the root. */
  function SimulationValue(nodes: seq<Node>, boards: seq<Position>, evaluate: (Position, Player) -> Evaluation, i: int): (v: real)
    requires ParentsBelow(nodes) && |boards| == |nodes| && 0 <= i < |nodes|
  {
    var winner := Winner(boards[i]);
    if winner != None then (if winner == nodes[Top(nodes, i)].player then 1.0 else -1.0)
    else if Full(boards[i]) then 0.0
    else Signed(evaluate(boards[i], nodes[i].player).1, Depth(nodes, i))
  }

  /** A decided game scores 1, -1 or 0 for the root player; an undecided one the evaluator's
      value or its negation. */
  lemma {:induction false} SimulationValueRange(nodes: seq<Node>, boards: seq<Position>, evaluate: (Position, Player) -> Evaluation, i: int)
    requires Linked(nodes) && |boards| == |nodes| && 0 <= i < |nodes|
    ensures Winner(boards[i]) != None && Winner(boards[i]) == nodes[0].player ==> SimulationValue(nodes, boards, evaluate, i) == 1.0
    ensures Winner(boards[i]) != None && Winner(boards[i]) != nodes[0].player ==> SimulationValue(nodes, boards, evaluate, i) == -1.0
    ensures Winner(boards[i]) == None && Full(boards[i]) ==> SimulationValue(nodes, boards, evaluate, i) == 0.0
    ensures !GameOver(boards[i]) ==>
      var e := evaluate(boards[i], nodes[i].player).1;
      SimulationValue(nodes, boards, evaluate, i) == if Depth(nodes, i) % 2 == 0 then e else -e
  {
    TopIsRoot(nodes, i);
  }

  // ---------------------------------------------------------------------------
  // Reading the root
  // ---------------------------------------------------------------------------

  /** The moves and the visits of a list of nodes. */
  function ChildMoves(nodes: seq<Node>, cs: seq<nat>): (ms: seq<int>)
    requires forall k :: 0 <= k < |cs| ==> cs[k] < |nodes|
    ensures |ms| == |cs|
  {
    seq(|cs|, k requires 0 <= k < |cs| => nodes[cs[k]].move)
  }

  function ChildVisitList(visits: seq<nat>, cs: seq<nat>): (vs: seq<int>)
    requires forall k :: 0 <= k < |cs| ==> cs[k] < |visits|
    ensures |vs| == |cs|
  {
    seq(|cs|, k requires 0 <= k < |cs| => visits[cs[k]] as int)
  }

  /** counts after the loop of GetVisitCounts has run over the first k children. */
  function Tally(moves: seq<int>, vs: seq<int>, k: nat): (counts: seq<int>)
    requires |moves| == |vs| && k <= |moves| && forall m :: 0 <= m < |moves| ==> 0 <= moves[m] < Cols
    ensures |counts| == Cols
  {
    if k == 0 then seq(Cols, _ => 0) else Tally(moves, vs, k - 1)[moves[k - 1] := vs[k - 1]]
  }

  /** With distinct moves the tally holds each listed move's count and 0 for every other
      column. */
  lemma {:induction false} TallySpec(moves: seq<int>, vs: seq<int>, k: nat)
    requires |moves| == |vs| && k <= |moves| && forall m :: 0 <= m < |moves| ==> 0 <= moves[m] < Cols
    requires forall m, l :: 0 <= m < l < |moves| ==> moves[m] < moves[l]
    ensures forall m :: 0 <= m < k ==> Tally(moves, vs, k)[moves[m]] == vs[m]
    ensures forall c :: 0 <= c < Cols && c !in moves[..k] ==> Tally(moves, vs, k)[c] == 0
  {
    if k > 0 {
      TallySpec(moves, vs, k - 1);
      assert moves[..k] == moves[..k - 1] + [moves[k - 1]];
    }
  }

  /** GetMoveProbabilities on the counts: 0 everywhere without visits, else each count over
      their total. */
  function IntSum(s: seq<int>): int {
    if s == [] then 0 else IntSum(s[..|s| - 1]) + s[|s| - 1]
  }

  function Probabilities(counts: seq<int>): (probs: seq<real>)
    ensures |probs| == |counts|
  {
    var total := IntSum(counts);
    if total > 0 then seq(|counts|, i requires 0 <= i < |counts| => counts[i] as real / total as real)
    else seq(|counts|, _ => 0.0)
  }

  lemma {:induction false} AddQuotients(a: real, b: real, t: real)
    requires t != 0.0
    ensures a / t + b / t == (a + b) / t
  {
  }

  lemma {:induction false} SumQuotients(counts: seq<int>, t: real)
    requires t != 0.0
    ensures Sum(seq(|counts|, i requires 0 <= i < |counts| => counts[i] as real / t)) == IntSum(counts) as real / t
  {
    var s := seq(|counts|, i requires 0 <= i < |counts| => counts[i] as real / t);
    if counts != [] {
      var init := counts[..|counts| - 1];
      SumQuotients(init, t);
      assert s[..|s| - 1] == seq(|init|, i requires 0 <= i < |init| => init[i] as real / t);
      AddQuotients(IntSum(init) as real, counts[|counts| - 1] as real, t);
    }
  }

  lemma {:induction false} IntSumBound(s: seq<int>, i: int)
    requires forall k :: 0 <= k < |s| ==> s[k] >= 0
    requires 0 <= i < |s|
    ensures 0 <= s[i] <= IntSum(s)
  {
    var init := s[..|s| - 1];
    IntSumNonNegative(init);
    if i < |s| - 1 {
      IntSumBound(init, i);
    }
  }

  lemma {:induction false} IntSumNonNegative(s: seq<int>)
    requires forall k :: 0 <= k < |s| ==> s[k] >= 0
    ensures IntSum(s) >= 0
  {
    if s != [] {
      IntSumNonNegative(s[..|s| - 1]);
    }
  }

  lemma {:induction false} UnitFraction(a: real, t: real)
    requires 0.0 <= a <= t && t > 0.0
    ensures 0.0 <= a / t <= 1.0
  {
  }

  /** With visits the probabilities are the counts' shares, each in [0, 1], and sum to 1;
      without visits they are all 0. */
  lemma {:induction false} ProbabilitiesSpec(counts: seq<int>)
    requires forall k :: 0 <= k < |counts| ==> counts[k] >= 0
    ensures IntSum(counts) == 0 ==> forall i :: 0 <= i < |counts| ==> Probabilities(counts)[i] == 0.0
    ensures IntSum(counts) > 0 ==> Sum(Probabilities(counts)) == 1.0
    ensures forall i :: 0 <= i < |counts| ==> 0.0 <= Probabilities(counts)[i] <= 1.0
  {
    var total := IntSum(counts);
    IntSumNonNegative(counts);
    if total > 0 {
      SumQuotients(counts, total as real);
      Quotient(total as real, total as real);
      forall i | 0 <= i < |counts|
        ensures 0.0 <= Probabilities(counts)[i] <= 1.0
      {
        IntSumBound(counts, i);
        UnitFraction(counts[i] as real, total as real);
      }
    }
  }

  // ---------------------------------------------------------------------------
  // What Expansion leaves behind
  // ---------------------------------------------------------------------------

  /** Expansion(i) changes no node other than i. */
  lemma {:induction false} ExpandedKeeps(nodes: seq<Node>, g: Position, i: int, priors: seq<real>, j: int)
    requires 0 <= i < |nodes| && |priors| == Cols && 0 <= j < |nodes| && j != i
    ensures Expanded(nodes, g, i, priors)[j] == nodes[j]
  {
    var start := nodes[i := nodes[i].(priorProbabilities := priors)];
    AppendedKeeps(start, i, ChildrenAt(nodes[i].player, g, i, priors), |LegalMoves(g)|, j);
  }

  /** Expansion(i) records the priors at node i and lists the new nodes as its further
      children. */
  lemma {:induction false} ExpandedNode(nodes: seq<Node>, g: Position, i: int, priors: seq<real>)
    requires 0 <= i < |nodes| && |priors| == Cols
    ensures Expanded(nodes, g, i, priors)[i] ==
      nodes[i].(priorProbabilities := priors, children := nodes[i].children + seq(|LegalMoves(g)|, m => |nodes| + m))
  {
    var start := nodes[i := nodes[i].(priorProbabilities := priors)];
    AppendedNode(start, i, ChildrenAt(nodes[i].player, g, i, priors), |LegalMoves(g)|);
  }

  /** The m-th new node is the child for the m-th legal column, with that column's prior. */
  lemma {:induction false} ExpandedChild(nodes: seq<Node>, g: Position, i: int, priors: seq<real>, m: nat)
    requires 0 <= i < |nodes| && |priors| == Cols && m < |LegalMoves(g)|
    ensures 0 <= LegalMoves(g)[m] < Cols
    ensures Expanded(nodes, g, i, priors)[|nodes| + m] == ChildAt(nodes[i].player, i, priors, LegalMoves(g)[m])
  {
    MovesLegal(g);
    var start := nodes[i := nodes[i].(priorProbabilities := priors)];
    var kids := ChildrenAt(nodes[i].player, g, i, priors);
    AppendedChild(start, i, kids, |kids|, m);
    assert Appended(start, i, kids, |kids|)[|start| + m] == kids[m];
    assert |start| == |nodes|;
    assert Expanded(nodes, g, i, priors) == Appended(start, i, kids, |kids|);
  }

  // ---------------------------------------------------------------------------
  // GetVisitCounts
  // ---------------------------------------------------------------------------

  /** The counts GetVisitCounts returns: each root child's visits at its move, 0 elsewhere
      and everywhere when there is no root. */
  function VisitCounts(nodes: seq<Node>, boards: seq<Position>, visits: seq<nat>): (counts: seq<int>)
    requires Linked(nodes) && |boards| == |nodes| && |visits| == |nodes| && Expansions(nodes, boards)
    ensures |counts| == Cols
  {
    if nodes == [] then seq(Cols, _ => 0)
    else
      var cs := nodes[0].children;
      ExpandedMoves(nodes, boards, 0);
      Tally(ChildMoves(nodes, cs), ChildVisitList(visits, cs), |cs|)
  }

  lemma {:induction false} IntSumUpdate(s: seq<int>, j: int, x: int)
    requires 0 <= j < |s|
    ensures IntSum(s[j := x]) == IntSum(s) - s[j] + x
  {
    var t := s[j := x];
    if j < |s| - 1 {
      assert t[..|t| - 1] == s[..|s| - 1][j := x];
      IntSumUpdate(s[..|s| - 1], j, x);
    } else {
      assert t[..|t| - 1] == s[..|s| - 1];
    }
  }

  lemma {:induction false} IntSumZeros(n: nat)
    ensures IntSum(seq(n, _ => 0)) == 0
  {
    if n > 0 {
      assert seq(n, _ => 0)[..n - 1] == seq(n - 1, _ => 0);
      IntSumZeros(n - 1);
    }
  }

  /** A column the loop has not written to is still 0. */
  lemma {:induction false} TallyZero(moves: seq<int>, vs: seq<int>, k: nat, c: int)
    requires |moves| == |vs| && k <= |moves| && forall m :: 0 <= m < |moves| ==> 0 <= moves[m] < Cols
    requires 0 <= c < Cols && forall m :: 0 <= m < k ==> moves[m] != c
    ensures Tally(moves, vs, k)[c] == 0
  {
    if k > 0 {
      TallyZero(moves, vs, k - 1, c);
    }
  }

  /** With distinct moves the tally adds up the counts written so far. */
  lemma {:induction false} TallySum(moves: seq<int>, vs: seq<int>, k: nat)
    requires |moves| == |vs| && k <= |moves| && forall m :: 0 <= m < |moves| ==> 0 <= moves[m] < Cols
    requires forall m, l :: 0 <= m < l < |moves| ==> moves[m] < moves[l]
    ensures IntSum(Tally(moves, vs, k)) == IntSum(vs[..k])
  {
    if k == 0 {
      IntSumZeros(Cols);
    } else {
      var prev := Tally(moves, vs, k - 1);
      TallySum(moves, vs, k - 1);
      TallyZero(moves, vs, k - 1, moves[k - 1]);
      IntSumUpdate(prev, moves[k - 1], vs[k - 1]);
      assert vs[..k][..k - 1] == vs[..k - 1];
    }
  }

  lemma {:induction false} ChildVisitListSum(visits: seq<nat>, cs: seq<nat>)
    requires forall k :: 0 <= k < |cs| ==> cs[k] < |visits|
    ensures IntSum(ChildVisitList(visits, cs)) == ChildVisits(visits, cs)
  {
    if cs != [] {
      var init := cs[..|cs| - 1];
      ChildVisitListSum(visits, init);
      assert ChildVisitList(visits, cs)[..|cs| - 1] == ChildVisitList(visits, init);
    }
  }

  /** GetVisitCounts puts each root child's visits at its move. */
  lemma {:induction false} VisitCountsAt(nodes: seq<Node>, boards: seq<Position>, visits: seq<nat>)
    requires Linked(nodes) && |boards| == |nodes| && |visits| == |nodes| && Expansions(nodes, boards) && nodes != []
    ensures var cs := nodes[0].children;
      forall k :: 0 <= k < |cs| ==>
        0 <= nodes[cs[k]].move < Cols && VisitCounts(nodes, boards, visits)[nodes[cs[k]].move] == visits[cs[k]]
  {
    var cs := nodes[0].children;
    var moves := ChildMoves(nodes, cs);
    var vs := ChildVisitList(visits, cs);
    ExpandedMoves(nodes, boards, 0);
    TallySpec(moves, vs, |cs|);
    forall k | 0 <= k < |cs|
      ensures VisitCounts(nodes, boards, visits)[nodes[cs[k]].move] == visits[cs[k]]
    {
      assert moves[k] == nodes[cs[k]].move && vs[k] == visits[cs[k]];
    }
  }

  /** GetVisitCounts leaves 0 on every column that is no root child's move. */
  lemma {:induction false} VisitCountsZero(nodes: seq<Node>, boards: seq<Position>, visits: seq<nat>)
    requires Linked(nodes) && |boards| == |nodes| && |visits| == |nodes| && Expansions(nodes, boards) && nodes != []
    ensures forall c :: 0 <= c < Cols && c !in ChildMoves(nodes, nodes[0].children) ==>
      VisitCounts(nodes, boards, visits)[c] == 0
  {
    var cs := nodes[0].children;
    var moves := ChildMoves(nodes, cs);
    var vs := ChildVisitList(visits, cs);
    ExpandedMoves(nodes, boards, 0);
    forall c | 0 <= c < Cols && c !in moves
      ensures Tally(moves, vs, |cs|)[c] == 0
    {
      TallyZero(moves, vs, |cs|, c);
    }
  }

  /** The counts add up to the visits of the root's children. */
  lemma {:induction false} VisitCountsSum(nodes: seq<Node>, boards: seq<Position>, visits: seq<nat>)
    requires Linked(nodes) && |boards| == |nodes| && |visits| == |nodes| && Expansions(nodes, boards) && nodes != []
    ensures IntSum(VisitCounts(nodes, boards, visits)) == ChildVisits(visits, nodes[0].children)
  {
    var cs := nodes[0].children;
    var moves := ChildMoves(nodes, cs);
    var vs := ChildVisitList(visits, cs);
    ExpandedMoves(nodes, boards, 0);
    TallySum(moves, vs, |cs|);
    assert vs[..|cs|] == vs;
    ChildVisitListSum(visits, cs);
  }

  /** Once expanded, the children of a node carry the legal moves of its board, in order. */
  lemma {:induction false} ChildMovesLegal(nodes: seq<Node>, boards: seq<Position>, i: int)
    requires Linked(nodes) && |boards| == |nodes| && Expansions(nodes, boards) && 0 <= i < |nodes|
    requires nodes[i].children != []
    ensures ChildMoves(nodes, nodes[i].children) == LegalMoves(boards[i])
  {
    assert ExpandedAt(nodes, boards, i);
  }

  /** No count in the tally is negative. */
  lemma {:induction false} TallyNonNegative(moves: seq<int>, vs: seq<int>, k: nat)
    requires |moves| == |vs| && k <= |moves| && forall m :: 0 <= m < |moves| ==> 0 <= moves[m] < Cols
    requires forall m :: 0 <= m < |vs| ==> vs[m] >= 0
    ensures forall c :: 0 <= c < Cols ==> Tally(moves, vs, k)[c] >= 0
  {
    if k > 0 {
      TallyNonNegative(moves, vs, k - 1);
    }
  }

  /** No column of the visit counts is negative. */
  lemma {:induction false} VisitCountsNonNegative(nodes: seq<Node>, boards: seq<Position>, visits: seq<nat>)
    requires Linked(nodes) && |boards| == |nodes| && |visits| == |nodes| && Expansions(nodes, boards) && nodes != []
    ensures forall c :: 0 <= c < Cols ==> VisitCounts(nodes, boards, visits)[c] >= 0
  {
    var cs := nodes[0].children;
    ExpandedMoves(nodes, boards, 0);
    TallyNonNegative(ChildMoves(nodes, cs), ChildVisitList(visits, cs), |cs|);
  }

  /** Once the root's children have been visited, GetMoveProbabilities is a distribution
      over the columns, each share in [0, 1]. */
  lemma {:induction false} ProbabilitiesOfSearch(nodes: seq<Node>, boards: seq<Position>, visits: seq<nat>)
    requires Linked(nodes) && |boards| == |nodes| && |visits| == |nodes| && Expansions(nodes, boards) && nodes != []
    requires ChildVisits(visits, nodes[0].children) > 0
    ensures var probs := Probabilities(VisitCounts(nodes, boards, visits));
      Sum(probs) == 1.0 && forall c :: 0 <= c < Cols ==> 0.0 <= probs[c] <= 1.0
  {
    var cs := nodes[0].children;
    ExpandedMoves(nodes, boards, 0);
    TallyNonNegative(ChildMoves(nodes, cs), ChildVisitList(visits, cs), |cs|);
    VisitCountsSum(nodes, boards, visits);
    ProbabilitiesSpec(VisitCounts(nodes, boards, visits));
  }
}
