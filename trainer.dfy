/** The self-play trainer of ConnectFour/trainer.cpp: games of the network's MCTS against
    itself, whose examples carry the stored position, the search's visit distribution in
    the coordinates of that position, and the game's outcome for the player to move; target
    shaping before each training step; and evaluation games against minimax.

    The network is a value of the type parameter N.  What the source does with it is given
    as parameters of the trainer: train is Neural::Trainer::Train, evaluator builds the
    NeuralEvaluator MCTS searches with, and sample is MCTS::SelectMoveSoftmax, whose
    softmax and Mersenne-Twister draw are not modelled: it is the draw-th sample for the
    given visit counts and temperature. */
module Training {
  import opened GameBoard
  import opened Sums
  import opened Mcts
  import opened MctsSearch
  import opened Minimax

  /** Trainer::GetTemperature: 1 for the first ten moves, 0.5 for the next ten, then 0.1. */
  function Temperature(moveCount: int): (t: real)
    ensures 0.1 <= t <= 1.0
    ensures moveCount < 10 <==> t == 1.0
  {
    if moveCount < 10 then 1.0 else if moveCount < 20 then 0.5 else 0.1
  }

  /** The temperature never rises as the game goes on. */
  lemma TemperatureNonIncreasing(a: int, b: int)
    requires a <= b
    ensures Temperature(b) <= Temperature(a)
  {
  }

  // ---------------------------------------------------------------------------
  // Un-mirroring the policy
  // ---------------------------------------------------------------------------

  /** The policy as it is stored beside a normalized state: unchanged, or, when the state
      is the mirrored board, column col of the stored policy is column MirrorColumn(col) of
      the search's policy. */
  function Unmirrored(policy: seq<real>, mirrored: bool): (p: seq<real>)
    requires |policy| == Cols
    ensures |p| == Cols
  {
    if mirrored then seq(Cols, col requires 0 <= col < Cols => policy[MirrorColumn(col)]) else policy
  }

  /** The loop that builds adjustedPolicy in PlaySelfPlayGame. */
  method AdjustPolicy(policy: seq<real>, wasMirrored: bool) returns (adjustedPolicy: seq<real>)
    requires |policy| == Cols
    ensures adjustedPolicy == Unmirrored(policy, wasMirrored)
  {
    adjustedPolicy := policy;
    if wasMirrored {
      for col := 0 to Cols
        invariant |adjustedPolicy| == Cols
        invariant forall c :: 0 <= c < col ==> adjustedPolicy[c] == policy[MirrorColumn(c)]
      {
        adjustedPolicy := adjustedPolicy[col := policy[MirrorColumn(col)]];
      }
    }
  }

  function Reverse(s: seq<real>): (r: seq<real>)
    ensures |r| == |s|
    decreases |s|
  {
    if s == [] then [] else [s[|s| - 1]] + Reverse(s[..|s| - 1])
  }

  lemma {:induction false} ReverseAt(s: seq<real>, k: int)
    requires 0 <= k < |s|
    ensures Reverse(s)[k] == s[|s| - 1 - k]
    decreases |s|
  {
    if k > 0 {
      ReverseAt(s[..|s| - 1], k - 1);
    }
  }

  lemma {:induction false} ReverseSum(s: seq<real>)
    ensures Sum(Reverse(s)) == Sum(s)
    decreases |s|
  {
    if s != [] {
      var init := s[..|s| - 1];
      ReverseSum(init);
      SumAppend([s[|s| - 1]], Reverse(init));
      assert Sum([s[|s| - 1]]) == s[|s| - 1] by {
        assert [s[|s| - 1]][..0] == [];
      }
    }
  }

  lemma {:induction false} ReverseMultiset(s: seq<real>)
    ensures multiset(Reverse(s)) == multiset(s)
    decreases |s|
  {
    if s != [] {
      var init := s[..|s| - 1];
      ReverseMultiset(init);
      assert s == init + [s[|s| - 1]];
    }
  }

  /** Un-mirroring is the reversal of the seven columns. */
  lemma UnmirroredReverse(policy: seq<real>)
    requires |policy| == Cols
    ensures Unmirrored(policy, true) == Reverse(policy)
  {
    forall k | 0 <= k < Cols
      ensures Unmirrored(policy, true)[k] == Reverse(policy)[k]
    {
      ReverseAt(policy, k);
    }
  }

  /** Un-mirroring is its own inverse, permutes the entries and keeps their total, so a
      distribution stays one. */
  lemma UnmirroredPermutation(policy: seq<real>, mirrored: bool)
    requires |policy| == Cols
    ensures Unmirrored(Unmirrored(policy, mirrored), mirrored) == policy
    ensures multiset(Unmirrored(policy, mirrored)) == multiset(policy)
    ensures Sum(Unmirrored(policy, mirrored)) == Sum(policy)
  {
    if mirrored {
      UnmirroredReverse(policy);
      ReverseMultiset(policy);
      ReverseSum(policy);
      forall k | 0 <= k < Cols
        ensures Unmirrored(Unmirrored(policy, true), true)[k] == policy[k]
      {
        MirrorColumnInvolution(k);
      }
    }
  }

  /** A policy that is zero outside the legal moves of g is, once stored, zero outside the
      legal moves of the stored board: g itself, or its mirror image. */
  lemma UnmirroredLegal(g: Position, policy: seq<real>, mirrored: bool, col: int)
    requires |policy| == Cols && 0 <= col < Cols
    requires forall c :: 0 <= c < Cols && !Legal(g, c) ==> policy[c] == 0.0
    requires !Legal(if mirrored then Mirror(g) else g, col)
    ensures Unmirrored(policy, mirrored)[col] == 0.0
  {
    if mirrored {
      MirrorLegal(g, col);
    }
  }

  // ---------------------------------------------------------------------------
  // Examples and the outcome back-fill
  // ---------------------------------------------------------------------------

  /** TrainingExample */
  datatype Example = Example(state: seq<real>, policy: seq<real>, value: real)

  /** The value the back-fill gives example i of a game won by winner. */
  function OutcomeValue(winner: Player, i: int): (v: real)
    ensures v == 0.0 || v == 1.0 || v == -1.0
  {
    if winner == None then 0.0 else if winner == PlyPlayer(i) then 1.0 else -1.0
  }

  /** The value is 0 exactly on a draw and 1 exactly for the winner's plies, and in a
      decided game consecutive examples have opposite values. */
  lemma OutcomeSpec(winner: Player, i: nat)
    ensures OutcomeValue(winner, i) == 0.0 <==> winner == None
    ensures OutcomeValue(winner, i) == 1.0 <==> winner != None && winner == PlyPlayer(i)
    ensures winner != None ==> OutcomeValue(winner, i + 1) == -OutcomeValue(winner, i)
  {
  }

  /** The back-fill loop at the end of PlaySelfPlayGame. */
  method FillOutcomes(examples: seq<Example>, winner: Player) returns (filled: seq<Example>)
    ensures |filled| == |examples|
    ensures forall i :: 0 <= i < |examples| ==> filled[i] == examples[i].(value := OutcomeValue(winner, i))
  {
    filled := examples;
    for i := 0 to |examples|
      invariant |filled| == |examples|
      invariant forall k :: 0 <= k < i ==> filled[k] == examples[k].(value := OutcomeValue(winner, k))
      invariant forall k :: i <= k < |examples| ==> filled[k] == examples[k]
    {
      var movePlayer := if i % 2 == 0 then Player1 else Player2;
      var value;
      if winner == None {
        value := 0.0;
      } else if winner == movePlayer {
        value := 1.0;
      } else {
        value := -1.0;
      }
      filled := filled[i := filled[i].(value := value)];
    }
  }

  // ---------------------------------------------------------------------------
  // Target shaping
  // ---------------------------------------------------------------------------

  /** outcomeBoost in TrainOnExamples: 0.2 v for a won example, 0.1 v for a lost one. */
  function Boost(value: real): (b: real)
    ensures value > 0.0 <==> b > 0.0
    ensures value < 0.0 <==> b < 0.0
  {
    if value > 0.0 then 0.2 * value else if value < 0.0 then 0.1 * value else 0.0
  }

  /** std::max(0.01, std::min(1.0, x)) */
  function Clamp(x: real): real {
    if x < 1.0 then (if x < 0.01 then 0.01 else x) else 1.0
  }

  /** The target TrainOnExamples trains example e towards. */
  function Shaped(policy: seq<real>, value: real): (target: seq<real>)
    requires |policy| >= Cols
    ensures |target| == |policy|
  {
    seq(|policy|, i requires 0 <= i < |policy| =>
      if i < Cols && policy[i] > 0.0 then Clamp(policy[i] + Boost(value)) else policy[i])
  }

  /** The loop over the columns in TrainOnExamples. */
  method ShapeTarget(policy: seq<real>, value: real) returns (target: seq<real>)
    requires |policy| >= Cols
    ensures target == Shaped(policy, value)
  {
    target := policy;
    var outcomeBoost := 0.0;
    if value > 0.0 {
      outcomeBoost := 0.2 * value;
    } else if value < 0.0 {
      outcomeBoost := 0.1 * value;
    }
    for i := 0 to Cols
      invariant |target| == |policy|
      invariant forall k :: 0 <= k < i ==> target[k] == Shaped(policy, value)[k]
      invariant forall k :: i <= k < |policy| ==> target[k] == policy[k]
    {
      if target[i] > 0.0 {
        var x := target[i] + outcomeBoost;
        var capped := if x < 1.0 then x else 1.0;
        target := target[i := if capped < 0.01 then 0.01 else capped];
      }
    }
  }

  /** Shaping changes only the positive entries of the seven columns, puts them in
      [0.01, 1], raises them for a won example and lowers them for a lost one, and leaves a
      drawn example's entries in (0, 1] as they are. */
  lemma ShapedSpec(policy: seq<real>, value: real, i: int)
    requires |policy| >= Cols && 0 <= i < |policy|
    ensures !(i < Cols && policy[i] > 0.0) ==> Shaped(policy, value)[i] == policy[i]
    ensures i < Cols && policy[i] > 0.0 ==> 0.01 <= Shaped(policy, value)[i] <= 1.0
    ensures i < Cols && 0.0 < policy[i] <= 1.0 && value > 0.0 ==> Shaped(policy, value)[i] >= policy[i]
    ensures i < Cols && 0.01 <= policy[i] && value < 0.0 ==> Shaped(policy, value)[i] <= policy[i]
    ensures i < Cols && 0.0 < policy[i] <= 1.0 && value == 0.0 ==>
      Shaped(policy, value)[i] == if policy[i] < 0.01 then 0.01 else policy[i]
  {
  }

  // ---------------------------------------------------------------------------
  // Evaluation results
  // ---------------------------------------------------------------------------

  /** EvaluationResult */
  datatype EvaluationResult = EvaluationResult(wins: int, losses: int, draws: int)

  /** EvaluationResult::WinRate */
  function WinRate(r: EvaluationResult): (rate: real)
    ensures r.wins + r.losses + r.draws <= 0 ==> rate == 0.0
    ensures r.wins + r.losses + r.draws > 0 ==> rate * (r.wins + r.losses + r.draws) as real == r.wins as real
  {
    var total := r.wins + r.losses + r.draws;
    if total > 0 then r.wins as real / total as real else 0.0
  }

  /** With non-negative counters the win rate is a fraction. */
  lemma WinRateBounds(r: EvaluationResult)
    requires r.wins >= 0 && r.losses >= 0 && r.draws >= 0
    ensures 0.0 <= WinRate(r) <= 1.0
  {
    var total := r.wins + r.losses + r.draws;
    if total > 0 {
      var t, w := total as real, r.wins as real;
      assert WinRate(r) == w / t;
      Fraction(w, t);
    }
  }

  lemma Fraction(w: real, t: real)
    requires 0.0 <= w <= t && t > 0.0
    ensures 0.0 <= w / t <= 1.0
  {
  }

  /** The counters after one more game with the given outcome. */
  function Counted(r: EvaluationResult, outcome: int): EvaluationResult {
    if outcome == 1 then r.(wins := r.wins + 1)
    else if outcome == -1 then r.(losses := r.losses + 1)
    else r.(draws := r.draws + 1)
  }

  /** The side the network plays in evaluation game i: PLAYER1, moving first, in the
      even-numbered games and PLAYER2 in the others. */
  function NetworkSide(i: int): Player {
    if i % 2 == 0 then Player1 else Player2
  }

  /** The result of a series of evaluation games that ended in the positions finals: game i
      is a win when NetworkSide(i) won it, a draw when nobody did, and a loss otherwise. */
  function Scored(finals: seq<Position>): (r: EvaluationResult)
    ensures r.wins >= 0 && r.losses >= 0 && r.draws >= 0
    ensures r.wins + r.losses + r.draws == |finals|
    decreases |finals|
  {
    if finals == [] then EvaluationResult(0, 0, 0)
    else
      var k := |finals| - 1;
      var w := Winner(finals[k]);
      Counted(Scored(finals[..k]), if w == None then 0 else if w == NetworkSide(k) then 1 else -1)
  }

  /** A distribution over the columns. */
  predicate IsDistribution(p: seq<real>) {
    Sum(p) == 1.0 && forall c :: 0 <= c < |p| ==> 0.0 <= p[c] <= 1.0
  }

  lemma UnmirroredDistribution(policy: seq<real>, mirrored: bool)
    requires |policy| == Cols && IsDistribution(policy)
    ensures IsDistribution(Unmirrored(policy, mirrored))
  {
    UnmirroredPermutation(policy, mirrored);
  }

  /** The number of simulations a search with n simulations runs. */
  function SimulationsRun(n: int): nat {
    if n > 0 then n else 0
  }

  /** Visit counts of a search of n simulations from g: one non-negative count per column,
      zero on every column that is not legal in g, n in all. */
  predicate SearchCounts(g: Position, counts: seq<int>, n: int) {
    |counts| == Cols && IntSum(counts) == n &&
    forall c :: 0 <= c < Cols ==> counts[c] >= 0 && (!Legal(g, c) ==> counts[c] == 0)
  }

  /** Example e is the one a self-play game stores from the undecided board g with player
      to move, after a search of n simulations that ended with the visit counts counts:
      the normalized input for player, and the search's move probabilities in the columns
      of that input, that is mirrored back when the input is the mirror image. */
  predicate Stored(e: Example, g: Position, player: Player, counts: seq<int>, n: int) {
    !GameOver(g) && SearchCounts(g, counts, n) && e.state == Normalized(g, player).0 &&
    e.policy == Unmirrored(Probabilities(counts), Normalized(g, player).1)
  }

  /** The board whose columns a stored policy is in: g, or its mirror image. */
  function StoredBoard(g: Position, player: Player): Position {
    if Normalized(g, player).1 then Mirror(g) else g
  }

  /** x / d is the real whose product with d is x. */
  lemma Share(x: real, d: real)
    requires d != 0.0
    ensures (x / d) * d == x
  {
  }

  /** The move probabilities of the counts of a search with at least one simulation: a
      distribution that is zero on the illegal columns, each entry its column's share of
      the simulations. */
  lemma SearchProbabilities(g: Position, counts: seq<int>, n: int)
    requires SearchCounts(g, counts, n) && n > 0
    ensures IsDistribution(Probabilities(counts))
    ensures forall c :: 0 <= c < Cols ==> Probabilities(counts)[c] * n as real == counts[c] as real
    ensures forall c :: 0 <= c < Cols && !Legal(g, c) ==> Probabilities(counts)[c] == 0.0
  {
    ProbabilitiesSpec(counts);
    forall c | 0 <= c < Cols
      ensures Probabilities(counts)[c] * n as real == counts[c] as real
    {
      Share(counts[c] as real, n as real);
    }
  }

  /** The search's move probabilities, mirrored back or not, are a distribution that is
      zero on the columns illegal on the board they are in, each entry the share of the
      matching column. */
  lemma UnmirroredSearch(g: Position, counts: seq<int>, n: int, mirrored: bool, col: int)
    requires SearchCounts(g, counts, n) && n > 0 && 0 <= col < Cols
    ensures IsDistribution(Unmirrored(Probabilities(counts), mirrored))
    ensures !Legal(if mirrored then Mirror(g) else g, col) ==> Unmirrored(Probabilities(counts), mirrored)[col] == 0.0
    ensures Unmirrored(Probabilities(counts), mirrored)[col] ==
      counts[if mirrored then MirrorColumn(col) else col] as real / n as real
  {
    var probs := Probabilities(counts);
    SearchProbabilities(g, counts, n);
    UnmirroredDistribution(probs, mirrored);
    if !Legal(if mirrored then Mirror(g) else g, col) {
      UnmirroredLegal(g, probs, mirrored, col);
    }
    var k := if mirrored then MirrorColumn(col) else col;
    assert Unmirrored(probs, mirrored)[col] == probs[k];
  }

  /** A stored policy, after at least one simulation, is a distribution over the seven
      columns that puts nothing on a column that is full on the stored board, and it is the
      share of the visits of the matching column of the search. */
  lemma StoredPolicy(e: Example, g: Position, player: Player, counts: seq<int>, n: int, col: int)
    requires Stored(e, g, player, counts, n) && n > 0 && 0 <= col < Cols
    ensures IsDistribution(e.policy)
    ensures !Legal(StoredBoard(g, player), col) ==> e.policy[col] == 0.0
    ensures e.policy[col] == counts[if Normalized(g, player).1 then MirrorColumn(col) else col] as real / n as real
  {
    UnmirroredSearch(g, counts, n, Normalized(g, player).1, col);
  }

  /** What a self-play game has stored after |examples| passes, before the back-fill:
      example i from the undecided board positions[i] with the visit counts searches[i] of
      a search of n simulations, with value 0. */
  predicate Recorded(examples: seq<Example>, positions: seq<Position>, searches: seq<seq<int>>, n: int) {
    |examples| == |positions| == |searches| &&
    forall i :: 0 <= i < |examples| ==>
      Stored(examples[i], positions[i], PlyPlayer(i), searches[i], n) && examples[i].value == 0.0
  }

  lemma RecordedAppend(examples: seq<Example>, positions: seq<Position>, searches: seq<seq<int>>, n: int,
                       e: Example, g: Position, counts: seq<int>)
    requires Recorded(examples, positions, searches, n)
    requires Stored(e, g, PlyPlayer(|examples|), counts, n) && e.value == 0.0
    ensures Recorded(examples + [e], positions + [g], searches + [counts], n)
  {
    var es, gs, cs := examples + [e], positions + [g], searches + [counts];
    forall i | 0 <= i < |es|
      ensures Stored(es[i], gs[i], PlyPlayer(i), cs[i], n) && es[i].value == 0.0
    {
      if i < |examples| {
        assert Stored(examples[i], positions[i], PlyPlayer(i), searches[i], n) && examples[i].value == 0.0;
        assert es[i] == examples[i] && gs[i] == positions[i] && cs[i] == searches[i];
      } else {
        assert es[i] == e && gs[i] == g && cs[i] == counts;
      }
    }
  }

  predicate AllDistributions(examples: seq<Example>) {
    forall i :: 0 <= i < |examples| ==> IsDistribution(examples[i].policy)
  }

  /** The back-fill keeps what the passes stored and only sets the values. */
  lemma BackFilled(recorded: seq<Example>, positions: seq<Position>, searches: seq<seq<int>>, n: int,
                   filled: seq<Example>, winner: Player)
    requires Recorded(recorded, positions, searches, n)
    requires |filled| == |recorded|
    requires forall i :: 0 <= i < |recorded| ==> filled[i] == recorded[i].(value := OutcomeValue(winner, i))
    ensures forall i :: 0 <= i < |filled| ==>
      Stored(filled[i], positions[i], PlyPlayer(i), searches[i], n) && filled[i].value == OutcomeValue(winner, i)
  {
  }

  /** After at least one simulation per search every stored policy is a distribution. */
  lemma StoredDistributions(examples: seq<Example>, positions: seq<Position>, searches: seq<seq<int>>, n: int)
    requires |examples| == |positions| == |searches| && n > 0
    requires forall i :: 0 <= i < |examples| ==> Stored(examples[i], positions[i], PlyPlayer(i), searches[i], n)
    ensures AllDistributions(examples)
  {
    forall i | 0 <= i < |examples|
      ensures IsDistribution(examples[i].policy)
    {
      StoredPolicy(examples[i], positions[i], PlyPlayer(i), searches[i], n, 0);
    }
  }

  /** The visit counts of a search tree that SearchSimulations left from g: spread over
      the legal columns of g and adding up to the root's visits, or all 0 when g is
      finished and the root has no children. */
  lemma SearchCountsOf(g: Position, nodes: seq<Node>, boards: seq<Position>, visits: seq<nat>)
    requires Linked(nodes) && |boards| == |nodes| && |visits| == |nodes| && Expansions(nodes, boards)
    requires nodes != [] && boards[0] == g
    requires GameOver(g) ==> nodes[0].children == []
    requires !GameOver(g) ==>
      nodes[0].children != [] && ChildMoves(nodes, nodes[0].children) == LegalMoves(g) &&
      ChildVisits(visits, nodes[0].children) == visits[0]
    ensures SearchCounts(g, VisitCounts(nodes, boards, visits), if GameOver(g) then 0 else visits[0])
  {
    var counts := VisitCounts(nodes, boards, visits);
    VisitCountsZero(nodes, boards, visits);
    VisitCountsSum(nodes, boards, visits);
    VisitCountsNonNegative(nodes, boards, visits);
    LegalMovesSpec(g);
    if GameOver(g) {
      assert ChildMoves(nodes, nodes[0].children) == [];
    }
  }

  // ---------------------------------------------------------------------------
  // The trainer
  // ---------------------------------------------------------------------------

  class Trainer<N> {
    /** neuralTrainer.network */
    var network: N
    /** The number of softmax samples drawn from rng so far. */
    var draws: nat
    /** Neural::Trainer::Train: the network after one step towards target for state. */
    const train: (N, seq<real>, seq<real>, real) -> N
    /** NeuralEvaluator over a network. */
    const evaluator: N -> ((Position, Player) -> Evaluation)
    /** MCTSNode::GetUCB with mctsExplorationConstant. */
    const score: (real, real, nat, nat) -> real
    /** MCTS::SelectMoveSoftmax: the draw-th sample for the visit counts and temperature. */
    const sample: (nat, seq<int>, real) -> int
    const mctsSimulations: int

    /** Trainer::Trainer */
    constructor (network: N, train: (N, seq<real>, seq<real>, real) -> N,
                 evaluator: N -> ((Position, Player) -> Evaluation),
                 score: (real, real, nat, nat) -> real, sample: (nat, seq<int>, real) -> int,
                 mctsSimulations: int)
      ensures this.network == network && draws == 0
      ensures this.train == train && this.evaluator == evaluator && this.score == score
      ensures this.sample == sample && this.mctsSimulations == mctsSimulations
    {
      this.network := network;
      this.train := train;
      this.evaluator := evaluator;
      this.score := score;
      this.sample := sample;
      this.mctsSimulations := mctsSimulations;
      draws := 0;
    }

    /** The search at the top of each pass of PlaySelfPlayGame: a fresh MCTS from g for
        player with mctsSimulations simulations, its move probabilities and the visit
        counts SelectMoveSoftmax samples from.  From an undecided board the counts are
        spread over the legal columns and add up to the simulations run; from a finished
        one the search has no children and every count is 0. */
    method SearchPolicy(g: Position, player: Player) returns (policy: seq<real>, counts: seq<int>)
      ensures policy == Probabilities(counts)
      ensures SearchCounts(g, counts, if GameOver(g) then 0 else SimulationsRun(mctsSimulations))
      ensures mctsSimulations > 0 && !GameOver(g) ==> IsDistribution(policy)
    {
      var mcts := new MctsSearch.Search(evaluator(network), score);
      mcts.SearchSimulations(g, player, mctsSimulations);
      policy := mcts.GetMoveProbabilities();
      counts := mcts.GetVisitCounts();
      SearchCountsOf(g, mcts.nodes, mcts.boards, mcts.visits);
      if mctsSimulations > 0 && !GameOver(g) {
        ProbabilitiesOfSearch(mcts.nodes, mcts.boards, mcts.visits);
      }
    }

    /** One pass of the loop of PlaySelfPlayGame up to its move, from an undecided board:
        the example it stores (value still 0), the visit counts of its search and the
        sampled move. */
    method SelfPlayTurn(board: Board, player: Player, moveCount: int) returns (example: Example, ghost counts: seq<int>, move: int)
      requires board.Valid() && !GameOver(board.Value())
      ensures Stored(example, board.Value(), player, counts, SimulationsRun(mctsSimulations))
      ensures example.value == 0.0
    {
      var policy, visitCounts := SearchPolicy(board.Value(), player);
      counts := visitCounts;
      var state, wasMirrored := board.GetNormalizedInput(player);
      var adjustedPolicy := AdjustPolicy(policy, wasMirrored);
      example := Example(state, adjustedPolicy, 0.0);
      var temp := Temperature(moveCount);
      move := sample(draws, visitCounts, temp);
    }

    /** One whole pass of the loop of PlaySelfPlayGame from the undecided board: the turn
        stores its example, draws one sample and plays it, whether or not MakeMove
        succeeds. */
    method SelfPlayPass(board: Board, currentPlayer: Player, moveCount: int)
      returns (example: Example, ghost counts: seq<int>, over: bool)
      requires board.Valid() && !GameOver(board.Value())
      modifies this, board.cells, board.heights
      ensures board.Valid() && network == old(network) && draws == old(draws) + 1
      ensures over == GameOver(board.Value())
      ensures Stored(example, old(board.Value()), currentPlayer, counts, SimulationsRun(mctsSimulations))
      ensures example.value == 0.0
    {
      var move;
      example, counts, move := SelfPlayTurn(board, currentPlayer, moveCount);
      draws := draws + 1;
      var _ := board.MakeMove(move, currentPlayer);
      over := board.IsGameOver();
    }

    /** A pass of the loop of PlaySelfPlayGame, with its example added to those before. */
    method RecordPass(board: Board, currentPlayer: Player, examples: seq<Example>,
                      ghost positions: seq<Position>, ghost searches: seq<seq<int>>)
      returns (examples': seq<Example>, ghost positions': seq<Position>, ghost searches': seq<seq<int>>, over: bool)
      requires board.Valid() && !GameOver(board.Value()) && currentPlayer == PlyPlayer(|examples|)
      requires Recorded(examples, positions, searches, SimulationsRun(mctsSimulations))
      modifies this, board.cells, board.heights
      ensures board.Valid() && network == old(network) && draws == old(draws) + 1
      ensures over == GameOver(board.Value())
      ensures Recorded(examples', positions', searches', SimulationsRun(mctsSimulations))
      ensures |examples'| == |examples| + 1 && examples'[..|examples|] == examples
    {
      ghost var before := board.Value();
      var example;
      ghost var counts;
      example, counts, over := SelfPlayPass(board, currentPlayer, |examples|);
      RecordedAppend(examples, positions, searches, SimulationsRun(mctsSimulations), example, before, counts);
      examples', positions', searches' := examples + [example], positions + [before], searches + [counts];
    }

    /** The loop of PlaySelfPlayGame, for at most maxTurns passes, from PLAYER1 to move. */
    method SelfPlayLoop(board: Board, maxTurns: nat)
      returns (examples: seq<Example>, ghost positions: seq<Position>, ghost searches: seq<seq<int>>)
      requires board.Valid()
      modifies this, board.cells, board.heights
      ensures board.Valid() && network == old(network) && draws == old(draws) + |examples|
      ensures |examples| <= maxTurns && Recorded(examples, positions, searches, SimulationsRun(mctsSimulations))
      ensures |examples| < maxTurns ==> GameOver(board.Value())
    {
      var currentPlayer := Player1;
      var moveCount := 0;
      examples, positions, searches := [], [], [];
      var over := board.IsGameOver();
      while !over && moveCount < maxTurns
        invariant board.Valid()
        invariant over == GameOver(board.Value())
        invariant moveCount <= maxTurns && |examples| == moveCount
        invariant network == old(network) && draws == old(draws) + moveCount
        invariant currentPlayer == PlyPlayer(moveCount)
        invariant Recorded(examples, positions, searches, SimulationsRun(mctsSimulations))
        decreases maxTurns - moveCount
      {
        examples, positions, searches, over := RecordPass(board, currentPlayer, examples, positions, searches);
        PlyPlayerNext(moveCount);
        currentPlayer := if currentPlayer == Player1 then Player2 else Player1;
        moveCount := moveCount + 1;
      }
    }

    /** Trainer::PlaySelfPlayGame, for at most maxTurns passes of its loop: the result of
        MakeMove is not looked at, so a sampled full column leaves the board as it is while
        the turn still passes.  One example per pass; example i holds the state for
        PlyPlayer(i) at that pass, the visit distribution of that pass's search in the
        columns of the state, and the final board's outcome for that player. */
    method PlaySelfPlayGame(maxTurns: nat)
      returns (examples: seq<Example>, ghost positions: seq<Position>, ghost searches: seq<seq<int>>, ghost final: Position)
      modifies this
      ensures network == old(network) && draws == old(draws) + |examples|
      ensures |examples| == |positions| == |searches| <= maxTurns
      ensures |examples| < maxTurns ==> GameOver(final)
      ensures forall i :: 0 <= i < |examples| ==>
        Stored(examples[i], positions[i], PlyPlayer(i), searches[i], SimulationsRun(mctsSimulations)) &&
        examples[i].value == OutcomeValue(Winner(final), i)
      ensures mctsSimulations > 0 ==> AllDistributions(examples)
    {
      var board := new Board();
      var recorded;
      recorded, positions, searches := SelfPlayLoop(board, maxTurns);
      var winner := board.CheckWinner();
      final := board.Value();
      examples := FillOutcomes(recorded, winner);
      BackFilled(recorded, positions, searches, SimulationsRun(mctsSimulations), examples, winner);
      if mctsSimulations > 0 {
        StoredDistributions(examples, positions, searches, mctsSimulations);
      }
    }

    /** The network after training on examples in order, each towards its shaped target. */
    ghost function TrainedOn(net: N, examples: seq<Example>, learningRate: real): N
      requires forall i :: 0 <= i < |examples| ==> |examples[i].policy| >= Cols
      decreases |examples|
    {
      if examples == [] then net
      else
        var e := examples[0];
        TrainedOn(train(net, e.state, Shaped(e.policy, e.value), learningRate), examples[1..], learningRate)
    }

    /** Training on a + b is training on a, then on b. */
    lemma {:induction false} TrainedOnAppend(net: N, a: seq<Example>, b: seq<Example>, learningRate: real)
      requires forall i :: 0 <= i < |a| ==> |a[i].policy| >= Cols
      requires forall i :: 0 <= i < |b| ==> |b[i].policy| >= Cols
      ensures forall i :: 0 <= i < |a + b| ==> |(a + b)[i].policy| >= Cols
      ensures TrainedOn(net, a + b, learningRate) == TrainedOn(TrainedOn(net, a, learningRate), b, learningRate)
      decreases |a|
    {
      assert forall i :: 0 <= i < |a + b| ==> |(a + b)[i].policy| >= Cols by {
        forall i | 0 <= i < |a + b|
          ensures |(a + b)[i].policy| >= Cols
        {
          if i < |a| {
            assert (a + b)[i] == a[i];
          } else {
            assert (a + b)[i] == b[i - |a|];
          }
        }
      }
      if a != [] {
        var e := a[0];
        var next := train(net, e.state, Shaped(e.policy, e.value), learningRate);
        assert (a + b)[1..] == a[1..] + b;
        TrainedOnAppend(next, a[1..], b, learningRate);
      } else {
        assert a + b == b;
      }
    }

    /** Trainer::TrainOnExamples */
    method TrainOnExamples(examples: seq<Example>, learningRate: real)
      requires forall i :: 0 <= i < |examples| ==> |examples[i].policy| >= Cols
      modifies this
      ensures network == TrainedOn(old(network), examples, learningRate) && draws == old(draws)
    {
      ghost var start := network;
      for i := 0 to |examples|
        invariant draws == old(draws)
        invariant TrainedOn(start, examples, learningRate) == TrainedOn(network, examples[i..], learningRate)
      {
        var example := examples[i];
        var target := ShapeTarget(example.policy, example.value);
        assert examples[i..][1..] == examples[i + 1..];
        network := train(network, example.state, target, learningRate);
      }
    }

    /** The move of the player to move in PlayEvaluationGame: the network's MCTS with half
        of mctsSimulations (C++ integer division) and SelectBestMove, or minimax.  On an
        undecided board either is a legal column. */
    method EvaluationMove(minimax: MinimaxAI, board: Board, currentPlayer: Player, nnPlayer: Player)
      returns (move: int)
      requires board.Valid() && !GameOver(board.Value())
      modifies minimax
      ensures Legal(board.Value(), move)
    {
      if currentPlayer == nnPlayer {
        var mcts := new MctsSearch.Search(evaluator(network), score);
        var half := if mctsSimulations >= 0 then mctsSimulations / 2 else -((-mctsSimulations) / 2);
        mcts.SearchSimulations(board.Value(), currentPlayer, half);
        move := mcts.SelectBestMove();
      } else {
        move := minimax.SelectMove(board, currentPlayer);
        BestMoveLegal(board.Value(), currentPlayer, minimax.maxDepth);
      }
    }

    /** Trainer::PlayEvaluationGame: the network's MCTS against minimax, PLAYER1 moving
        first.  Neither player ever picks an invalid move, so the game is played to its
        end: 0 for a draw, 1 when the network's player won, -1 when minimax did. */
    method PlayEvaluationGame(minimax: MinimaxAI, nnGoesFirst: bool) returns (outcome: int, ghost final: Position)
      modifies minimax
      ensures GameOver(final)
      ensures outcome == 0 <==> Winner(final) == None
      ensures outcome == 1 <==> Winner(final) == (if nnGoesFirst then Player1 else Player2)
      ensures outcome == -1 <==> Winner(final) == (if nnGoesFirst then Player2 else Player1)
    {
      var board := new Board();
      var nnPlayer := if nnGoesFirst then Player1 else Player2;
      var currentPlayer := Player1;
      var over := board.IsGameOver();
      while !over
        invariant board.Valid() && fresh(board.cells) && fresh(board.heights)
        invariant over == GameOver(board.Value())
        invariant currentPlayer != None
        decreases FreeSlots(board.Value())
      {
        ghost var before := board.Value();
        var move := EvaluationMove(minimax, board, currentPlayer, nnPlayer);
        if move < 0 {
          // Unreachable: EvaluationMove picks a legal column.
          assert false;
          return 0, before;
        }
        var ok := board.MakeMove(move, currentPlayer);
        if !ok {
          // Unreachable as well.
          assert false;
          return 0, before;
        }
        PlayUsesSlot(before, move, currentPlayer);
        currentPlayer := if currentPlayer == Player1 then Player2 else Player1;
        over := board.IsGameOver();
      }
      var winner := board.CheckWinner();
      final := board.Value();
      if winner == None {
        outcome := 0;
      } else if winner == nnPlayer {
        outcome := 1;
      } else {
        outcome := -1;
      }
    }

    /** Trainer::EvaluateAgainstMinimax: numGames games against a fresh minimax of the given
        depth, the network moving first in the even-numbered ones.  The result counts every
        game once, by who won the position it ended in. */
    method EvaluateAgainstMinimax(numGames: int, minimaxDepth: int)
      returns (result: EvaluationResult, ghost finals: seq<Position>)
      ensures |finals| == if numGames > 0 then numGames else 0
      ensures forall i :: 0 <= i < |finals| ==> GameOver(finals[i])
      ensures result == Scored(finals)
      ensures result.wins + result.losses + result.draws == |finals|
      ensures 0.0 <= WinRate(result) <= 1.0
    {
      var minimax := new MinimaxAI(minimaxDepth);
      result := EvaluationResult(0, 0, 0);
      finals := [];
      var i := 0;
      while i < numGames
        invariant 0 <= i && (i <= numGames || i == 0)
        invariant |finals| == i
        invariant forall k :: 0 <= k < i ==> GameOver(finals[k])
        invariant result == Scored(finals)
      {
        var nnGoesFirst := i % 2 == 0;
        var outcome;
        ghost var final;
        outcome, final := PlayEvaluationGame(minimax, nnGoesFirst);
        result := Counted(result, outcome);
        assert (finals + [final])[..i] == finals;
        finals := finals + [final];
        i := i + 1;
      }
      WinRateBounds(result);
    }
  }
}
