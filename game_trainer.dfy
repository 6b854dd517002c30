/** The legacy self-play trainer of Cpp/game_trainer.cpp: games of the network against itself
    with epsilon-greedy moves, recorded position by position, and training of the played
    move of each position towards the game's discounted reward.

    The network is a value of the type parameter N; predict is its Predict and train is
    Neural::Trainer::Train.  The trainer's random engine is the stream of its draws: the
    k-th draw read as a real is coin(k) and read as an integer is roll(k), and samples
    counts the draws so far. */
module GameTraining {
  import opened GameBoard
  import opened Priors
  import opened AIPlayers

  /** GameRecord */
  datatype GameRecord = GameRecord(states: seq<seq<real>>, players: seq<Player>, moves: seq<int>, winner: Player)

  /** GameTrainer::GetReward */
  function Reward(player: Player, winner: Player): (r: real)
    ensures r == 0.0 || r == 1.0 || r == -1.0
  {
    if winner == None then 0.0 else if winner == player then 1.0 else -1.0
  }

  /** The reward is 0 exactly on a draw and 1 exactly for the winner, and the two players
      of a decided game get opposite rewards. */
  lemma RewardSpec(player: Player, winner: Player)
    requires player != None
    ensures Reward(player, winner) == 0.0 <==> winner == None
    ensures Reward(player, winner) == 1.0 <==> winner != None && winner == player
    ensures winner != None ==> Reward(Opponent(player), winner) == -Reward(player, winner)
  {
  }

  /** std::pow(0.95, k) */
  function Discount(k: nat): (d: real)
    ensures 0.0 < d <= 1.0
    ensures k > 0 ==> d < 1.0
  {
    if k == 0 then 1.0 else 0.95 * Discount(k - 1)
  }

  /** Every further ply back from the end discounts by another 0.95. */
  lemma {:induction false} DiscountDecreasing(j: nat, k: nat)
    requires j < k
    ensures Discount(k) < Discount(j)
    decreases k
  {
    if j < k - 1 {
      DiscountDecreasing(j, k - 1);
    }
  }

  /** The value TrainOnGame trains the played move towards, k plies before the end. */
  function MoveTarget(reward: real, k: nat): real {
    0.5 + reward * Discount(k) * 0.5
  }

  /** For a reward in [-1, 1] the target is in [0, 1]; above one half for a win, below for
      a loss, and one half for a draw. */
  lemma MoveTargetRange(reward: real, k: nat)
    requires -1.0 <= reward <= 1.0
    ensures 0.0 <= MoveTarget(reward, k) <= 1.0
    ensures reward > 0.0 ==> MoveTarget(reward, k) > 0.5
    ensures reward < 0.0 ==> MoveTarget(reward, k) < 0.5
    ensures reward == 0.0 ==> MoveTarget(reward, k) == 0.5
  {
    var d := Discount(k);
    if reward >= 0.0 {
      assert reward * d <= 1.0 * d;
    } else {
      assert -reward * d <= 1.0 * d;
    }
  }

  /** The target of one position: the network's prediction with the played move's entry
      replaced. */
  function Target(prediction: seq<real>, move: int, reward: real, k: nat): (target: seq<real>)
    requires 0 <= move < |prediction|
    ensures |target| == |prediction|
  {
    prediction[move := MoveTarget(reward, k)]
  }

  /** The target differs from the prediction only at the played move, where it lies in
      [0, 1]. */
  lemma TargetSpec(prediction: seq<real>, move: int, reward: real, k: nat)
    requires 0 <= move < |prediction| && -1.0 <= reward <= 1.0
    ensures forall c :: 0 <= c < |prediction| && c != move ==> Target(prediction, move, reward, k)[c] == prediction[c]
    ensures 0.0 <= Target(prediction, move, reward, k)[move] <= 1.0
  {
    MoveTargetRange(reward, k);
  }

  /** A record of the game from the empty board through positions to its last position:
      one state, player and move per ply, the players alternate from PLAYER1, every move
      is legal in an undecided position, and each state is that position's input for the
      player to move. */
  predicate Played(states: seq<seq<real>>, players: seq<Player>, moves: seq<int>, positions: seq<Position>) {
    |players| == |states| && |moves| == |states| && |positions| == |states| + 1 &&
    positions[0] == EmptyPosition() &&
    forall i :: 0 <= i < |states| ==>
      players[i] == PlyPlayer(i) && !GameOver(positions[i]) && Legal(positions[i], moves[i]) &&
      states[i] == Encode(positions[i], players[i]) &&
      positions[i + 1] == Play(positions[i], moves[i], players[i])
  }

  lemma PlayedAppend(states: seq<seq<real>>, players: seq<Player>, moves: seq<int>, positions: seq<Position>,
                     state: seq<real>, move: int, next: Position)
    requires Played(states, players, moves, positions)
    requires var g, p := positions[|states|], PlyPlayer(|states|);
      !GameOver(g) && Legal(g, move) && state == Encode(g, p) && next == Play(g, move, p)
    ensures Played(states + [state], players + [PlyPlayer(|states|)], moves + [move], positions + [next])
  {
    var n := |states|;
    var states', players', moves', positions' :=
      states + [state], players + [PlyPlayer(n)], moves + [move], positions + [next];
    forall i | 0 <= i <= n
      ensures players'[i] == PlyPlayer(i) && !GameOver(positions'[i]) && Legal(positions'[i], moves'[i])
      ensures states'[i] == Encode(positions'[i], players'[i])
      ensures positions'[i + 1] == Play(positions'[i], moves'[i], players'[i])
    {
      if i < n {
        assert states'[i] == states[i] && players'[i] == players[i] && moves'[i] == moves[i];
        assert positions'[i] == positions[i] && positions'[i + 1] == positions[i + 1];
      }
    }
  }

  class GameTrainer<N> {
    /** trainer.network */
    var network: N
    /** The number of draws from rng so far. */
    var samples: nat
    const predict: N -> seq<real> -> Output
    const train: (N, seq<real>, seq<real>, real) -> N
    const explorationRate: real
    const coin: nat -> real
    const roll: nat -> nat

    /** GameTrainer::GameTrainer */
    constructor (network: N, predict: N -> seq<real> -> Output, train: (N, seq<real>, seq<real>, real) -> N,
                 explorationRate: real, coin: nat -> real, roll: nat -> nat)
      ensures this.network == network && samples == 0
      ensures this.predict == predict && this.train == train && this.explorationRate == explorationRate
      ensures this.coin == coin && this.roll == roll
    {
      this.network := network;
      this.predict := predict;
      this.train := train;
      this.explorationRate := explorationRate;
      this.coin := coin;
      this.roll := roll;
      samples := 0;
    }

    /** GameTrainer::SelectMove: -1 without legal moves; otherwise a legal move, drawn at
        random when exploring and the first draw is below the exploration rate, and else
        the exploitation move of the network's output, as AIPlayer::SelectMove picks it. */
    method SelectMove(board: Board, player: Player, explore: bool) returns (move: int)
      requires board.Valid()
      modifies this
      ensures network == old(network) && samples >= old(samples)
      ensures move == -1 <==> Full(board.Value())
      ensures !Full(board.Value()) ==> Legal(board.Value(), move)
      ensures !Full(board.Value()) && !(explore && coin(old(samples)) < explorationRate) ==>
        move == Exploit(board.Value(), predict(network)(Encode(board.Value(), player)))
    {
      ghost var g := board.Value();
      FullIffNoLegalMoves(g);
      MovesLegal(g);
      var validMoves := board.GetValidMoves();
      if |validMoves| == 0 {
        return -1;
      }
      if explore {
        var c := coin(samples);
        samples := samples + 1;
        if c < explorationRate {
          var r := roll(samples);
          samples := samples + 1;
          return validMoves[r % |validMoves|];
        }
      }
      var input := board.BoardToInput(player);
      var output := predict(network)(input);
      move := BestLegal(validMoves, output);
      ExploitSpec(g, output);
    }

    /** One pass of the loop of PlaySelfPlayGame from an undecided board: the state for
        the player to move, an exploring move, which is legal, and the board after it. */
    method GamePass(board: Board, currentPlayer: Player) returns (state: seq<real>, move: int, over: bool)
      requires board.Valid() && !GameOver(board.Value())
      modifies this, board.cells, board.heights
      ensures board.Valid() && network == old(network)
      ensures state == Encode(old(board.Value()), currentPlayer) && Legal(old(board.Value()), move)
      ensures board.Value() == Play(old(board.Value()), move, currentPlayer)
      ensures over == GameOver(board.Value())
    {
      state := board.BoardToInput(currentPlayer);
      move := SelectMove(board, currentPlayer, true);
      var _ := board.MakeMove(move, currentPlayer);
      over := board.IsGameOver();
    }

    /** A pass of the loop of PlaySelfPlayGame, with its state, player and move added to
        the record so far; the move uses up a free cell. */
    method RecordGamePass(board: Board, currentPlayer: Player, states: seq<seq<real>>, players: seq<Player>,
                          moves: seq<int>, ghost positions: seq<Position>)
      returns (states': seq<seq<real>>, players': seq<Player>, moves': seq<int>, ghost positions': seq<Position>,
               over: bool)
      requires board.Valid() && !GameOver(board.Value()) && currentPlayer == PlyPlayer(|states|)
      requires Played(states, players, moves, positions) && positions[|states|] == board.Value()
      modifies this, board.cells, board.heights
      ensures board.Valid() && network == old(network)
      ensures Played(states', players', moves', positions') && positions'[|states'|] == board.Value()
      ensures |states'| == |states| + 1 && over == GameOver(board.Value())
      ensures FreeSlots(board.Value()) < FreeSlots(old(board.Value()))
    {
      ghost var before := board.Value();
      var state, move;
      state, move, over := GamePass(board, currentPlayer);
      ghost var after := board.Value();
      PlayedAppend(states, players, moves, positions, state, move, after);
      PlayUsesSlot(before, move, currentPlayer);
      states', players', moves' := states + [state], players + [currentPlayer], moves + [move];
      positions' := positions + [after];
    }

    /** The loop of PlaySelfPlayGame from the empty board, PLAYER1 to move. */
    method GameLoop(board: Board) returns (states: seq<seq<real>>, players: seq<Player>, moves: seq<int>,
                                           ghost positions: seq<Position>)
      requires board.Valid() && board.Value() == EmptyPosition()
      modifies this, board.cells, board.heights
      ensures board.Valid() && network == old(network)
      ensures Played(states, players, moves, positions) && positions[|states|] == board.Value()
      ensures GameOver(board.Value())
    {
      var currentPlayer := Player1;
      states, players, moves := [], [], [];
      positions := [board.Value()];
      var over := board.IsGameOver();
      while !over
        invariant board.Valid()
        invariant network == old(network)
        invariant Played(states, players, moves, positions) && positions[|states|] == board.Value()
        invariant over == GameOver(board.Value())
        invariant currentPlayer == PlyPlayer(|states|)
        decreases FreeSlots(board.Value())
      {
        states, players, moves, positions, over := RecordGamePass(board, currentPlayer, states, players, moves, positions);
        PlyPlayerNext(|states| - 1);
        currentPlayer := if currentPlayer == Player1 then Player2 else Player1;
      }
    }

    /** GameTrainer::PlaySelfPlayGame: every move is legal, so MakeMove always succeeds
        and the game runs to its end; the record holds the game and its winner. */
    method PlaySelfPlayGame() returns (record: GameRecord, ghost positions: seq<Position>)
      modifies this
      ensures network == old(network)
      ensures Played(record.states, record.players, record.moves, positions)
      ensures GameOver(positions[|positions| - 1]) && record.winner == Winner(positions[|positions| - 1])
    {
      var board := new Board();
      var states, players, moves;
      states, players, moves, positions := GameLoop(board);
      var winner := board.CheckWinner();
      record := GameRecord(states, players, moves, winner);
    }

    /** The network after training on the positions of record from the i-th on. */
    ghost function TrainedFrom(net: N, record: GameRecord, learningRate: real, i: nat): N
      requires |record.moves| == |record.states| && |record.players| == |record.states|
      requires forall k :: 0 <= k < |record.moves| ==> 0 <= record.moves[k] < Cols
      decreases |record.states| - i
    {
      if i >= |record.states| then net
      else
        var state := record.states[i];
        var target := Target(predict(net)(state), record.moves[i], Reward(record.players[i], record.winner),
                             |record.states| - i - 1);
        TrainedFrom(train(net, state, target, learningRate), record, learningRate, i + 1)
    }

    lemma TrainedFromStep(net: N, record: GameRecord, learningRate: real, i: nat)
      requires |record.moves| == |record.states| && |record.players| == |record.states|
      requires forall k :: 0 <= k < |record.moves| ==> 0 <= record.moves[k] < Cols
      requires i < |record.states|
      ensures TrainedFrom(net, record, learningRate, i) ==
        TrainedFrom(train(net, record.states[i],
                          Target(predict(net)(record.states[i]), record.moves[i],
                                 Reward(record.players[i], record.winner), |record.states| - i - 1),
                          learningRate),
                    record, learningRate, i + 1)
    {
    }

    /** GameTrainer::TrainOnGame */
    method TrainOnGame(record: GameRecord, learningRate: real)
      requires |record.moves| == |record.states| && |record.players| == |record.states|
      requires forall k :: 0 <= k < |record.moves| ==> 0 <= record.moves[k] < Cols
      modifies this
      ensures network == TrainedFrom(old(network), record, learningRate, 0) && samples == old(samples)
    {
      ghost var start := network;
      for i := 0 to |record.states|
        invariant samples == old(samples)
        invariant TrainedFrom(start, record, learningRate, 0) == TrainedFrom(network, record, learningRate, i)
      {
        var state := record.states[i];
        var move := record.moves[i];
        var player := record.players[i];
        var reward := Reward(player, record.winner);
        var discountedReward := reward * Discount(|record.states| - i - 1);
        var target := predict(network)(state);
        target := target[move := 0.5 + discountedReward * 0.5];
        assert target == Target(predict(network)(state), move, reward, |record.states| - i - 1);
        TrainedFromStep(network, record, learningRate, i);
        network := train(network, state, target, learningRate);
      }
    }

    /** The network after training on each of records in turn, as TrainOnGame does. */
    ghost function TrainedOnGames(net: N, records: seq<GameRecord>, learningRate: real): N
      requires AllTrainable(records)
      decreases |records|
    {
      if records == [] then net
      else
        var k := |records| - 1;
        assert Trainable(records[k]);
        TrainedFrom(TrainedOnGames(net, records[..k], learningRate), records[k], learningRate, 0)
    }

    /** One iteration of the loop of Train: a self-play game, then training on it. */
    method PlayAndTrain(learningRate: real) returns (record: GameRecord, ghost positions: seq<Position>)
      modifies this
      ensures FinishedGame(record, positions) && Trainable(record)
      ensures network == TrainedFrom(old(network), record, learningRate, 0)
    {
      record, positions := PlaySelfPlayGame();
      RecordedMovesInRange(record, positions);
      TrainOnGame(record, learningRate);
    }

    /** Adding a game to those of Train keeps its loop invariant. */
    lemma AppendGame(records: seq<GameRecord>, games: seq<seq<Position>>, record: GameRecord,
                     positions: seq<Position>, net: N, learningRate: real)
      requires AllFinished(records, games) && AllTrainable(records)
      requires FinishedGame(record, positions) && Trainable(record)
      ensures AllFinished(records + [record], games + [positions]) && AllTrainable(records + [record])
      ensures forall w :: WonBy(records + [record], w) == WonBy(records, w) + if record.winner == w then 1 else 0
      ensures TrainedOnGames(net, records + [record], learningRate) ==
        TrainedFrom(TrainedOnGames(net, records, learningRate), record, learningRate, 0)
    {
      var rs, gs := records + [record], games + [positions];
      forall g | 0 <= g < |rs|
        ensures FinishedGame(rs[g], gs[g]) && Trainable(rs[g])
      {
        if g < |records| {
          assert rs[g] == records[g] && gs[g] == games[g];
        }
      }
      assert rs[..|records|] == records;
    }

    /** The state Train keeps after the games of records: the counters count their winners
        and the network is start trained on each of them in turn. */
    ghost predicate TrainedOn(start: N, learningRate: real, player1Wins: int, player2Wins: int, draws: int,
                              records: seq<GameRecord>, games: seq<seq<Position>>)
      reads this
    {
      AllFinished(records, games) && AllTrainable(records) &&
      player1Wins == WonBy(records, Player1) && player2Wins == WonBy(records, Player2) &&
      draws == WonBy(records, None) && network == TrainedOnGames(start, records, learningRate)
    }

    /** One iteration of the loop of Train: a game is played, counted by its winner and
        trained on. */
    method TrainPass(learningRate: real, ghost start: N, player1Wins: int, player2Wins: int, draws: int,
                     ghost records: seq<GameRecord>, ghost games: seq<seq<Position>>)
      returns (player1Wins': int, player2Wins': int, draws': int,
               ghost records': seq<GameRecord>, ghost games': seq<seq<Position>>)
      requires TrainedOn(start, learningRate, player1Wins, player2Wins, draws, records, games)
      modifies this
      ensures TrainedOn(start, learningRate, player1Wins', player2Wins', draws', records', games')
      ensures |records'| == |records| + 1
    {
      var record;
      ghost var positions;
      record, positions := PlayAndTrain(learningRate);
      player1Wins', player2Wins', draws' := player1Wins, player2Wins, draws;
      if record.winner == Player1 {
        player1Wins' := player1Wins + 1;
      } else if record.winner == Player2 {
        player2Wins' := player2Wins + 1;
      } else {
        draws' := draws + 1;
      }
      AppendGame(records, games, record, positions, start, learningRate);
      records', games' := records + [record], games + [positions];
    }

    /** GameTrainer::Train: numGames games, each a finished game of the self-play loop,
        counted once by its winner and then trained on; the counters are returned. */
    method Train(numGames: int, learningRate: real)
      returns (player1Wins: int, player2Wins: int, draws: int, ghost records: seq<GameRecord>, ghost games: seq<seq<Position>>)
      modifies this
      ensures |records| == if numGames > 0 then numGames else 0
      ensures AllFinished(records, games) && AllTrainable(records)
      ensures player1Wins == WonBy(records, Player1) && player2Wins == WonBy(records, Player2)
      ensures draws == WonBy(records, None)
      ensures player1Wins + player2Wins + draws == |records|
      ensures network == TrainedOnGames(old(network), records, learningRate)
    {
      player1Wins, player2Wins, draws := 0, 0, 0;
      records, games := [], [];
      var game := 0;
      while game < numGames
        invariant 0 <= game && (game <= numGames || game == 0)
        invariant |records| == game
        invariant TrainedOn(old(network), learningRate, player1Wins, player2Wins, draws, records, games)
      {
        player1Wins, player2Wins, draws, records, games :=
          TrainPass(learningRate, old(network), player1Wins, player2Wins, draws, records, games);
        game := game + 1;
      }
      WonByPartition(records);
    }
  }

  /** A record TrainOnGame accepts: one move and one player per state, every move a
      column. */
  predicate Trainable(record: GameRecord) {
    |record.moves| == |record.states| && |record.players| == |record.states| &&
    forall k :: 0 <= k < |record.moves| ==> 0 <= record.moves[k] < Cols
  }

  /** Every record is one TrainOnGame accepts. */
  predicate AllTrainable(records: seq<GameRecord>) {
    forall g :: 0 <= g < |records| ==> Trainable(records[g])
  }

  /** Game g of records was played through games[g] and finished. */
  predicate AllFinished(records: seq<GameRecord>, games: seq<seq<Position>>) {
    |records| == |games| && forall g :: 0 <= g < |records| ==> FinishedGame(records[g], games[g])
  }

  /** record is the record of the game played through positions, which ends finished and
      won by the record's winner. */
  predicate FinishedGame(record: GameRecord, positions: seq<Position>) {
    Played(record.states, record.players, record.moves, positions) &&
    GameOver(positions[|positions| - 1]) && record.winner == Winner(positions[|positions| - 1])
  }

  /** The number of the games of records that winner won; for None, the draws. */
  function WonBy(records: seq<GameRecord>, winner: Player): (n: nat)
    ensures n <= |records|
    decreases |records|
  {
    if records == [] then 0
    else WonBy(records[..|records| - 1], winner) + (if records[|records| - 1].winner == winner then 1 else 0)
  }

  /** Every game is won by PLAYER1, by PLAYER2 or by nobody, and is counted once. */
  lemma {:induction false} WonByPartition(records: seq<GameRecord>)
    ensures WonBy(records, Player1) + WonBy(records, Player2) + WonBy(records, None) == |records|
    decreases |records|
  {
    if records != [] {
      WonByPartition(records[..|records| - 1]);
    }
  }

  /** The moves of a played game are columns. */
  lemma RecordedMovesInRange(record: GameRecord, positions: seq<Position>)
    requires Played(record.states, record.players, record.moves, positions)
    ensures forall k :: 0 <= k < |record.moves| ==> 0 <= record.moves[k] < Cols
  {
  }
}
