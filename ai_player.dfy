/** The network player of Cpp/ai_player.cpp.  Its board, Cpp/board.cpp, is the board of
    GameBoard; Board::ToNeuralInput is GameBoard's BoardToInput.

    The network is the parameter predict, whose output has at least one entry per column.
    The random numbers of the exploration branch are parameters of SelectMove: coin is the
    uniform real drawn first and roll the uniform integer drawn second, which chooses
    validMoves[roll % |validMoves|]. */
module AIPlayers {
  import opened GameBoard
  import opened Priors
  import opened Choice

  /** A network output with a value for every column. */
  type Output = s: seq<real> | |s| >= Cols witness seq(Cols, _ => 0.0)

  /** The network's values of the moves, in the order of moves. */
  function MoveScores(moves: seq<int>, output: seq<real>): (vs: seq<real>)
    requires forall k :: 0 <= k < |moves| ==> 0 <= moves[k] < |output|
    ensures |vs| == |moves|
  {
    seq(|moves|, k requires 0 <= k < |moves| => output[moves[k]])
  }

  /** The exploitation move of both legacy players: the first legal column whose value
      in output is strictly greater than that of every column before it, -1 without legal
      moves. */
  function Exploit(g: Position, output: Output): int {
    var moves := LegalMoves(g);
    MovesLegal(g);
    if moves == [] then -1 else moves[FirstBest(MoveScores(moves, output))]
  }

  /** The exploitation move is -1 exactly on a full board; otherwise it is a legal column
      with the greatest value over the legal columns, and every legal column left of it
      has a smaller value. */
  lemma ExploitSpec(g: Position, output: Output)
    ensures Exploit(g, output) == -1 <==> Full(g)
    ensures !Full(g) ==> Legal(g, Exploit(g, output))
    ensures !Full(g) ==> forall c :: Legal(g, c) ==> output[c] <= output[Exploit(g, output)]
    ensures !Full(g) ==> forall c :: Legal(g, c) && c < Exploit(g, output) ==> output[c] < output[Exploit(g, output)]
  {
    FullIffNoLegalMoves(g);
    var moves := LegalMoves(g);
    MovesLegal(g);
    if moves != [] {
      var vs := MoveScores(moves, output);
      var b := FirstBest(vs);
      FirstBestSpec(vs);
      forall c | Legal(g, c)
        ensures output[c] <= output[moves[b]]
        ensures c < moves[b] ==> output[c] < output[moves[b]]
      {
        var j := LegalMoveIndex(g, c);
        assert vs[j] == output[c];
        LegalMovesOrdered(g, j, b);
      }
    }
  }

  /** The exploitation loop of SelectMove: bestValue starts at minus infinity, which the
      model writes as "no move yet". */
  method BestLegal(validMoves: seq<int>, scores: seq<real>) returns (bestMove: int)
    requires validMoves != []
    requires forall k :: 0 <= k < |validMoves| ==> 0 <= validMoves[k] < |scores|
    ensures bestMove == validMoves[FirstBest(MoveScores(validMoves, scores))]
  {
    ghost var vs := MoveScores(validMoves, scores);
    bestMove := -1;
    var bestValue := 0.0;
    ghost var best: nat := 0;
    for i := 0 to |validMoves|
      invariant i == 0 ==> bestMove == -1
      invariant 0 < i ==> best < i && bestMove == validMoves[best] && bestValue == vs[best]
      invariant 0 < i ==> FirstBestFrom(vs, i, best) == FirstBest(vs)
    {
      var col := validMoves[i];
      if bestMove == -1 || scores[col] > bestValue {
        bestValue := scores[col];
        bestMove := col;
        best := i;
      }
    }
  }

  /** AIPlayer::GetMoveProbabilities for a network output: -1 on every column without a
      legal move, else the output on the legal columns and -1 elsewhere. */
  function MoveProbabilities(g: Position, output: Output): (probabilities: seq<real>)
    ensures |probabilities| == Cols
  {
    if LegalMoves(g) == [] then seq(Cols, _ => -1.0)
    else seq(Cols, c requires 0 <= c < Cols => if Legal(g, c) then output[c] else -1.0)
  }

  /** A column holds the output exactly where it is legal and -1 elsewhere, so exploiting
      the probabilities is exploiting the output itself. */
  lemma MoveProbabilitiesSpec(g: Position, output: Output)
    ensures forall c :: 0 <= c < Cols ==>
      MoveProbabilities(g, output)[c] == if Legal(g, c) then output[c] else -1.0
    ensures Exploit(g, MoveProbabilities(g, output)) == Exploit(g, output)
  {
    FullIffNoLegalMoves(g);
    MovesLegal(g);
    var moves := LegalMoves(g);
    if moves != [] {
      assert MoveScores(moves, MoveProbabilities(g, output)) == MoveScores(moves, output);
    }
  }

  /** Copying every legal column of the probabilities onto seven -1 entries rebuilds them. */
  lemma FilledProbabilities(g: Position, output: Output)
    requires LegalMoves(g) != []
    ensures forall k :: 0 <= k < |LegalMoves(g)| ==> 0 <= LegalMoves(g)[k] < Cols
    ensures Filled(seq(Cols, _ => -1.0), LegalMoves(g), MoveProbabilities(g, output), |LegalMoves(g)|) ==
      MoveProbabilities(g, output)
  {
    var moves := LegalMoves(g);
    var base, target := seq(Cols, _ => -1.0), MoveProbabilities(g, output);
    MovesLegal(g);
    FilledSpec(base, moves, target, |moves|);
    assert moves[..|moves|] == moves;
    var q := Filled(base, moves, target, |moves|);
    forall c | 0 <= c < Cols
      ensures q[c] == target[c]
    {
      LegalMovesFromMembers(g, 0);
      assert c in moves <==> Legal(g, c);
    }
  }

  /** The loop of GetMoveProbabilities that copies the output of each legal column. */
  method MapLegal(ghost g: Position, validMoves: seq<int>, output: Output, start: seq<real>)
    returns (probabilities: seq<real>)
    requires validMoves == LegalMoves(g) && validMoves != [] && start == seq(Cols, _ => -1.0)
    ensures probabilities == MoveProbabilities(g, output)
  {
    ghost var target := MoveProbabilities(g, output);
    MovesLegal(g);
    FilledProbabilities(g, output);
    probabilities := start;
    for i := 0 to |validMoves|
      invariant probabilities == Filled(start, validMoves, target, i)
    {
      FilledStep(start, g, target, i, probabilities);
      probabilities := probabilities[validMoves[i] := output[validMoves[i]]];
    }
  }

  class AIPlayer {
    /** network.Predict */
    const predict: seq<real> -> Output
    const explorationRate: real

    /** AIPlayer::AIPlayer */
    constructor (predict: seq<real> -> Output, explorationRate: real)
      ensures this.predict == predict && this.explorationRate == explorationRate
    {
      this.predict := predict;
      this.explorationRate := explorationRate;
    }

    /** AIPlayer::GetMoveProbabilities */
    method GetMoveProbabilities(board: Board, player: Player) returns (probabilities: seq<real>)
      requires board.Valid()
      ensures probabilities == MoveProbabilities(board.Value(), predict(Encode(board.Value(), player)))
    {
      var validMoves := board.GetValidMoves();
      probabilities := seq(Cols, _ => -1.0);
      if |validMoves| == 0 {
        return;
      }
      var input := board.BoardToInput(player);
      var output := predict(input);
      probabilities := MapLegal(board.Value(), validMoves, output, probabilities);
    }

    /** AIPlayer::SelectMove: -1 without legal moves; a legal move otherwise, the roll-th
        legal move when exploring and the coin is below the exploration rate, and the
        exploitation move of the network's output for the board otherwise. */
    method SelectMove(board: Board, player: Player, explore: bool, coin: real, roll: nat) returns (move: int)
      requires board.Valid()
      ensures move == -1 <==> Full(board.Value())
      ensures !Full(board.Value()) ==> Legal(board.Value(), move)
      ensures !Full(board.Value()) && explore && coin < explorationRate ==>
        move == LegalMoves(board.Value())[roll % |LegalMoves(board.Value())|]
      ensures !(explore && coin < explorationRate) ==>
        move == Exploit(board.Value(), predict(Encode(board.Value(), player)))
    {
      ghost var g := board.Value();
      FullIffNoLegalMoves(g);
      MovesLegal(g);
      var validMoves := board.GetValidMoves();
      if |validMoves| == 0 {
        return -1;
      }
      if explore && coin < explorationRate {
        return validMoves[roll % |validMoves|];
      }
      var probabilities := GetMoveProbabilities(board, player);
      move := BestLegal(validMoves, probabilities);
      MoveProbabilitiesSpec(g, predict(Encode(g, player)));
      ExploitSpec(g, predict(Encode(g, player)));
    }
  }
}
