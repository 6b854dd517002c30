/** The tic-tac-toe board of C/ttt.c: nine squares, row by row, each ' ', 'X' or 'O', and
    the mark of the player to move.  board_game_over is modelled exactly as written,
    including its "row" triples (i, i+1, i+2), and beside it the check with the three real
    rows, with what each of them finds proved. */
module TicTacToe {
  const Empty: char := ' '
  const X: char := 'X'
  const O: char := 'O'

  /** The strings board_game_over returns: X_WON, O_WON, DRAW, or NULL (Open). */
  datatype Outcome = XWon | OWon | Draw | Open

  /** The mark that moves after m: board_play's toggle. */
  function Toggle(m: char): (n: char)
    ensures n == X || n == O
    ensures m == X <==> n == O
  {
    if m == X then O else X
  }

  /** Squares a, b and c all hold m. */
  predicate Three(s: seq<char>, a: int, b: int, c: int, m: char)
    requires |s| == 9 && 0 <= a < 9 && 0 <= b < 9 && 0 <= c < 9
  {
    s[a] == m && s[b] == m && s[c] == m
  }

  predicate Filled(s: seq<char>)
    requires |s| == 9
  {
    forall i :: 0 <= i < 9 ==> s[i] != Empty
  }

  // ---------------------------------------------------------------------------
  // board_game_over as written
  // ---------------------------------------------------------------------------

  /** The loop at the end of board_game_over from iteration i on: the "row" triple
      (i, i+1, i+2), then the column (i, i+3, i+6), X before O. */
  function ScanAsWritten(s: seq<char>, i: nat, filled: bool): Outcome
    requires |s| == 9 && i <= 3
    decreases 3 - i
  {
    if i == 3 then (if filled then Draw else Open)
    else if Three(s, i, i + 1, i + 2, X) then XWon
    else if Three(s, i, i + 1, i + 2, O) then OWon
    else if Three(s, i, i + 3, i + 6, X) then XWon
    else if Three(s, i, i + 3, i + 6, O) then OWon
    else ScanAsWritten(s, i + 1, filled)
  }

  /** board_game_over: the diagonals for X, then for O, then the loop, then Draw if every
      square is filled. */
  function GameOverAsWritten(s: seq<char>): Outcome
    requires |s| == 9
  {
    if Three(s, 0, 4, 8, X) || Three(s, 2, 4, 6, X) then XWon
    else if Three(s, 0, 4, 8, O) || Three(s, 2, 4, 6, O) then OWon
    else ScanAsWritten(s, 0, Filled(s))
  }

  // ---------------------------------------------------------------------------
  // The eight lines of the game
  // ---------------------------------------------------------------------------

  /** The squares of line l: rows 0..2, columns 3..5, diagonals 6 and 7. */
  function LineSquares(l: int): (t: (int, int, int))
    requires 0 <= l < 8
    ensures 0 <= t.0 < 9 && 0 <= t.1 < 9 && 0 <= t.2 < 9
  {
    if l < 3 then (3 * l, 3 * l + 1, 3 * l + 2)
    else if l < 6 then (l - 3, l, l + 3)
    else if l == 6 then (0, 4, 8)
    else (2, 4, 6)
  }

  predicate LineOf(s: seq<char>, l: int, m: char)
    requires |s| == 9 && 0 <= l < 8
  {
    var t := LineSquares(l);
    Three(s, t.0, t.1, t.2, m)
  }

  predicate HasLine(s: seq<char>, m: char)
    requires |s| == 9
  {
    exists l :: 0 <= l < 8 && LineOf(s, l, m)
  }

  /** The middle row of X is missed: the game goes on. */
  lemma MiddleRowMissed()
    ensures var s := ['O', 'O', ' ', 'X', 'X', 'X', ' ', ' ', ' '];
      HasLine(s, X) && GameOverAsWritten(s) == Open
  {
    var s := ['O', 'O', ' ', 'X', 'X', 'X', ' ', ' ', ' '];
    assert LineOf(s, 1, X);
    assert !Filled(s) by { assert s[2] == Empty; }
  }

  /** Three X across the end of the top row and the start of the middle row win. */
  lemma BrokenRowWins()
    ensures var s := [' ', 'X', 'X', 'X', 'O', ' ', 'O', ' ', ' '];
      !HasLine(s, X) && GameOverAsWritten(s) == XWon
  {
    var s := [' ', 'X', 'X', 'X', 'O', ' ', 'O', ' ', ' '];
    forall l | 0 <= l < 8
      ensures !LineOf(s, l, X)
    {
      if l < 3 {
        assert s[3 * l] != X || s[3 * l + 1] != X || s[3 * l + 2] != X;
      }
    }
  }

  /** The triples the check as written tests: k < 3 the "row" (k, k+1, k+2), and from 3 on
      the columns and diagonals of LineSquares. */
  function CheckedSquares(k: int): (t: (int, int, int))
    requires 0 <= k < 8
    ensures 0 <= t.0 < 9 && 0 <= t.1 < 9 && 0 <= t.2 < 9
    ensures k >= 3 ==> t == LineSquares(k)
  {
    if k < 3 then (k, k + 1, k + 2) else LineSquares(k)
  }

  predicate CheckedOf(s: seq<char>, k: int, m: char)
    requires |s| == 9 && 0 <= k < 8
  {
    var t := CheckedSquares(k);
    Three(s, t.0, t.1, t.2, m)
  }

  predicate HasChecked(s: seq<char>, m: char)
    requires |s| == 9
  {
    exists k :: 0 <= k < 8 && CheckedOf(s, k, m)
  }

  /** The "row" or the column of iteration j is complete for m. */
  predicate CheckedAt(s: seq<char>, j: int, m: char)
    requires |s| == 9 && 0 <= j < 3
  {
    CheckedOf(s, j, m) || CheckedOf(s, j + 3, m)
  }

  /** What the loop as written finds from iteration i: one of its triples, or what filled
      says when there is none. */
  lemma {:induction false} ScanAsWrittenSpec(s: seq<char>, i: nat, filled: bool)
    requires |s| == 9 && i <= 3
    ensures ScanAsWritten(s, i, filled) == XWon ==> exists j :: i <= j < 3 && CheckedAt(s, j, X)
    ensures ScanAsWritten(s, i, filled) == OWon ==> exists j :: i <= j < 3 && CheckedAt(s, j, O)
    ensures (exists j :: i <= j < 3 && (CheckedAt(s, j, X) || CheckedAt(s, j, O))) <==>
      ScanAsWritten(s, i, filled) in {XWon, OWon}
    ensures ScanAsWritten(s, i, filled) !in {XWon, OWon} ==> ScanAsWritten(s, i, filled) == if filled then Draw else Open
    decreases 3 - i
  {
    if i < 3 {
      ScanAsWrittenSpec(s, i + 1, filled);
      assert CheckedAt(s, i, X) <==> Three(s, i, i + 1, i + 2, X) || Three(s, i, i + 3, i + 6, X);
      assert CheckedAt(s, i, O) <==> Three(s, i, i + 1, i + 2, O) || Three(s, i, i + 3, i + 6, O);
    }
  }

  /** The check as written, on every board: it reports a mark's win only when one of the
      triples it tests is complete for that mark, it reports a win exactly when some tested
      triple is complete, and otherwise Draw exactly when every square is filled. */
  lemma GameOverAsWrittenSpec(s: seq<char>)
    requires |s| == 9
    ensures GameOverAsWritten(s) == XWon ==> HasChecked(s, X)
    ensures GameOverAsWritten(s) == OWon ==> HasChecked(s, O)
    ensures HasChecked(s, X) || HasChecked(s, O) <==> GameOverAsWritten(s) in {XWon, OWon}
    ensures GameOverAsWritten(s) == Draw <==> !HasChecked(s, X) && !HasChecked(s, O) && Filled(s)
    ensures GameOverAsWritten(s) == Open <==> !HasChecked(s, X) && !HasChecked(s, O) && !Filled(s)
  {
    ScanAsWrittenSpec(s, 0, Filled(s));
    if HasChecked(s, X) || HasChecked(s, O) {
      var k :| 0 <= k < 8 && (CheckedOf(s, k, X) || CheckedOf(s, k, O));
      var j := if k < 3 then k else if k < 6 then k - 3 else 0;
      assert k < 6 ==> CheckedAt(s, j, X) || CheckedAt(s, j, O);
      assert k >= 6 ==> CheckedSquares(k) == LineSquares(k);
    }
    if GameOverAsWritten(s) == XWon && !Three(s, 0, 4, 8, X) && !Three(s, 2, 4, 6, X) {
      var j :| 0 <= j < 3 && CheckedAt(s, j, X);
      assert CheckedOf(s, j, X) || CheckedOf(s, j + 3, X);
    }
    if GameOverAsWritten(s) == OWon && !Three(s, 0, 4, 8, O) && !Three(s, 2, 4, 6, O) {
      var j :| 0 <= j < 3 && CheckedAt(s, j, O);
      assert CheckedOf(s, j, O) || CheckedOf(s, j + 3, O);
    }
    if GameOverAsWritten(s) == XWon && (Three(s, 0, 4, 8, X) || Three(s, 2, 4, 6, X)) {
      assert CheckedOf(s, 6, X) || CheckedOf(s, 7, X);
    }
    if GameOverAsWritten(s) == OWon && (Three(s, 0, 4, 8, O) || Three(s, 2, 4, 6, O)) {
      assert CheckedOf(s, 6, O) || CheckedOf(s, 7, O);
    }
  }

  // ---------------------------------------------------------------------------
  // board_game_over with the three rows
  // ---------------------------------------------------------------------------

  /** The loop with row i as (3i, 3i+1, 3i+2). */
  function ScanRows(s: seq<char>, i: nat, filled: bool): Outcome
    requires |s| == 9 && i <= 3
    decreases 3 - i
  {
    if i == 3 then (if filled then Draw else Open)
    else if Three(s, 3 * i, 3 * i + 1, 3 * i + 2, X) then XWon
    else if Three(s, 3 * i, 3 * i + 1, 3 * i + 2, O) then OWon
    else if Three(s, i, i + 3, i + 6, X) then XWon
    else if Three(s, i, i + 3, i + 6, O) then OWon
    else ScanRows(s, i + 1, filled)
  }

  /** board_game_over with the rows the comment "check rows" means. */
  function GameOver(s: seq<char>): Outcome
    requires |s| == 9
  {
    if Three(s, 0, 4, 8, X) || Three(s, 2, 4, 6, X) then XWon
    else if Three(s, 0, 4, 8, O) || Three(s, 2, 4, 6, O) then OWon
    else ScanRows(s, 0, Filled(s))
  }

  /** Row j or column j is complete for m. */
  predicate RowOrColumn(s: seq<char>, j: int, m: char)
    requires |s| == 9 && 0 <= j < 3
  {
    LineOf(s, j, m) || LineOf(s, j + 3, m)
  }

  /** What the loop from i finds: a line among rows and columns i..2, or what filled says
      when there is none. */
  lemma {:induction false} ScanRowsSpec(s: seq<char>, i: nat, filled: bool)
    requires |s| == 9 && i <= 3
    ensures ScanRows(s, i, filled) == XWon ==> exists j :: i <= j < 3 && RowOrColumn(s, j, X)
    ensures ScanRows(s, i, filled) == OWon ==> exists j :: i <= j < 3 && RowOrColumn(s, j, O)
    ensures (exists j :: i <= j < 3 && (RowOrColumn(s, j, X) || RowOrColumn(s, j, O))) <==>
      ScanRows(s, i, filled) in {XWon, OWon}
    ensures ScanRows(s, i, filled) !in {XWon, OWon} ==> ScanRows(s, i, filled) == if filled then Draw else Open
    decreases 3 - i
  {
    if i < 3 {
      ScanRowsSpec(s, i + 1, filled);
      assert RowOrColumn(s, i, X) <==>
        Three(s, 3 * i, 3 * i + 1, 3 * i + 2, X) || Three(s, i, i + 3, i + 6, X);
      assert RowOrColumn(s, i, O) <==>
        Three(s, 3 * i, 3 * i + 1, 3 * i + 2, O) || Three(s, i, i + 3, i + 6, O);
    }
  }

  /** The three-row check is right: a win is reported exactly when one of the eight lines
      is complete, for the mark whose line it is, and otherwise Draw exactly on a filled
      board. */
  lemma GameOverSpec(s: seq<char>)
    requires |s| == 9
    ensures GameOver(s) == XWon ==> HasLine(s, X)
    ensures GameOver(s) == OWon ==> HasLine(s, O)
    ensures HasLine(s, X) || HasLine(s, O) <==> GameOver(s) in {XWon, OWon}
    ensures GameOver(s) == Draw <==> !HasLine(s, X) && !HasLine(s, O) && Filled(s)
    ensures GameOver(s) == Open <==> !HasLine(s, X) && !HasLine(s, O) && !Filled(s)
  {
    ScanRowsSpec(s, 0, Filled(s));
    if HasLine(s, X) || HasLine(s, O) {
      var l :| 0 <= l < 8 && (LineOf(s, l, X) || LineOf(s, l, O));
      var j := if l < 3 then l else if l < 6 then l - 3 else 0;
      assert l < 6 ==> RowOrColumn(s, j, X) || RowOrColumn(s, j, O);
    }
    if GameOver(s) == XWon && !Three(s, 0, 4, 8, X) && !Three(s, 2, 4, 6, X) {
      var j :| 0 <= j < 3 && RowOrColumn(s, j, X);
      assert LineOf(s, j, X) || LineOf(s, j + 3, X);
    }
    if GameOver(s) == OWon && !Three(s, 0, 4, 8, O) && !Three(s, 2, 4, 6, O) {
      var j :| 0 <= j < 3 && RowOrColumn(s, j, O);
      assert LineOf(s, j, O) || LineOf(s, j + 3, O);
    }
    if GameOver(s) == XWon && (Three(s, 0, 4, 8, X) || Three(s, 2, 4, 6, X)) {
      assert LineOf(s, 6, X) || LineOf(s, 7, X);
    }
    if GameOver(s) == OWon && (Three(s, 0, 4, 8, O) || Three(s, 2, 4, 6, O)) {
      assert LineOf(s, 6, O) || LineOf(s, 7, O);
    }
  }

  /** The triples the two checks test differently are (1,2,3) and (2,3,4) as written,
      rows (3,4,5) and (6,7,8) as meant. */
  predicate DifferentTriplesOpen(s: seq<char>)
    requires |s| == 9
  {
    forall m | m == X || m == O ::
      !Three(s, 1, 2, 3, m) && !Three(s, 2, 3, 4, m) && !Three(s, 3, 4, 5, m) && !Three(s, 6, 7, 8, m)
  }

  lemma {:induction false} ScansAgree(s: seq<char>, i: nat, filled: bool)
    requires |s| == 9 && 1 <= i <= 3 && DifferentTriplesOpen(s)
    ensures ScanAsWritten(s, i, filled) == ScanRows(s, i, filled)
    decreases 3 - i
  {
    if i < 3 {
      ScansAgree(s, i + 1, filled);
      assert !Three(s, i, i + 1, i + 2, X) && !Three(s, i, i + 1, i + 2, O);
      assert !Three(s, 3 * i, 3 * i + 1, 3 * i + 2, X) && !Three(s, 3 * i, 3 * i + 1, 3 * i + 2, O);
    }
  }

  /** The check as written and the three-row check differ only on boards where one of the
      triples they do not share is complete. */
  lemma AsWrittenAgrees(s: seq<char>)
    requires |s| == 9 && DifferentTriplesOpen(s)
    ensures GameOverAsWritten(s) == GameOver(s)
  {
    ScansAgree(s, 1, Filled(s));
  }

  // ---------------------------------------------------------------------------
  // Network input and the count of marks
  // ---------------------------------------------------------------------------

  /** board_set_input_vector: output[i] is 1 iff square i holds the mover's mark, and
      output[i + 9] is 1 iff it holds some other mark. */
  function InputVector(s: seq<char>, turn: char): (v: seq<real>)
    requires |s| == 9
    ensures |v| == 18
  {
    seq(18, k requires 0 <= k < 18 =>
      if k < 9 then (if s[k] == turn then 1.0 else 0.0)
      else (if s[k - 9] != turn && s[k - 9] != Empty then 1.0 else 0.0))
  }

  /** The two halves of the input are never both set for a square, and together they
      set exactly the non-empty squares when the mover's mark is not blank. */
  lemma InputVectorSpec(s: seq<char>, turn: char, i: int)
    requires |s| == 9 && 0 <= i < 9
    ensures InputVector(s, turn)[i] == 1.0 <==> s[i] == turn
    ensures !(InputVector(s, turn)[i] == 1.0 && InputVector(s, turn)[i + 9] == 1.0)
    ensures turn != Empty ==> (InputVector(s, turn)[i] + InputVector(s, turn)[i + 9] == 1.0 <==> s[i] != Empty)
  {
  }

  function Count(s: seq<char>, m: char): (n: nat)
    ensures n <= |s|
  {
    if s == [] then 0 else Count(s[..|s| - 1], m) + (if s[|s| - 1] == m then 1 else 0)
  }

  lemma {:induction false} CountUpdate(s: seq<char>, i: int, m: char, c: char)
    requires 0 <= i < |s|
    ensures Count(s[i := c], m) == Count(s, m) - (if s[i] == m then 1 else 0) + (if c == m then 1 else 0)
  {
    var t := s[i := c];
    if i < |s| - 1 {
      assert t[..|t| - 1] == s[..|s| - 1][i := c];
      CountUpdate(s[..|s| - 1], i, m, c);
    } else {
      assert t[..|t| - 1] == s[..|s| - 1];
    }
  }

  lemma {:induction false} CountBlank(n: nat, m: char)
    requires m != Empty
    ensures Count(seq(n, _ => Empty), m) == 0
  {
    if n > 0 {
      assert seq(n, _ => Empty)[..n - 1] == seq(n - 1, _ => Empty);
      CountBlank(n - 1, m);
    }
  }

  /** A board of a game played from board_init with valid moves only: X has moved as often
      as O when it is X's turn and once more when it is O's. */
  predicate Alternating(s: seq<char>, turn: char)
    requires |s| == 9
  {
    (turn == X || turn == O) &&
    Count(s, X) == Count(s, O) + (if turn == O then 1 else 0)
  }

  lemma InitAlternating()
    ensures Alternating(seq(9, _ => Empty), X)
  {
    CountBlank(9, X);
    CountBlank(9, O);
  }

  /** board_play on a valid square keeps the counts in step with the turn. */
  lemma PlayAlternating(s: seq<char>, turn: char, square: int)
    requires |s| == 9 && 0 <= square < 9 && s[square] == Empty && Alternating(s, turn)
    ensures Alternating(s[square := turn], Toggle(turn))
  {
    CountUpdate(s, square, X, turn);
    CountUpdate(s, square, O, turn);
  }

  // ---------------------------------------------------------------------------
  // The board
  // ---------------------------------------------------------------------------

  class Board {
    const squares: array<char>
    var turn: char

    /** Board board = {0}: every square and the turn are the character 0. */
    constructor ()
      ensures squares.Length == 9 && fresh(squares)
      ensures squares[..] == seq(9, _ => 0 as char) && turn == 0 as char
    {
      squares := new char[9](_ => 0 as char);
      turn := 0 as char;
      new;
      assert squares[..] == seq(9, _ => 0 as char);
    }

    /** board_init */
    method Init()
      requires squares.Length == 9
      modifies this, squares
      ensures squares[..] == seq(9, _ => Empty) && turn == X
      ensures Alternating(squares[..], turn)
    {
      for i := 0 to 9
        invariant forall k :: 0 <= k < i ==> squares[k] == Empty
      {
        squares[i] := Empty;
      }
      turn := X;
      assert squares[..] == seq(9, _ => Empty);
      InitAlternating();
    }

    /** board_set_input_vector, into the first 18 entries of output. */
    method SetInputVector(output: array<real>)
      requires squares.Length == 9 && output.Length >= 18
      modifies output
      ensures output[..18] == InputVector(squares[..], turn)
      ensures output[18..] == old(output[18..])
    {
      ghost var v := InputVector(squares[..], turn);
      for i := 0 to 9
        invariant forall k :: 0 <= k < i ==> output[k] == v[k]
        invariant forall k :: 9 <= k < 9 + i ==> output[k] == v[k]
        invariant output[18..] == old(output[18..])
      {
        output[i] := if squares[i] == turn then 1.0 else 0.0;
        output[i + 9] := if squares[i] != turn && squares[i] != Empty then 1.0 else 0.0;
      }
      assert output[..18] == v;
    }

    /** board_game_over, as written. */
    method GameOverCheck() returns (r: Outcome)
      requires squares.Length == 9
      ensures r == GameOverAsWritten(squares[..])
    {
      ghost var s := squares[..];
      var filled := true;
      for i := 0 to 9
        invariant filled <==> forall k :: 0 <= k < i ==> s[k] != Empty
      {
        if squares[i] == Empty {
          filled := false;
          break;
        }
      }
      assert filled == Filled(s);
      if (squares[0] == X && squares[4] == X && squares[8] == X) ||
         (squares[2] == X && squares[4] == X && squares[6] == X) {
        return XWon;
      }
      if (squares[0] == O && squares[4] == O && squares[8] == O) ||
         (squares[2] == O && squares[4] == O && squares[6] == O) {
        return OWon;
      }
      for i := 0 to 3
        invariant ScanAsWritten(s, i, filled) == GameOverAsWritten(s)
      {
        if squares[i] == X && squares[i + 1] == X && squares[i + 2] == X {
          return XWon;
        }
        if squares[i] == O && squares[i + 1] == O && squares[i + 2] == O {
          return OWon;
        }
        if squares[i] == X && squares[i + 3] == X && squares[i + 6] == X {
          return XWon;
        }
        if squares[i] == O && squares[i + 3] == O && squares[i + 6] == O {
          return OWon;
        }
      }
      if filled {
        return Draw;
      }
      return Open;
    }

    /** board_valid_move */
    predicate ValidMove(square: int): (r: bool)
      reads squares
      requires squares.Length == 9 && 0 <= square < 9
      ensures r ==> squares[square] != X && squares[square] != O
    {
      squares[square] == Empty
    }

    /** board_play: the mover's mark on the square, and the turn passes. */
    method Play(square: int)
      requires squares.Length == 9 && 0 <= square < 9
      modifies this, squares
      ensures squares[..] == old(squares[..])[square := old(turn)]
      ensures turn == Toggle(old(turn))
      ensures old(ValidMove(square)) && old(Alternating(squares[..], turn)) ==> Alternating(squares[..], turn)
    {
      ghost var s := squares[..];
      squares[square] := turn;
      if turn == X {
        turn := O;
      } else {
        turn := X;
      }
      if s[square] == Empty && Alternating(s, old(turn)) {
        PlayAlternating(s, old(turn), square);
      }
    }
  }

  // ---------------------------------------------------------------------------
  // The game loop
  // ---------------------------------------------------------------------------

  /** The loop of tic_tac_toe, with the squares read_input returns (0 to 8) given as a
      sequence: while board_game_over finds no result, the next square is played when
      board_valid_move accepts it and skipped otherwise.  The loop also ends when the
      inputs run out.  Since only empty squares are played, no mark is ever overwritten
      and the two players' counts stay in step with the turn. */
  method PlayGame(board: Board, inputs: seq<int>) returns (r: Outcome, used: nat)
    requires board.squares.Length == 9 && Alternating(board.squares[..], board.turn)
    requires forall k :: 0 <= k < |inputs| ==> 0 <= inputs[k] < 9
    modifies board, board.squares
    ensures used <= |inputs|
    ensures r == GameOverAsWritten(board.squares[..])
    ensures r == Open ==> used == |inputs|
    ensures Alternating(board.squares[..], board.turn)
    ensures forall k :: 0 <= k < 9 && old(board.squares[k]) != Empty ==> board.squares[k] == old(board.squares[k])
  {
    used := 0;
    r := board.GameOverCheck();
    while r == Open && used < |inputs|
      invariant used <= |inputs|
      invariant r == GameOverAsWritten(board.squares[..])
      invariant Alternating(board.squares[..], board.turn)
      invariant forall k :: 0 <= k < 9 && old(board.squares[k]) != Empty ==> board.squares[k] == old(board.squares[k])
      decreases |inputs| - used
    {
      var input := inputs[used];
      used := used + 1;
      if !board.ValidMove(input) {
        continue;
      }
      board.Play(input);
      r := board.GameOverCheck();
    }
  }
}
