/** The Connect Four board of ConnectFour/board.cpp.

    The board stores 42 cells row-major (row 0 is the bottom row) and one height per
    column giving the next free row.  The pure functions below (Legal, LegalMoves, Play,
    Undo, LineAt, Winner, Full, GameOver, Encode, Mirror, Normalized) say what the board
    operations compute on a board value; the class Board holds the two arrays that the
    source updates in place, and each of its methods is proved against those functions. */
module GameBoard {

  const Rows: int := 6
  const Cols: int := 7
  const BoardSize: int := 42
  const WinLength: int := 4

  datatype Player = None | Player1 | Player2

  /** The opponent as the engine computes it: PLAYER2 for PLAYER1, PLAYER1 for anything else. */
  function Opponent(p: Player): (q: Player)
    ensures q != None
    ensures p != None ==> q != p
  {
    if p == Player1 then Player2 else Player1
  }

  lemma OpponentInvolution(p: Player)
    requires p != None
    ensures Opponent(Opponent(p)) == p
  {
  }

  /** The player to move after i plies of a game PLAYER1 began: PLAYER1 at the even plies. */
  function PlyPlayer(i: int): (p: Player)
    ensures p != None
  {
    if i % 2 == 0 then Player1 else Player2
  }

  /** The plies alternate. */
  lemma PlyPlayerNext(i: int)
    ensures PlyPlayer(i + 1) == Opponent(PlyPlayer(i))
  {
  }

  /** Board::MirrorColumn: the column a column is sent to by a left-right reflection. */
  function MirrorColumn(col: int): (m: int)
    ensures 0 <= col < Cols <==> 0 <= m < Cols
  {
    Cols - 1 - col
  }

  lemma MirrorColumnInvolution(col: int)
    ensures MirrorColumn(MirrorColumn(col)) == col
  {
  }

  // ---------------------------------------------------------------------------
  // Board values
  // ---------------------------------------------------------------------------

  datatype Grid = Grid(cells: seq<Player>, heights: seq<int>)

  predicate OnBoard(r: int, c: int) {
    0 <= r < Rows && 0 <= c < Cols
  }

  predicate WellFormed(g: Grid) {
    |g.cells| == BoardSize && |g.heights| == Cols &&
    forall c :: 0 <= c < Cols ==> 0 <= g.heights[c] <= Rows
  }

  /** Board::GetCell: the cell at (r, c) of the row-major array. */
  function Cell(g: Grid, r: int, c: int): Player
    requires WellFormed(g) && OnBoard(r, c)
  {
    g.cells[r * Cols + c]
  }

  /** Every cell at or above its column's height is empty: the pieces rest on the column. */
  ghost predicate Settled(g: Grid)
    requires WellFormed(g)
  {
    forall r, c :: OnBoard(r, c) && r >= g.heights[c] ==> Cell(g, r, c) == None
  }

  ghost predicate IsPosition(g: Grid) {
    WellFormed(g) && Settled(g)
  }

  function EmptyGrid(): Grid {
    Grid(seq(BoardSize, _ => None), seq(Cols, _ => 0))
  }

  /** A well-formed board whose pieces rest on their columns: every cell at or above its
      column's height is empty.  The board's operations keep this.  The type also admits
      boards no game reaches, such as a column with a NONE piece below its height or two
      players with a line each. */
  type Position = g: Grid | IsPosition(g) witness EmptyGrid()

  function EmptyPosition(): Position {
    EmptyGrid()
  }

  /** Board::IsValidMove */
  predicate Legal(g: Position, col: int) {
    0 <= col < Cols && g.heights[col] < Rows
  }

  /** The columns not below col that accept a piece, in ascending order. */
  function LegalMovesFrom(g: Position, col: nat): seq<int>
    decreases Cols - col
  {
    if col >= Cols then []
    else (if Legal(g, col) then [col] else []) + LegalMovesFrom(g, col + 1)
  }

  lemma {:induction false} LegalMovesFromMembers(g: Position, col: nat)
    ensures forall c :: c in LegalMovesFrom(g, col) <==> col <= c && Legal(g, c)
    decreases Cols - col
  {
    if col < Cols {
      LegalMovesFromMembers(g, col + 1);
    }
  }

  lemma {:induction false} LegalMovesFromSorted(g: Position, col: nat)
    ensures forall i :: 0 <= i < |LegalMovesFrom(g, col)| ==> col <= LegalMovesFrom(g, col)[i]
    ensures forall i, j :: 0 <= i < j < |LegalMovesFrom(g, col)| ==> LegalMovesFrom(g, col)[i] < LegalMovesFrom(g, col)[j]
    decreases Cols - col
  {
    if col < Cols {
      LegalMovesFromSorted(g, col + 1);
    }
  }

  lemma LegalMovesFromStep(g: Position, col: nat, done: seq<int>)
    requires col < Cols
    ensures done + LegalMovesFrom(g, col) ==
            (if Legal(g, col) then done + [col] else done) + LegalMovesFrom(g, col + 1)
  {
    if Legal(g, col) {
      assert LegalMovesFrom(g, col) == [col] + LegalMovesFrom(g, col + 1);
      assert (done + [col]) + LegalMovesFrom(g, col + 1) == done + ([col] + LegalMovesFrom(g, col + 1));
    }
  }

  /** GetValidMoves lists exactly the legal columns, each once, in ascending order. */
  lemma LegalMovesSpec(g: Position)
    ensures forall c :: c in LegalMoves(g) <==> Legal(g, c)
    ensures forall i, j :: 0 <= i < j < |LegalMoves(g)| ==> LegalMoves(g)[i] < LegalMoves(g)[j]
  {
    LegalMovesFromMembers(g, 0);
    LegalMovesFromSorted(g, 0);
  }

  /** Every legal column has its place in the list of legal moves. */
  lemma LegalMoveIndex(g: Position, c: int) returns (j: nat)
    requires Legal(g, c)
    ensures j < |LegalMoves(g)| && LegalMoves(g)[j] == c
  {
    LegalMovesSpec(g);
    assert c in LegalMoves(g);
    j :| 0 <= j < |LegalMoves(g)| && LegalMoves(g)[j] == c;
  }

  /** The list of legal moves orders columns as their positions in it do. */
  lemma LegalMovesOrdered(g: Position, j: nat, k: nat)
    requires j < |LegalMoves(g)| && k < |LegalMoves(g)|
    ensures LegalMoves(g)[j] < LegalMoves(g)[k] <==> j < k
  {
    LegalMovesSpec(g);
  }

  /** Board::GetValidMoves: exactly the legal columns, in ascending order. */
  function LegalMoves(g: Position): seq<int> {
    LegalMovesFrom(g, 0)
  }

  /** The number of columns not below col that are filled to the top. */
  function FullColumnsFrom(g: Position, col: nat): nat
    decreases Cols - col
  {
    if col >= Cols then 0
    else (if Legal(g, col) then 0 else 1) + FullColumnsFrom(g, col + 1)
  }

  lemma {:induction false} LegalMovesCountFrom(g: Position, col: nat)
    requires col <= Cols
    ensures |LegalMovesFrom(g, col)| + FullColumnsFrom(g, col) == Cols - col
    decreases Cols - col
  {
    if col < Cols {
      LegalMovesCountFrom(g, col + 1);
    }
  }

  /** The legal moves and the filled columns together make up all seven columns. */
  lemma LegalMovesCount(g: Position)
    ensures |LegalMoves(g)| + FullColumnsFrom(g, 0) == Cols
  {
    LegalMovesCountFrom(g, 0);
  }

  lemma {:induction false} NoFullColumnsFrom(g: Position, col: nat)
    requires forall c :: 0 <= c < Cols ==> g.heights[c] < Rows
    ensures FullColumnsFrom(g, col) == 0
    decreases Cols - col
  {
    if col < Cols {
      NoFullColumnsFrom(g, col + 1);
    }
  }

  /** The empty board offers all seven columns. */
  lemma EmptyBoardLegalMoves()
    ensures |LegalMoves(EmptyPosition())| == Cols
    ensures forall c :: 0 <= c < Cols ==> c in LegalMoves(EmptyPosition())
  {
    NoFullColumnsFrom(EmptyPosition(), 0);
    LegalMovesCount(EmptyPosition());
  }

  /** Writing one cell of the row-major array leaves every other cell as it was. */
  lemma SetCellFrame(g: Grid, h: Grid, row: int, col: int)
    requires WellFormed(g) && WellFormed(h) && OnBoard(row, col)
    requires h.cells == g.cells[row * Cols + col := h.cells[row * Cols + col]]
    ensures forall r, c :: OnBoard(r, c) && (r != row || c != col) ==> Cell(h, r, c) == Cell(g, r, c)
  {
    forall r, c | OnBoard(r, c) && (r != row || c != col)
      ensures r * Cols + c != row * Cols + col
    {
      if r == row {
      } else if r < row {
        assert r * Cols + c < (r + 1) * Cols <= row * Cols;
      } else {
        assert row * Cols + col < (row + 1) * Cols <= r * Cols;
      }
    }
  }

  /** Board::MakeMove on a legal column: the piece lands on the column's height and only
      that height grows (PlayFrame: every other cell is unchanged). */
  function Play(g: Position, col: int, p: Player): (h: Position)
    requires Legal(g, col)
    ensures h.heights == g.heights[col := g.heights[col] + 1]
    ensures Cell(h, g.heights[col], col) == p
  {
    var row := g.heights[col];
    var h := Grid(g.cells[row * Cols + col := p], g.heights[col := row + 1]);
    SetCellFrame(g, h, row, col);
    h
  }

  lemma PlayFrame(g: Position, col: int, p: Player)
    requires Legal(g, col)
    ensures forall r, c :: OnBoard(r, c) && (r != g.heights[col] || c != col) ==>
      Cell(Play(g, col, p), r, c) == Cell(g, r, c)
  {
    SetCellFrame(g, Play(g, col, p), g.heights[col], col);
  }

  /** Board::UndoMove: a no-op on an out-of-range or empty column; otherwise the height drops
      by one and the vacated cell is cleared (UndoFrame: every other cell is unchanged). */
  function Undo(g: Position, col: int): (h: Position)
    ensures !(0 <= col < Cols) || g.heights[col] == 0 ==> h == g
    ensures 0 <= col < Cols && g.heights[col] > 0 ==>
              h.heights == g.heights[col := g.heights[col] - 1] && Cell(h, g.heights[col] - 1, col) == None
  {
    if col < 0 || col >= Cols || g.heights[col] == 0 then g
    else
      var row := g.heights[col] - 1;
      var h := Grid(g.cells[row * Cols + col := None], g.heights[col := row]);
      SetCellFrame(g, h, row, col);
      h
  }

  lemma UndoFrame(g: Position, col: int)
    requires 0 <= col < Cols && g.heights[col] > 0
    ensures forall r, c :: OnBoard(r, c) && (r != g.heights[col] - 1 || c != col) ==>
      Cell(Undo(g, col), r, c) == Cell(g, r, c)
  {
    SetCellFrame(g, Undo(g, col), g.heights[col] - 1, col);
  }

  /** A successful MakeMove followed by UndoMove on the same column restores the board. */
  lemma UndoAfterPlay(g: Position, col: int, p: Player)
    requires Legal(g, col)
    ensures Undo(Play(g, col, p), col) == g
  {
    var h := Undo(Play(g, col, p), col);
    var row := g.heights[col];
    PlayFrame(g, col, p);
    UndoFrame(Play(g, col, p), col);
    assert Cell(g, row, col) == None;
    assert h.heights == g.heights;
    forall k | 0 <= k < BoardSize
      ensures h.cells[k] == g.cells[k]
    {
      var r, c := k / Cols, k % Cols;
      assert k == r * Cols + c;
      assert Cell(h, r, c) == Cell(g, r, c);
    }
    assert h.cells == g.cells;
  }

  // ---------------------------------------------------------------------------
  // Four in a row
  // ---------------------------------------------------------------------------

  /** A line of WinLength cells starting at (row, col) in direction (dRow, dCol). */
  datatype Window = Window(row: int, col: int, dRow: int, dCol: int)

  /** The i-th cell of the window lies on the board and equals the window's first cell. */
  predicate InLine(g: Position, w: Window, i: int) {
    OnBoard(w.row, w.col) &&
    OnBoard(w.row + i * w.dRow, w.col + i * w.dCol) &&
    Cell(g, w.row + i * w.dRow, w.col + i * w.dCol) == Cell(g, w.row, w.col)
  }

  /** Board::CheckLine: the window's four cells are on the board, equal and not empty. */
  predicate LineAt(g: Position, w: Window) {
    OnBoard(w.row, w.col) && Cell(g, w.row, w.col) != None &&
    forall i :: 0 <= i < WinLength ==> InLine(g, w, i)
  }

  function StartCell(g: Position, w: Window): Player
    requires OnBoard(w.row, w.col)
  {
    Cell(g, w.row, w.col)
  }

  function HorizontalScan(): seq<Window> { seq(24, k => Window(k / 4, k % 4, 0, 1)) }
  function VerticalScan(): seq<Window> { seq(21, k => Window(k / 7, k % 7, 1, 0)) }
  function DownRightScan(): seq<Window> { seq(12, k => Window(k / 4, k % 4, 1, 1)) }
  function DownLeftScan(): seq<Window> { seq(12, k => Window(k / 4, 3 + k % 4, 1, -1)) }

  /** The 69 windows in the order Board::CheckWinner visits them: horizontal, vertical,
      down-right, down-left, each row by row and column by column. */
  function ScanOrder(): seq<Window> {
    HorizontalScan() + VerticalScan() + DownRightScan() + DownLeftScan()
  }

  /** The start cell of the first window of ws that holds four in a row, or None. */
  function FirstWinner(g: Position, ws: seq<Window>): Player {
    if ws == [] then None
    else if LineAt(g, ws[0]) then StartCell(g, ws[0])
    else FirstWinner(g, ws[1..])
  }

  /** FirstWinner is non-empty iff some window holds a line, and then it is the start cell
      of the first such window. */
  lemma {:induction false} FirstWinnerSpec(g: Position, ws: seq<Window>)
    ensures FirstWinner(g, ws) != None <==> exists k :: 0 <= k < |ws| && LineAt(g, ws[k])
    ensures FirstWinner(g, ws) != None ==>
              exists k :: 0 <= k < |ws| && LineAt(g, ws[k]) && FirstWinner(g, ws) == StartCell(g, ws[k]) &&
                          forall j :: 0 <= j < k ==> !LineAt(g, ws[j])
  {
    if ws != [] && !LineAt(g, ws[0]) {
      FirstWinnerSpec(g, ws[1..]);
      assert forall k :: 1 <= k < |ws| ==> ws[k] == ws[1..][k - 1];
      if FirstWinner(g, ws) != None {
        var k :| 0 <= k < |ws[1..]| && LineAt(g, ws[1..][k]) && FirstWinner(g, ws) == StartCell(g, ws[1..][k]) &&
                 forall j :: 0 <= j < k ==> !LineAt(g, ws[1..][j]);
        assert LineAt(g, ws[k + 1]);
      }
    }
  }

  /** Board::CheckWinner */
  function Winner(g: Position): Player {
    FirstWinner(g, ScanOrder())
  }

  /** Board::IsFull: every column has height ROWS. */
  predicate Full(g: Position) {
    forall c :: 0 <= c < Cols ==> g.heights[c] == Rows
  }

  /** Board::IsGameOver */
  predicate GameOver(g: Position) {
    Winner(g) != None || Full(g)
  }

  /** A board is full exactly when it has no legal move. */
  lemma FullIffNoLegalMoves(g: Position)
    ensures Full(g) <==> LegalMoves(g) == []
  {
    LegalMovesSpec(g);
    if !Full(g) {
      var c :| 0 <= c < Cols && g.heights[c] != Rows;
      assert c in LegalMoves(g);
    }
  }

  /** A non-empty winner always comes from a window of the scan holding four equal pieces. */
  lemma WinnerSound(g: Position)
    requires Winner(g) != None
    ensures exists w :: w in ScanOrder() && LineAt(g, w) && StartCell(g, w) == Winner(g)
  {
    var ws := ScanOrder();
    FirstWinnerSpec(g, ws);
    var k :| 0 <= k < |ws| && LineAt(g, ws[k]) && Winner(g) == StartCell(g, ws[k]);
    assert ws[k] in ws;
  }

  /** Every four in a row along one of the scanned directions is found by CheckWinner. */
  lemma WinnerComplete(g: Position, w: Window)
    requires (w.dRow, w.dCol) in {(0, 1), (1, 0), (1, 1), (1, -1)}
    requires LineAt(g, w)
    ensures Winner(g) != None
  {
    assert InLine(g, w, 3);
    var ws := ScanOrder();
    var k: int;
    if (w.dRow, w.dCol) == (0, 1) {
      k := w.row * 4 + w.col;
      assert HorizontalScan()[k] == w;
    } else if (w.dRow, w.dCol) == (1, 0) {
      k := 24 + w.row * 7 + w.col;
      assert VerticalScan()[k - 24] == w;
    } else if (w.dRow, w.dCol) == (1, 1) {
      k := 45 + w.row * 4 + w.col;
      assert DownRightScan()[k - 45] == w;
    } else {
      k := 57 + w.row * 4 + (w.col - 3);
      assert DownLeftScan()[k - 57] == w;
    }
    assert ws[k] == w;
    FirstWinnerSpec(g, ws);
  }

  lemma NoWinnerOnEmptyBoard()
    ensures Winner(EmptyPosition()) == None
  {
    var g := EmptyPosition();
    FirstWinnerSpec(g, ScanOrder());
    forall k | 0 <= k < |ScanOrder()|
      ensures !LineAt(g, ScanOrder()[k])
    {
      var w := ScanOrder()[k];
      if OnBoard(w.row, w.col) {
        assert Cell(g, w.row, w.col) == None;
      }
    }
  }

  // ---------------------------------------------------------------------------
  // Neural input encoding and mirroring
  // ---------------------------------------------------------------------------

  /** Which of a cell's three inputs is set: 0 for the perspective's piece, 1 for the
      opponent's piece, 2 otherwise. */
  function Slot(cell: Player, perspective: Player): (s: int)
    ensures 0 <= s < 3
    ensures s == 0 <==> cell == perspective
    ensures s == 1 <==> cell != perspective && cell == Opponent(perspective)
  {
    if cell == perspective then 0 else if cell == Opponent(perspective) then 1 else 2
  }

  /** Board::BoardToInput: 126 values, three per cell, exactly one of which is 1.0. */
  function Encode(g: Position, perspective: Player): (input: seq<real>)
    ensures |input| == BoardSize * 3
  {
    seq(BoardSize * 3, k requires 0 <= k < BoardSize * 3 =>
          if k % 3 == Slot(g.cells[k / 3], perspective) then 1.0 else 0.0)
  }

  /** Each cell's triple holds one 1.0, in the slot of the cell's owner, and two 0.0. */
  lemma EncodeOneHot(g: Position, perspective: Player, i: int, s: int)
    requires 0 <= i < BoardSize && 0 <= s < 3
    ensures Encode(g, perspective)[3 * i + s] == if s == Slot(g.cells[i], perspective) then 1.0 else 0.0
  {
    var k := 3 * i + s;
    assert k / 3 == i && k % 3 == s;
  }

  /** The first i cells of g are encoded in input and the remaining inputs are 0.0. */
  ghost predicate EncodedUpTo(g: Position, perspective: Player, input: seq<real>, i: int) {
    0 <= i <= BoardSize && |input| == BoardSize * 3 &&
    (forall k :: 0 <= k < 3 * i ==> input[k] == Encode(g, perspective)[k]) &&
    (forall k :: 3 * i <= k < BoardSize * 3 ==> input[k] == 0.0)
  }

  /** Setting the owner's slot of cell i extends the encoded prefix by one cell. */
  lemma EncodeStep(g: Position, perspective: Player, input: seq<real>, i: int)
    requires EncodedUpTo(g, perspective, input, i) && i < BoardSize
    ensures EncodedUpTo(g, perspective, input[3 * i + Slot(g.cells[i], perspective) := 1.0], i + 1)
  {
    EncodeOneHot(g, perspective, i, 0);
    EncodeOneHot(g, perspective, i, 1);
    EncodeOneHot(g, perspective, i, 2);
  }

  /** Board::GetMirroredBoard: cell (r, c) moves to (r, 6 - c) and heights likewise. */
  function Mirror(g: Position): (m: Position)
    ensures forall r, c :: OnBoard(r, c) ==> Cell(m, r, c) == Cell(g, r, MirrorColumn(c))
    ensures forall c :: 0 <= c < Cols ==> m.heights[c] == g.heights[MirrorColumn(c)]
  {
    var m := Grid(seq(BoardSize, k requires 0 <= k < BoardSize => g.cells[(k / Cols) * Cols + MirrorColumn(k % Cols)]),
                  seq(Cols, c requires 0 <= c < Cols => g.heights[MirrorColumn(c)]));
    assert forall r, c :: OnBoard(r, c) ==> Cell(m, r, c) == Cell(g, r, MirrorColumn(c)) by {
      forall r, c | OnBoard(r, c)
        ensures Cell(m, r, c) == Cell(g, r, MirrorColumn(c))
      {
        var k := r * Cols + c;
        assert k / Cols == r && k % Cols == c;
      }
    }
    m
  }

  /** Mirroring twice gives back the original board. */
  lemma MirrorInvolution(g: Position)
    ensures Mirror(Mirror(g)) == g
  {
    var mm := Mirror(Mirror(g));
    forall k | 0 <= k < BoardSize
      ensures mm.cells[k] == g.cells[k]
    {
      var r, c := k / Cols, k % Cols;
      assert k == r * Cols + c;
      assert Cell(mm, r, c) == Cell(g, r, c);
    }
    assert mm.cells == g.cells;
    assert mm.heights == g.heights;
  }

  /** A column is legal on the mirrored board iff its mirror image is legal on the board. */
  lemma MirrorLegal(g: Position, col: int)
    ensures Legal(Mirror(g), col) <==> Legal(g, MirrorColumn(col))
  {
  }

  /** std::vector's operator<: strict lexicographic order on sequences. */
  predicate LexLess(a: seq<real>, b: seq<real>) {
    if a == [] then b != []
    else if b == [] then false
    else if a[0] < b[0] then true
    else if b[0] < a[0] then false
    else LexLess(a[1..], b[1..])
  }

  lemma {:induction false} LexIrreflexive(a: seq<real>)
    ensures !LexLess(a, a)
  {
    if a != [] {
      LexIrreflexive(a[1..]);
    }
  }

  lemma {:induction false} LexAsymmetric(a: seq<real>, b: seq<real>)
    requires LexLess(a, b)
    ensures !LexLess(b, a)
  {
    if a != [] && b != [] && a[0] == b[0] {
      LexAsymmetric(a[1..], b[1..]);
    }
  }

  /** On sequences of equal length, two different sequences are always ordered. */
  lemma {:induction false} LexTotal(a: seq<real>, b: seq<real>)
    requires |a| == |b| && a != b
    ensures LexLess(a, b) || LexLess(b, a)
  {
    if a[0] == b[0] {
      assert a == [a[0]] + a[1..] && b == [b[0]] + b[1..];
      LexTotal(a[1..], b[1..]);
    }
  }

  /** Board::GetNormalizedInput: the lexicographically smaller of the direct and the mirrored
      encodings, and whether the mirrored one was chosen. */
  function Normalized(g: Position, player: Player): (result: (seq<real>, bool))
    ensures result.1 <==> LexLess(Encode(Mirror(g), player), Encode(g, player))
    ensures result.0 == if result.1 then Encode(Mirror(g), player) else Encode(g, player)
    ensures !LexLess(Encode(g, player), result.0) && !LexLess(Encode(Mirror(g), player), result.0)
  {
    var direct := Encode(g, player);
    var mirrored := Encode(Mirror(g), player);
    LexIrreflexive(direct);
    LexIrreflexive(mirrored);
    if LexLess(mirrored, direct) then
      LexAsymmetric(mirrored, direct);
      (mirrored, true)
    else
      (direct, false)
  }

  /** A board and its mirror image get the same normalized encoding. */
  lemma NormalizedSymmetric(g: Position, player: Player)
    ensures Normalized(Mirror(g), player).0 == Normalized(g, player).0
  {
    MirrorInvolution(g);
    var a, b := Encode(g, player), Encode(Mirror(g), player);
    if a != b {
      LexTotal(a, b);
      if LexLess(a, b) {
        LexAsymmetric(a, b);
      } else {
        LexAsymmetric(b, a);
      }
    }
  }

  /** The empty slots left on the board; every move uses one. */
  function FreeSlotsFrom(g: Position, col: nat): nat
    decreases Cols - col
  {
    if col >= Cols then 0 else (Rows - g.heights[col]) + FreeSlotsFrom(g, col + 1)
  }

  function FreeSlots(g: Position): nat {
    FreeSlotsFrom(g, 0)
  }

  lemma {:induction false} FreeSlotsFromPlay(g: Position, col: int, p: Player, from: nat)
    requires Legal(g, col)
    ensures FreeSlotsFrom(Play(g, col, p), from) == FreeSlotsFrom(g, from) - (if from <= col then 1 else 0)
    decreases Cols - from
  {
    if from < Cols {
      FreeSlotsFromPlay(g, col, p, from + 1);
    }
  }

  lemma {:induction false} FreeSlotsFromBound(g: Position, col: nat)
    requires col <= Cols
    ensures FreeSlotsFrom(g, col) <= Rows * (Cols - col)
    decreases Cols - col
  {
    if col < Cols {
      FreeSlotsFromBound(g, col + 1);
    }
  }

  /** A board never has more empty slots than cells. */
  lemma FreeSlotsBound(g: Position)
    ensures FreeSlots(g) <= BoardSize
  {
    FreeSlotsFromBound(g, 0);
  }

  /** Every move fills one empty slot, so searches that play moves terminate. */
  lemma PlayUsesSlot(g: Position, col: int, p: Player)
    requires Legal(g, col)
    ensures FreeSlots(Play(g, col, p)) == FreeSlots(g) - 1
  {
    FreeSlotsFromPlay(g, col, p, 0);
  }

  // ---------------------------------------------------------------------------
  // The mutable board
  // ---------------------------------------------------------------------------

  function At(s: seq<Player>, r: int, c: int): Player
    requires |s| == BoardSize && OnBoard(r, c)
  {
    s[r * Cols + c]
  }

  class Board {
    const cells: array<Player>
    const heights: array<int>

    ghost predicate Valid()
      reads cells, heights
    {
      cells.Length == BoardSize && heights.Length == Cols && IsPosition(Grid(cells[..], heights[..]))
    }

    /** The board value the two arrays hold. */
    function Value(): Position
      reads cells, heights
      requires Valid()
    {
      Grid(cells[..], heights[..])
    }

    /** Board::Board: an empty board. */
    constructor ()
      ensures Valid() && fresh(cells) && fresh(heights)
      ensures Value() == EmptyPosition()
    {
      cells := new Player[BoardSize](_ => None);
      heights := new int[Cols](_ => 0);
      new;
      assert cells[..] == EmptyGrid().cells;
      assert heights[..] == EmptyGrid().heights;
    }

    /** The board's copy constructor, used where the source copies a board by value. */
    constructor Copy(other: Board)
      requires other.Valid()
      ensures Valid() && fresh(cells) && fresh(heights)
      ensures Value() == other.Value()
    {
      var cs, hs := other.cells[..], other.heights[..];
      cells := new Player[BoardSize](k requires 0 <= k < BoardSize => cs[k]);
      heights := new int[Cols](k requires 0 <= k < Cols => hs[k]);
      new;
      assert cells[..] == cs;
      assert heights[..] == hs;
    }

    /** Board::Reset */
    method Reset()
      requires cells.Length == BoardSize && heights.Length == Cols
      modifies cells, heights
      ensures Valid() && Value() == EmptyPosition()
    {
      var i := 0;
      while i < BoardSize
        invariant 0 <= i <= BoardSize
        invariant forall k :: 0 <= k < i ==> cells[k] == None
      {
        cells[i] := None;
        i := i + 1;
      }
      var c := 0;
      while c < Cols
        invariant 0 <= c <= Cols
        invariant forall k :: 0 <= k < c ==> heights[k] == 0
        invariant cells[..] == EmptyGrid().cells
      {
        heights[c] := 0;
        c := c + 1;
      }
      assert heights[..] == EmptyGrid().heights;
    }

    function GetCell(row: int, col: int): (p: Player)
      reads cells, heights
      requires Valid() && OnBoard(row, col)
      ensures p == Cell(Value(), row, col)
    {
      cells[row * Cols + col]
    }

    predicate IsValidMove(col: int)
      reads cells, heights
      requires Valid()
      ensures IsValidMove(col) <==> Legal(Value(), col)
    {
      col >= 0 && col < Cols && heights[col] < Rows
    }

    method GetValidMoves() returns (moves: seq<int>)
      requires Valid()
      ensures moves == LegalMoves(Value())
    {
      ghost var g := Value();
      moves := [];
      for col := 0 to Cols
        invariant moves + LegalMovesFrom(g, col) == LegalMoves(g)
      {
        LegalMovesFromStep(g, col, moves);
        if IsValidMove(col) {
          moves := moves + [col];
        }
      }
    }

    method MakeMove(col: int, player: Player) returns (ok: bool)
      requires Valid()
      modifies cells, heights
      ensures Valid()
      ensures ok == Legal(old(Value()), col)
      ensures Value() == if ok then Play(old(Value()), col, player) else old(Value())
    {
      if !IsValidMove(col) {
        return false;
      }
      ghost var before := Value();
      var row := heights[col];
      cells[row * Cols + col] := player;
      heights[col] := heights[col] + 1;
      assert Grid(cells[..], heights[..]) == Play(before, col, player);
      ok := true;
    }

    method UndoMove(col: int)
      requires Valid()
      modifies cells, heights
      ensures Valid()
      ensures Value() == Undo(old(Value()), col)
    {
      if col < 0 || col >= Cols || heights[col] == 0 {
        return;
      }
      ghost var before := Value();
      heights[col] := heights[col] - 1;
      var row := heights[col];
      cells[row * Cols + col] := None;
      assert Grid(cells[..], heights[..]) == Undo(before, col);
    }

    method CheckLine(startRow: int, startCol: int, dRow: int, dCol: int) returns (b: bool)
      requires Valid()
      ensures b == LineAt(Value(), Window(startRow, startCol, dRow, dCol))
    {
      ghost var w := Window(startRow, startCol, dRow, dCol);
      var i := 0;
      while i < WinLength
        invariant 0 <= i <= WinLength
        invariant i > 0 ==> OnBoard(startRow, startCol) && Cell(Value(), startRow, startCol) != None
        invariant forall k :: 0 <= k < i ==> InLine(Value(), w, k)
      {
        var row := startRow + i * dRow;
        var col := startCol + i * dCol;
        if row < 0 || row >= Rows || col < 0 || col >= Cols {
          assert !InLine(Value(), w, i);
          return false;
        }
        var cell := GetCell(row, col);
        if cell == None || (i > 0 && cell != GetCell(startRow, startCol)) {
          assert i == 0 || !InLine(Value(), w, i);
          return false;
        }
        i := i + 1;
      }
      assert InLine(Value(), w, 0);
      return GetCell(startRow, startCol) != None;
    }

    /** Scanning window n of ScanOrder(): a hit gives the winner, a miss moves on. */
    static lemma ScanStep(g: Position, n: int, w: Window)
      requires 0 <= n < |ScanOrder()| && ScanOrder()[n] == w
      ensures LineAt(g, w) ==> FirstWinner(g, ScanOrder()[n..]) == StartCell(g, w)
      ensures !LineAt(g, w) ==> FirstWinner(g, ScanOrder()[n..]) == FirstWinner(g, ScanOrder()[n + 1..])
    {
      var s := ScanOrder()[n..];
      assert s[0] == w;
      assert s[1..] == ScanOrder()[n + 1..];
    }

    static lemma ScanHorizontal(g: Position, row: int, col: int)
      requires 0 <= row < Rows && 0 <= col < 4
      ensures LineAt(g, Window(row, col, 0, 1)) ==> FirstWinner(g, ScanOrder()[row * 4 + col..]) == Cell(g, row, col)
      ensures !LineAt(g, Window(row, col, 0, 1)) ==>
                FirstWinner(g, ScanOrder()[row * 4 + col..]) == FirstWinner(g, ScanOrder()[row * 4 + col + 1..])
    {
      var n := row * 4 + col;
      assert n / 4 == row && n % 4 == col;
      assert ScanOrder()[n] == HorizontalScan()[n];
      ScanStep(g, n, Window(row, col, 0, 1));
    }

    static lemma ScanVertical(g: Position, row: int, col: int)
      requires 0 <= row < 3 && 0 <= col < Cols
      ensures LineAt(g, Window(row, col, 1, 0)) ==> FirstWinner(g, ScanOrder()[24 + row * 7 + col..]) == Cell(g, row, col)
      ensures !LineAt(g, Window(row, col, 1, 0)) ==>
                FirstWinner(g, ScanOrder()[24 + row * 7 + col..]) == FirstWinner(g, ScanOrder()[24 + row * 7 + col + 1..])
    {
      var n := row * 7 + col;
      assert n / 7 == row && n % 7 == col;
      assert ScanOrder()[24 + n] == VerticalScan()[n];
      ScanStep(g, 24 + n, Window(row, col, 1, 0));
    }

    static lemma ScanDownRight(g: Position, row: int, col: int)
      requires 0 <= row < 3 && 0 <= col < 4
      ensures LineAt(g, Window(row, col, 1, 1)) ==> FirstWinner(g, ScanOrder()[45 + row * 4 + col..]) == Cell(g, row, col)
      ensures !LineAt(g, Window(row, col, 1, 1)) ==>
                FirstWinner(g, ScanOrder()[45 + row * 4 + col..]) == FirstWinner(g, ScanOrder()[45 + row * 4 + col + 1..])
    {
      var n := row * 4 + col;
      assert n / 4 == row && n % 4 == col;
      assert ScanOrder()[45 + n] == DownRightScan()[n];
      ScanStep(g, 45 + n, Window(row, col, 1, 1));
    }

    static lemma ScanDownLeft(g: Position, row: int, col: int)
      requires 0 <= row < 3 && 3 <= col < Cols
      ensures LineAt(g, Window(row, col, 1, -1)) ==> FirstWinner(g, ScanOrder()[54 + row * 4 + col..]) == Cell(g, row, col)
      ensures !LineAt(g, Window(row, col, 1, -1)) ==>
                FirstWinner(g, ScanOrder()[54 + row * 4 + col..]) == FirstWinner(g, ScanOrder()[54 + row * 4 + col + 1..])
    {
      var n := row * 4 + col - 3;
      assert n / 4 == row && n % 4 == col - 3;
      assert ScanOrder()[57 + n] == DownLeftScan()[n];
      ScanStep(g, 57 + n, Window(row, col, 1, -1));
    }

    /** The horizontal pass of CheckWinner: windows 0 .. 23 of ScanOrder(). */
    method CheckHorizontal() returns (winner: Player)
      requires Valid()
      ensures winner != None ==> winner == FirstWinner(Value(), ScanOrder())
      ensures winner == None ==> FirstWinner(Value(), ScanOrder()) == FirstWinner(Value(), ScanOrder()[24..])
    {
      assert ScanOrder()[0..] == ScanOrder();
      for row := 0 to Rows
        invariant FirstWinner(Value(), ScanOrder()[row * 4..]) == FirstWinner(Value(), ScanOrder())
      {
        for col := 0 to Cols - WinLength + 1
          invariant FirstWinner(Value(), ScanOrder()[row * 4 + col..]) == FirstWinner(Value(), ScanOrder())
        {
          ScanHorizontal(Value(), row, col);
          var hit := CheckLine(row, col, 0, 1);
          if hit {
            return GetCell(row, col);
          }
        }
      }
      return None;
    }

    /** The vertical pass of CheckWinner: windows 24 .. 44. */
    method CheckVertical() returns (winner: Player)
      requires Valid()
      ensures winner != None ==> winner == FirstWinner(Value(), ScanOrder()[24..])
      ensures winner == None ==> FirstWinner(Value(), ScanOrder()[24..]) == FirstWinner(Value(), ScanOrder()[45..])
    {
      for row := 0 to Rows - WinLength + 1
        invariant FirstWinner(Value(), ScanOrder()[24 + row * 7..]) == FirstWinner(Value(), ScanOrder()[24..])
      {
        for col := 0 to Cols
          invariant FirstWinner(Value(), ScanOrder()[24 + row * 7 + col..]) == FirstWinner(Value(), ScanOrder()[24..])
        {
          ScanVertical(Value(), row, col);
          var hit := CheckLine(row, col, 1, 0);
          if hit {
            return GetCell(row, col);
          }
        }
      }
      return None;
    }

    /** The down-right pass of CheckWinner: windows 45 .. 56. */
    method CheckDownRight() returns (winner: Player)
      requires Valid()
      ensures winner != None ==> winner == FirstWinner(Value(), ScanOrder()[45..])
      ensures winner == None ==> FirstWinner(Value(), ScanOrder()[45..]) == FirstWinner(Value(), ScanOrder()[57..])
    {
      for row := 0 to Rows - WinLength + 1
        invariant FirstWinner(Value(), ScanOrder()[45 + row * 4..]) == FirstWinner(Value(), ScanOrder()[45..])
      {
        for col := 0 to Cols - WinLength + 1
          invariant FirstWinner(Value(), ScanOrder()[45 + row * 4 + col..]) == FirstWinner(Value(), ScanOrder()[45..])
        {
          ScanDownRight(Value(), row, col);
          var hit := CheckLine(row, col, 1, 1);
          if hit {
            return GetCell(row, col);
          }
        }
      }
      return None;
    }

    /** The down-left pass of CheckWinner: windows 57 .. 68. */
    method CheckDownLeft() returns (winner: Player)
      requires Valid()
      ensures winner != None ==> winner == FirstWinner(Value(), ScanOrder()[57..])
      ensures winner == None ==> FirstWinner(Value(), ScanOrder()[57..]) == None
    {
      for row := 0 to Rows - WinLength + 1
        invariant FirstWinner(Value(), ScanOrder()[57 + row * 4..]) == FirstWinner(Value(), ScanOrder()[57..])
      {
        for col := WinLength - 1 to Cols
          invariant FirstWinner(Value(), ScanOrder()[54 + row * 4 + col..]) == FirstWinner(Value(), ScanOrder()[57..])
        {
          ScanDownLeft(Value(), row, col);
          var hit := CheckLine(row, col, 1, -1);
          if hit {
            return GetCell(row, col);
          }
        }
      }
      assert ScanOrder()[69..] == [];
      return None;
    }

    /** Board::CheckWinner: the owner of the first line of four in ScanOrder(), or None. */
    method CheckWinner() returns (winner: Player)
      requires Valid()
      ensures winner == Winner(Value())
    {
      winner := CheckHorizontal();
      if winner != None {
        return;
      }
      winner := CheckVertical();
      if winner != None {
        return;
      }
      winner := CheckDownRight();
      if winner != None {
        return;
      }
      winner := CheckDownLeft();
    }

    method IsFull() returns (full: bool)
      requires Valid()
      ensures full == Full(Value())
    {
      for col := 0 to Cols
        invariant forall c :: 0 <= c < col ==> heights[c] == Rows
      {
        if heights[col] < Rows {
          return false;
        }
      }
      return true;
    }

    method IsGameOver() returns (over: bool)
      requires Valid()
      ensures over == GameOver(Value())
    {
      var winner := CheckWinner();
      if winner != None {
        return true;
      }
      over := IsFull();
    }

    method BoardToInput(perspective: Player) returns (input: seq<real>)
      requires Valid()
      ensures input == Encode(Value(), perspective)
    {
      input := seq(BoardSize * 3, _ => 0.0);
      var opponent := if perspective == Player1 then Player2 else Player1;
      for i := 0 to BoardSize
        invariant EncodedUpTo(Value(), perspective, input, i)
      {
        EncodeStep(Value(), perspective, input, i);
        if cells[i] == perspective {
          input := input[i * 3 := 1.0];
        } else if cells[i] == opponent {
          input := input[i * 3 + 1 := 1.0];
        } else {
          input := input[i * 3 + 2 := 1.0];
        }
      }
      assert input == Encode(Value(), perspective) by {
        forall k | 0 <= k < BoardSize * 3
          ensures input[k] == Encode(Value(), perspective)[k]
        {
        }
      }
    }

    method ToNeuralInput(perspective: Player) returns (input: seq<real>)
      requires Valid()
      ensures input == Encode(Value(), perspective)
    {
      input := BoardToInput(perspective);
    }

    /** One pass of GetMirroredBoard's row loop: row `row` of this board, mirrored, into m. */
    method MirrorRowInto(m: array<Player>, row: int)
      requires Valid() && m.Length == BoardSize && m != cells && 0 <= row < Rows
      modifies m
      ensures forall r, c :: OnBoard(r, c) ==>
                At(m[..], r, c) == if r == row then Cell(Value(), r, MirrorColumn(c)) else At(old(m[..]), r, c)
    {
      for col := 0 to Cols
        invariant forall r, c :: OnBoard(r, c) ==>
                    At(m[..], r, c) ==
                    if r == row && MirrorColumn(c) < col then Cell(Value(), r, MirrorColumn(c)) else At(old(m[..]), r, c)
      {
        MirrorCellInto(m, row, col);
      }
    }

    /** One pass of GetMirroredBoard's column loop. */
    method MirrorCellInto(m: array<Player>, row: int, col: int)
      requires Valid() && m.Length == BoardSize && m != cells && OnBoard(row, col)
      modifies m
      ensures forall r, c :: OnBoard(r, c) ==>
                At(m[..], r, c) == if r == row && c == MirrorColumn(col) then Cell(Value(), row, col) else At(old(m[..]), r, c)
    {
      var mirroredCol := MirrorColumn(col);
      m[row * Cols + mirroredCol] := cells[row * Cols + col];
      forall r, c | OnBoard(r, c) && (r != row || c != mirroredCol)
        ensures At(m[..], r, c) == At(old(m[..]), r, c)
      {
        if r < row {
          assert r * Cols + c < (r + 1) * Cols <= row * Cols;
        } else if r > row {
          assert row * Cols + mirroredCol < (row + 1) * Cols <= r * Cols;
        }
      }
    }

    method GetMirroredBoard() returns (mirrored: Board)
      requires Valid()
      ensures fresh(mirrored) && fresh(mirrored.cells) && fresh(mirrored.heights)
      ensures mirrored.Valid() && mirrored.Value() == Mirror(Value())
    {
      mirrored := new Board();
      mirrored.Reset();
      for row := 0 to Rows
        invariant mirrored.cells.Length == BoardSize && mirrored.heights.Length == Cols
        invariant forall k :: 0 <= k < Cols ==> mirrored.heights[k] == 0
        invariant forall r, c :: OnBoard(r, c) ==>
                    At(mirrored.cells[..], r, c) == (if r < row then Cell(Value(), r, MirrorColumn(c)) else None)
      {
        MirrorRowInto(mirrored.cells, row);
      }
      for col := 0 to Cols
        invariant mirrored.cells.Length == BoardSize && mirrored.heights.Length == Cols
        invariant forall r, c :: OnBoard(r, c) ==> At(mirrored.cells[..], r, c) == Cell(Value(), r, MirrorColumn(c))
        invariant forall k :: 0 <= k < Cols ==>
                    mirrored.heights[k] == (if MirrorColumn(k) < col then heights[MirrorColumn(k)] else 0)
      {
        var mirroredCol := MirrorColumn(col);
        mirrored.heights[mirroredCol] := heights[col];
      }
      MirroredArrays(Value(), mirrored.cells[..], mirrored.heights[..]);
    }

    /** Arrays holding the mirrored cells and heights of g hold Mirror(g). */
    static lemma MirroredArrays(g: Position, cs: seq<Player>, hs: seq<int>)
      requires |cs| == BoardSize && |hs| == Cols
      requires forall r, c :: OnBoard(r, c) ==> At(cs, r, c) == Cell(g, r, MirrorColumn(c))
      requires forall k :: 0 <= k < Cols ==> hs[k] == g.heights[MirrorColumn(k)]
      ensures Grid(cs, hs) == Mirror(g)
    {
      var m := Mirror(g);
      forall k | 0 <= k < BoardSize
        ensures cs[k] == m.cells[k]
      {
        var r, c := k / Cols, k % Cols;
        assert k == r * Cols + c;
        assert At(cs, r, c) == Cell(m, r, c);
      }
      assert cs == m.cells;
      assert hs == m.heights;
    }

    method GetNormalizedInput(currentPlayer: Player) returns (input: seq<real>, wasMirrored: bool)
      requires Valid()
      ensures (input, wasMirrored) == Normalized(Value(), currentPlayer)
    {
      var normalInput := BoardToInput(currentPlayer);
      var mirrored := GetMirroredBoard();
      var mirroredInput := mirrored.BoardToInput(currentPlayer);
      if LexLess(mirroredInput, normalInput) {
        wasMirrored := true;
        input := mirroredInput;
      } else {
        wasMirrored := false;
        input := normalInput;
      }
    }
  }
}
