/** The positional heuristic shared by ConnectFour/minimax.cpp and
    ConnectFour/heuristic_evaluator.cpp: counting "threats" (windows of four cells holding
    exactly `length` of a player's pieces and otherwise empty) and the weighted score
    built from them.  Both files contain the same code; it is modelled once here. */
module Threats {
  import opened GameBoard

  /** k steps of size d, for a direction component d in {-1, 0, 1}. */
  function Offset(k: int, d: int): (o: int)
    ensures d == 0 ==> o == 0
    ensures d == 1 ==> o == k
    ensures d == -1 ==> o == -k
  {
    k * d
  }

  /** A window of four cells from (r, c) in direction (dr, dc) lies inside the board. */
  predicate Fits(r: int, c: int, dr: int, dc: int) {
    -1 <= dr <= 1 && -1 <= dc <= 1 && OnBoard(r, c) && OnBoard(r + 3 * dr, c + 3 * dc)
  }

  /** The k-th cell of the window. */
  function CellAt(g: Position, r: int, c: int, dr: int, dc: int, k: int): Player
    requires Fits(r, c, dr, dc) && 0 <= k < WinLength
  {
    Cell(g, r + Offset(k, dr), c + Offset(k, dc))
  }

  datatype Tally = Tally(mine: nat, empty: nat)

  /** The window loop of CountThreats over the first n cells: a cell equal to the player
      counts as the player's, otherwise an empty cell counts as empty (so for player NONE
      empty cells count as the player's). */
  function Tallied(g: Position, r: int, c: int, dr: int, dc: int, player: Player, n: nat): (t: Tally)
    requires Fits(r, c, dr, dc) && n <= WinLength
    ensures t.mine + t.empty <= n
  {
    if n == 0 then Tally(0, 0)
    else
      var t := Tallied(g, r, c, dr, dc, player, n - 1);
      var cell := CellAt(g, r, c, dr, dc, n - 1);
      if cell == player then Tally(t.mine + 1, t.empty)
      else if cell == None then Tally(t.mine, t.empty + 1)
      else t
  }

  /** The window is in bounds and holds exactly `length` of the player's pieces, the rest empty. */
  predicate ThreatAt(g: Position, player: Player, length: int, r: int, c: int, dr: int, dc: int) {
    Fits(r, c, dr, dc) &&
    var t := Tallied(g, r, c, dr, dc, player, WinLength);
    t.mine == length && t.empty == WinLength - length
  }

  function Indicator(b: bool): nat {
    if b then 1 else 0
  }

  /** The windows CountThreats examines at (r, c): horizontal, vertical, down-right and
      down-left, each counted when it fits on the board and is a threat. */
  function CellThreats(g: Position, player: Player, length: int, r: int, c: int): nat {
    Indicator(ThreatAt(g, player, length, r, c, 0, 1)) +
    Indicator(ThreatAt(g, player, length, r, c, 1, 0)) +
    Indicator(ThreatAt(g, player, length, r, c, 1, 1)) +
    Indicator(ThreatAt(g, player, length, r, c, 1, -1))
  }

  /** The sum of a per-cell count over row r from column c on. */
  function RowSum(f: (int, int) -> nat, r: int, c: nat): nat
    requires c <= Cols
    decreases Cols - c
  {
    if c == Cols then 0 else f(r, c) + RowSum(f, r, c + 1)
  }

  /** The sum of a per-cell count over rows r.. in the order of CountThreats' loops. */
  function GridSum(f: (int, int) -> nat, r: nat): nat
    requires r <= Rows
    decreases Rows - r
  {
    if r == Rows then 0 else RowSum(f, r, 0) + GridSum(f, r + 1)
  }

  /** CellThreats as a per-cell count. */
  function ThreatsOf(g: Position, player: Player, length: int): (int, int) -> nat {
    (r, c) => CellThreats(g, player, length, r, c)
  }

  /** CountThreats(g, player, length) */
  function ThreatCount(g: Position, player: Player, length: int): nat {
    GridSum(ThreatsOf(g, player, length), 0)
  }

  /** How many of the four windows at (r, c) lie on the board. */
  function WindowsAt(r: int, c: int): nat {
    Indicator(Fits(r, c, 0, 1)) + Indicator(Fits(r, c, 1, 0)) +
    Indicator(Fits(r, c, 1, 1)) + Indicator(Fits(r, c, 1, -1))
  }

  lemma CellThreatsBound(g: Position, player: Player, length: int, r: int, c: int)
    ensures CellThreats(g, player, length, r, c) <= WindowsAt(r, c)
  {
  }

  /** How many in-bounds windows start in row r at column c or later. */
  function RowWindows(r: int, c: nat): nat
    requires c <= Cols
  {
    var across := if c <= 4 then 4 - c else 0;
    var upper := 0 <= r <= Rows - WinLength;
    if 0 <= r < Rows then across + (if upper then (Cols - c) + across + (if c <= 3 then 4 else Cols - c) else 0) else 0
  }

  /** How many in-bounds windows start in row r or later. */
  function GridWindows(r: nat): nat
    requires r <= Rows
  {
    if r <= 3 then 19 * (3 - r) + 12 else 4 * (Rows - r)
  }

  lemma {:induction false} RowSumBound(f: (int, int) -> nat, r: int, c: nat)
    requires c <= Cols
    requires forall r', c' :: f(r', c') <= WindowsAt(r', c')
    ensures RowSum(f, r, c) <= RowWindows(r, c)
    decreases Cols - c
  {
    if c < Cols {
      RowSumBound(f, r, c + 1);
      assert f(r, c) <= WindowsAt(r, c);
    }
  }

  lemma {:induction false} GridSumBound(f: (int, int) -> nat, r: nat)
    requires r <= Rows
    requires forall r', c' :: f(r', c') <= WindowsAt(r', c')
    ensures GridSum(f, r) <= GridWindows(r)
    decreases Rows - r
  {
    if r < Rows {
      RowSumBound(f, r, 0);
      GridSumBound(f, r + 1);
    }
  }

  /** CountThreats counts some of the 69 in-bounds windows. */
  lemma ThreatCountBound(g: Position, player: Player, length: int)
    ensures 0 <= ThreatCount(g, player, length) <= 69
  {
    forall r, c
      ensures ThreatsOf(g, player, length)(r, c) <= WindowsAt(r, c)
    {
      CellThreatsBound(g, player, length, r, c);
    }
    GridSumBound(ThreatsOf(g, player, length), 0);
  }

  /** The centre-column term of EvaluatePosition over rows r.. : +3 for each of the
      player's pieces, -3 for each of the opponent's. */
  function Center(g: Position, player: Player, r: nat): int
    requires r <= Rows
    decreases Rows - r
  {
    if r == Rows then 0
    else
      (if Cell(g, r, Cols / 2) == player then 3 else if Cell(g, r, Cols / 2) == Opponent(player) then -3 else 0) +
      Center(g, player, r + 1)
  }

  /** EvaluatePosition(board, player) */
  function PositionScore(g: Position, player: Player): int {
    var opponent := Opponent(player);
    ThreatCount(g, player, 3) * 100 - ThreatCount(g, opponent, 3) * 100 +
    ThreatCount(g, player, 2) * 10 - ThreatCount(g, opponent, 2) * 10 +
    Center(g, player, 0)
  }

  lemma {:induction false} CenterAntisymmetric(g: Position, player: Player, r: nat)
    requires player != None && r <= Rows
    ensures Center(g, Opponent(player), r) == -Center(g, player, r)
    decreases Rows - r
  {
    if r < Rows {
      OpponentInvolution(player);
      CenterAntisymmetric(g, player, r + 1);
    }
  }

  /** The heuristic is zero-sum: the opponent's score is the negation of the player's. */
  lemma PositionScoreAntisymmetric(g: Position, player: Player)
    requires player != None
    ensures PositionScore(g, Opponent(player)) == -PositionScore(g, player)
  {
    OpponentInvolution(player);
    CenterAntisymmetric(g, player, 0);
  }

  /** |EvaluatePosition| <= 69 * 110 + 18, well below the evaluator's blocking score 1e5
      and minimax's win score 10000. */
  lemma PositionScoreBound(g: Position, player: Player)
    ensures -7608 <= PositionScore(g, player) <= 7608
  {
    var opponent := Opponent(player);
    ThreatCountBound(g, player, 3);
    ThreatCountBound(g, opponent, 3);
    ThreatCountBound(g, player, 2);
    ThreatCountBound(g, opponent, 2);
    CenterBound(g, player, 0);
  }

  lemma {:induction false} CenterBound(g: Position, player: Player, r: nat)
    requires r <= Rows
    ensures -3 * (Rows - r) <= Center(g, player, r) <= 3 * (Rows - r)
    decreases Rows - r
  {
    if r < Rows {
      CenterBound(g, player, r + 1);
    }
  }

  // ---------------------------------------------------------------------------
  // The counting loops
  // ---------------------------------------------------------------------------

  /** The inner loop of CountThreats over one window. */
  method TallyWindow(g: Position, row: int, col: int, dRow: int, dCol: int, player: Player)
    returns (myPieces: nat, empty: nat)
    requires Fits(row, col, dRow, dCol)
    ensures Tally(myPieces, empty) == Tallied(g, row, col, dRow, dCol, player, WinLength)
  {
    myPieces, empty := 0, 0;
    for i := 0 to WinLength
      invariant Tally(myPieces, empty) == Tallied(g, row, col, dRow, dCol, player, i)
    {
      var cell := Cell(g, row + Offset(i, dRow), col + Offset(i, dCol));
      if cell == player {
        myPieces := myPieces + 1;
      } else if cell == None {
        empty := empty + 1;
      }
    }
  }

  method IsThreatAt(g: Position, row: int, col: int, dRow: int, dCol: int, player: Player, length: int)
    returns (threat: bool)
    requires Fits(row, col, dRow, dCol)
    ensures threat == ThreatAt(g, player, length, row, col, dRow, dCol)
  {
    var myPieces, empty := TallyWindow(g, row, col, dRow, dCol, player);
    threat := myPieces == length && empty == WinLength - length;
  }

  /** The body of CountThreats' column loop: the threats among the windows starting at (row, col). */
  method CellThreatCount(g: Position, row: int, col: int, player: Player, length: int) returns (n: nat)
    requires OnBoard(row, col)
    ensures n == CellThreats(g, player, length, row, col)
  {
    n := 0;
    if col <= Cols - WinLength {
      var threat := IsThreatAt(g, row, col, 0, 1, player, length);
      if threat {
        n := n + 1;
      }
    }
    assert n == Indicator(ThreatAt(g, player, length, row, col, 0, 1));
    ghost var n1 := n;
    if row <= Rows - WinLength {
      var threat := IsThreatAt(g, row, col, 1, 0, player, length);
      if threat {
        n := n + 1;
      }
    }
    assert n == n1 + Indicator(ThreatAt(g, player, length, row, col, 1, 0));
    ghost var n2 := n;
    if row <= Rows - WinLength && col <= Cols - WinLength {
      var threat := IsThreatAt(g, row, col, 1, 1, player, length);
      if threat {
        n := n + 1;
      }
    }
    assert n == n2 + Indicator(ThreatAt(g, player, length, row, col, 1, 1));
    ghost var n3 := n;
    if row <= Rows - WinLength && col >= WinLength - 1 {
      var threat := IsThreatAt(g, row, col, 1, -1, player, length);
      if threat {
        n := n + 1;
      }
    }
    assert n == n3 + Indicator(ThreatAt(g, player, length, row, col, 1, -1));
  }

  /** One pass of CountThreats' row loop. */
  method RowThreatCount(g: Position, row: int, player: Player, length: int) returns (n: nat)
    requires 0 <= row < Rows
    ensures n == RowSum(ThreatsOf(g, player, length), row, 0)
  {
    n := 0;
    for col := 0 to Cols
      invariant n + RowSum(ThreatsOf(g, player, length), row, col) == RowSum(ThreatsOf(g, player, length), row, 0)
    {
      var cellCount := CellThreatCount(g, row, col, player, length);
      n := n + cellCount;
    }
  }

  /** MinimaxAI::CountThreats and HeuristicEvaluator::CountThreats */
  method CountThreats(g: Position, player: Player, length: int) returns (count: int)
    ensures count == ThreatCount(g, player, length)
  {
    count := 0;
    for row := 0 to Rows
      invariant count + GridSum(ThreatsOf(g, player, length), row) == ThreatCount(g, player, length)
    {
      var rowCount := RowThreatCount(g, row, player, length);
      count := count + rowCount;
    }
  }

  /** The centre-column loop of EvaluatePosition. */
  method CenterControl(g: Position, player: Player, opponent: Player) returns (bonus: int)
    requires opponent == Opponent(player)
    ensures bonus == Center(g, player, 0)
  {
    bonus := 0;
    var centerCol := Cols / 2;
    for row := 0 to Rows
      invariant bonus + Center(g, player, row) == Center(g, player, 0)
    {
      if Cell(g, row, centerCol) == player {
        bonus := bonus + 3;
      } else if Cell(g, row, centerCol) == opponent {
        bonus := bonus - 3;
      }
    }
  }

  /** MinimaxAI::EvaluatePosition and HeuristicEvaluator::EvaluatePosition */
  method EvaluatePosition(g: Position, player: Player) returns (score: int)
    ensures score == PositionScore(g, player)
  {
    var opponent := if player == Player1 then Player2 else Player1;
    assert opponent == Opponent(player);
    score := 0;
    var own3 := CountThreats(g, player, 3);
    score := score + own3 * 100;
    var opp3 := CountThreats(g, opponent, 3);
    score := score - opp3 * 100;
    var own2 := CountThreats(g, player, 2);
    score := score + own2 * 10;
    var opp2 := CountThreats(g, opponent, 2);
    score := score - opp2 * 10;
    var center := CenterControl(g, player, opponent);
    score := score + center;
  }
}
