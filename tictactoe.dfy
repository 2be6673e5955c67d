/**
 * The game-state engine of a 3x3 Tic-Tac-Toe game: a move history of board
 * snapshots, the turn rule derived from the history's length, win detection
 * over a fixed table of eight lines, the three mutators (click, undo, reset)
 * and the status line shown to the players.
 */
module TicTacToe {

  datatype Option<T> = None | Some(value: T)

  /** A cell of the board. `Empty` is the unset slot of a freshly allocated array. */
  datatype Cell = Empty | X | O

  /** The marks players write, and the values the turn rule yields. */
  type Mark = c: Cell | c != Empty witness X

  /** A cell index; the view only ever passes `row * 3 + col` with row, col < 3. */
  type Index = i: int | 0 <= i < 9

  /** The cells of the board, row by row; the game is always created 3 by 3. */
  type Board = b: seq<Cell> | |b| == 9 witness [Empty, Empty, Empty, Empty, Empty, Empty, Empty, Empty, Empty]

  const EmptyBoard: Board := [Empty, Empty, Empty, Empty, Empty, Empty, Empty, Empty, Empty]

  // ---------------------------------------------------------------------------
  // Win detection
  // ---------------------------------------------------------------------------

  type Line = l: seq<Index> | |l| == 3 witness [0, 1, 2]

  /** The winning lines, in table order: three rows, three columns, two diagonals. */
  const Lines: seq<Line> := [
    [0, 1, 2],
    [3, 4, 5],
    [6, 7, 8],
    [0, 3, 6],
    [1, 4, 7],
    [2, 5, 8],
    [0, 4, 8],
    [2, 4, 6]
  ]

  /** The first cell of `l` holds a mark and the other two hold the same one. */
  predicate Complete(b: Board, l: Line) {
    b[l[0]] != Empty && b[l[1]] == b[l[0]] && b[l[2]] == b[l[0]]
  }

  predicate HasWin(b: Board) {
    exists k :: 0 <= k < |Lines| && Complete(b, Lines[k])
  }

  /** Line `k` of the table is complete and no line before it is. */
  ghost predicate FirstComplete(b: Board, k: int) {
    0 <= k < |Lines| && Complete(b, Lines[k]) &&
    forall j :: 0 <= j < k ==> !Complete(b, Lines[j])
  }

  /** A reported win: the mark that fills a line, and the line. */
  datatype Win = Win(mark: Mark, line: Line)

  /** The wins among lines `k..` of the table, in table order. */
  function WinsFrom(b: Board, k: nat): seq<Win>
    requires k <= |Lines|
    decreases |Lines| - k
  {
    if k == |Lines| then []
    else if Complete(b, Lines[k]) then [Win(b[Lines[k][0]], Lines[k])] + WinsFrom(b, k + 1)
    else WinsFrom(b, k + 1)
  }

  /** Every complete line of the table paired with its mark, in table order. */
  function Wins(b: Board): seq<Win> {
    WinsFrom(b, 0)
  }

  /** The positions in the table of the complete lines, from `k` on. */
  ghost function CompleteFrom(b: Board, k: nat): seq<int>
    requires k <= |Lines|
    decreases |Lines| - k
  {
    if k == |Lines| then []
    else if Complete(b, Lines[k]) then [k] + CompleteFrom(b, k + 1)
    else CompleteFrom(b, k + 1)
  }

  /** Every position `CompleteFrom(b, k)` lists is at least `k` and holds a complete line. */
  lemma {:induction false} CompleteFromSound(b: Board, k: nat)
    requires k <= |Lines|
    ensures forall j :: 0 <= j < |CompleteFrom(b, k)| ==>
      k <= CompleteFrom(b, k)[j] < |Lines| && Complete(b, Lines[CompleteFrom(b, k)[j]])
    decreases |Lines| - k
  {
    if k < |Lines| {
      CompleteFromSound(b, k + 1);
    }
  }

  /** Every complete line at position `k` or later is listed by `CompleteFrom(b, k)`. */
  lemma {:induction false} CompleteFromAll(b: Board, k: nat)
    requires k <= |Lines|
    ensures forall q :: k <= q < |Lines| && Complete(b, Lines[q]) ==> q in CompleteFrom(b, k)
    decreases |Lines| - k
  {
    if k < |Lines| {
      CompleteFromAll(b, k + 1);
    }
  }

  /** `CompleteFrom(b, k)` lists its positions in increasing order. */
  lemma {:induction false} CompleteFromIncreasing(b: Board, k: nat)
    requires k <= |Lines|
    ensures forall i, j :: 0 <= i < j < |CompleteFrom(b, k)| ==>
      CompleteFrom(b, k)[i] < CompleteFrom(b, k)[j]
    decreases |Lines| - k
  {
    if k < |Lines| {
      CompleteFromSound(b, k + 1);
      CompleteFromIncreasing(b, k + 1);
    }
  }

  /** There are as many wins from `k` on as complete positions from `k` on. */
  lemma {:induction false} WinsFromLength(b: Board, k: nat)
    requires k <= |Lines|
    ensures |WinsFrom(b, k)| == |CompleteFrom(b, k)|
    decreases |Lines| - k
  {
    if k < |Lines| {
      WinsFromLength(b, k + 1);
    }
  }

  /** The `j`-th win from `k` on is the line at the `j`-th complete position, with its mark. */
  lemma {:induction false} WinAtPosition(b: Board, k: nat, j: nat)
    requires k <= |Lines| && j < |WinsFrom(b, k)|
    ensures j < |CompleteFrom(b, k)| && 0 <= CompleteFrom(b, k)[j] < |Lines|
    ensures WinsFrom(b, k)[j].line == Lines[CompleteFrom(b, k)[j]]
    ensures WinsFrom(b, k)[j].mark == b[Lines[CompleteFrom(b, k)[j]][0]]
    decreases |Lines| - k
  {
    if Complete(b, Lines[k]) {
      if j > 0 {
        WinAtPosition(b, k + 1, j - 1);
      }
    } else {
      WinAtPosition(b, k + 1, j);
    }
  }

  /** The wins from `k` on are the lines at the complete positions from `k` on, with their marks. */
  lemma WinsFromAtPositions(b: Board, k: nat)
    requires k <= |Lines|
    ensures |WinsFrom(b, k)| == |CompleteFrom(b, k)|
    ensures forall j :: 0 <= j < |WinsFrom(b, k)| ==>
      0 <= CompleteFrom(b, k)[j] < |Lines| &&
      WinsFrom(b, k)[j].line == Lines[CompleteFrom(b, k)[j]] &&
      WinsFrom(b, k)[j].mark == b[Lines[CompleteFrom(b, k)[j]][0]]
  {
    WinsFromLength(b, k);
    forall j | 0 <= j < |WinsFrom(b, k)|
      ensures 0 <= CompleteFrom(b, k)[j] < |Lines| &&
        WinsFrom(b, k)[j].line == Lines[CompleteFrom(b, k)[j]] &&
        WinsFrom(b, k)[j].mark == b[Lines[CompleteFrom(b, k)[j]][0]]
    {
      WinAtPosition(b, k, j);
    }
  }

  /** The positions in the table of all complete lines. */
  ghost function CompletePositions(b: Board): seq<int> {
    CompleteFrom(b, 0)
  }

  /**
   * `Wins(b)` pairs each complete line of the table with its mark, in table
   * order, and leaves no complete line out: the positions of its lines are
   * increasing, each is complete, and every complete line's position is
   * among them. It is empty exactly when no line is complete.
   */
  lemma WinsCorrect(b: Board)
    ensures forall j :: 0 <= j < |CompletePositions(b)| ==>
      0 <= CompletePositions(b)[j] < |Lines| && Complete(b, Lines[CompletePositions(b)[j]])
    ensures forall q :: 0 <= q < |Lines| && Complete(b, Lines[q]) ==> q in CompletePositions(b)
    ensures forall i, j :: 0 <= i < j < |CompletePositions(b)| ==>
      CompletePositions(b)[i] < CompletePositions(b)[j]
    ensures |Wins(b)| == |CompletePositions(b)|
    ensures forall j :: 0 <= j < |Wins(b)| ==>
      Wins(b)[j].line == Lines[CompletePositions(b)[j]] &&
      Wins(b)[j].mark == b[Lines[CompletePositions(b)[j]][0]]
    ensures Wins(b) == [] <==> !HasWin(b)
  {
    CompleteFromSound(b, 0);
    CompleteFromAll(b, 0);
    CompleteFromIncreasing(b, 0);
    WinsFromAtPositions(b, 0);
    if HasWin(b) {
      var q :| 0 <= q < |Lines| && Complete(b, Lines[q]);
      assert q in CompletePositions(b);
    }
  }

  /** The first reported win is the first complete line of the table, with its mark. */
  lemma FirstWinIsFirstLine(b: Board)
    requires Wins(b) != []
    ensures exists k ::
      FirstComplete(b, k) && Wins(b)[0].line == Lines[k] && Wins(b)[0].mark == b[Lines[k][0]]
  {
    WinsCorrect(b);
    assert FirstComplete(b, CompletePositions(b)[0]);
  }

  /** The board turned a quarter clockwise. */
  function Rotate(b: Board): Board {
    [b[6], b[3], b[0], b[7], b[4], b[1], b[8], b[5], b[2]]
  }

  /** The board mirrored left to right. */
  function Mirror(b: Board): Board {
    [b[2], b[1], b[0], b[5], b[4], b[3], b[8], b[7], b[6]]
  }

  /** The position in the table where line `k` lands when the board is turned or mirrored. */
  const RotatedLine: seq<int> := [5, 4, 3, 0, 1, 2, 7, 6]
  const MirroredLine: seq<int> := [0, 1, 2, 5, 4, 3, 7, 6]

  /** A complete line stays complete, as another line of the table, when the board is turned or mirrored. */
  lemma TurnedLineComplete(b: Board, k: int)
    requires 0 <= k < |Lines| && Complete(b, Lines[k])
    ensures 0 <= RotatedLine[k] < |Lines| && Complete(Rotate(b), Lines[RotatedLine[k]])
    ensures 0 <= MirroredLine[k] < |Lines| && Complete(Mirror(b), Lines[MirroredLine[k]])
  {
  }

  lemma HasWinTurned(b: Board)
    requires HasWin(b)
    ensures HasWin(Rotate(b)) && HasWin(Mirror(b))
  {
    var k :| 0 <= k < |Lines| && Complete(b, Lines[k]);
    TurnedLineComplete(b, k);
  }

  /**
   * Win detection does not depend on how the board is turned or mirrored:
   * the eight lines are the board's rows, columns and diagonals.
   */
  lemma WinIsSymmetric(b: Board)
    ensures HasWin(Rotate(b)) <==> HasWin(b)
    ensures HasWin(Mirror(b)) <==> HasWin(b)
  {
    assert Rotate(Rotate(Rotate(Rotate(b)))) == b;
    assert Mirror(Mirror(b)) == b;
    if HasWin(b) {
      HasWinTurned(b);
    }
    if HasWin(Rotate(b)) {
      HasWinTurned(Rotate(b));
      HasWinTurned(Rotate(Rotate(b)));
      HasWinTurned(Rotate(Rotate(Rotate(b))));
    }
    if HasWin(Mirror(b)) {
      HasWinTurned(Mirror(b));
    }
  }

  // ---------------------------------------------------------------------------
  // Turn rule and status
  // ---------------------------------------------------------------------------

  /** The player to move when the history holds `historyLength` snapshots. */
  function PlayerName(historyLength: nat): Mark {
    if historyLength % 2 == 1 then X else O
  }

  function MarkName(m: Mark): string {
    if m == X then "X" else "O"
  }

  /** The status line: the first win's mark and " wins!", or else whose turn it is. */
  function StatusText(b: Board, historyLength: nat): string {
    var wins := Wins(b);
    if |wins| > 0 then MarkName(wins[0].mark) + " wins!"
    else MarkName(PlayerName(historyLength)) + "'s turn"
  }

  /**
   * With a complete line, the status names the mark of the first complete
   * line of the table followed by " wins!"; without one, it names the player
   * to move. There is no third, draw, outcome.
   */
  lemma StatusMeaning(b: Board, n: nat)
    ensures HasWin(b) ==>
      exists k :: FirstComplete(b, k) && StatusText(b, n) == MarkName(b[Lines[k][0]]) + " wins!"
    ensures !HasWin(b) ==> StatusText(b, n) == MarkName(PlayerName(n)) + "'s turn"
    ensures StatusText(b, n) in {"X wins!", "O wins!"} <==> HasWin(b)
    ensures StatusText(b, n) in {"X's turn", "O's turn"} <==> !HasWin(b)
  {
    NoWinsIffNoLine(b);
    if HasWin(b) {
      FirstWinIsFirstLine(b);
      StatusStrings(Wins(b)[0].mark);
    } else {
      StatusStrings(PlayerName(n));
    }
  }

  /** The two kinds of status line never coincide. */
  lemma StatusStrings(m: Mark)
    ensures MarkName(m) + " wins!" in {"X wins!", "O wins!"}
    ensures MarkName(m) + " wins!" !in {"X's turn", "O's turn"}
    ensures MarkName(m) + "'s turn" in {"X's turn", "O's turn"}
    ensures MarkName(m) + "'s turn" !in {"X wins!", "O wins!"}
  {
    assert "X" + " wins!" == "X wins!" && "O" + " wins!" == "O wins!";
    assert "X" + "'s turn" == "X's turn" && "O" + "'s turn" == "O's turn";
  }

  /** `Wins(b)` is empty exactly when no line is complete. */
  lemma NoWinsIffNoLine(b: Board)
    ensures Wins(b) == [] <==> !HasWin(b)
  {
    WinsCorrect(b);
  }


  // ---------------------------------------------------------------------------
  // Move history
  // ---------------------------------------------------------------------------

  /** One entry of the history: a board and the cell whose click produced it. */
  datatype Snapshot = Snapshot(squares: Board, move: Option<Index>)

  /** The single entry of a new game: an empty board and no move. */
  const Initial: Snapshot := Snapshot(EmptyBoard, None)

  function Last(h: seq<Snapshot>): Snapshot
    requires |h| > 0
  {
    h[|h| - 1]
  }

  /** `after` is `before` with mark `m` written into a cell that was empty, on a board with no win. */
  ghost predicate IsMove(before: Snapshot, after: Snapshot, m: Mark) {
    after.move.Some? &&
    !HasWin(before.squares) &&
    before.squares[after.move.value] == Empty &&
    after.squares == before.squares[after.move.value := m]
  }

  /**
   * The invariant every reachable history keeps: it starts with the initial
   * snapshot and each later snapshot is one legal move of the player whose
   * turn it was.
   */
  ghost predicate ValidHistory(h: seq<Snapshot>) {
    |h| >= 1 && h[0] == Initial &&
    forall k :: 0 < k < |h| ==> IsMove(h[k - 1], h[k], PlayerName(k))
  }

  /** A click on cell `i` is taken: no line of the current board is complete and the cell is free. */
  predicate Accepts(h: seq<Snapshot>, i: Index)
    requires |h| > 0
    ensures Accepts(h, i) <==> !HasWin(Last(h).squares) && Last(h).squares[i] == Empty
  {
    NoWinsIffNoLine(Last(h).squares);
    Wins(Last(h).squares) == [] && Last(h).squares[i] == Empty
  }

  /** The history after a click on cell `i`: one snapshot longer if the click is taken, else the same. */
  function AfterClick(h: seq<Snapshot>, i: Index): (r: seq<Snapshot>)
    requires |h| > 0
    ensures |r| == |h| + (if Accepts(h, i) then 1 else 0)
    ensures r[..|h|] == h
  {
    var current := Last(h).squares;
    if Wins(current) != [] || current[i] != Empty then h
    else h + [Snapshot(current[i := PlayerName(|h|)], Some(i))]
  }

  /**
   * A click is ignored exactly when the current board has a complete line or
   * the cell is taken. An accepted click appends one snapshot, keeps every
   * earlier one, records the cell as the move and changes the board only at
   * that cell, which now holds the mark of the player whose turn it was.
   */
  lemma ClickOutcome(h: seq<Snapshot>, i: Index)
    requires |h| > 0
    ensures !Accepts(h, i) <==> HasWin(Last(h).squares) || Last(h).squares[i] != Empty
    ensures !Accepts(h, i) ==> AfterClick(h, i) == h
    ensures Accepts(h, i) ==>
      var r := AfterClick(h, i);
      |r| == |h| + 1 && r[..|h|] == h &&
      Last(r).move == Some(i) &&
      Last(r).squares[i] == PlayerName(|h|) &&
      forall j :: 0 <= j < 9 && j != i ==> Last(r).squares[j] == Last(h).squares[j]
  {
    NoWinsIffNoLine(Last(h).squares);
  }

  /** The history after an undo: the last snapshot is dropped unless it is the only one. */
  function AfterUndo(h: seq<Snapshot>): (r: seq<Snapshot>)
    requires |h| > 0
    ensures |r| == if |h| > 1 then |h| - 1 else 1
    ensures r == h[..|r|]
  {
    if |h| > 1 then h[..|h| - 1] else h
  }

  /** The history after a reset: only its first snapshot. */
  function AfterReset(h: seq<Snapshot>): (r: seq<Snapshot>)
    requires |h| > 0
    ensures |r| == 1 && r[0] == h[0]
  {
    h[..1]
  }

  // ---------------------------------------------------------------------------
  // The invariant is kept by every mutator
  // ---------------------------------------------------------------------------

  lemma ClickKeepsValid(h: seq<Snapshot>, i: Index)
    requires ValidHistory(h)
    ensures ValidHistory(AfterClick(h, i))
  {
    NoWinsIffNoLine(Last(h).squares);
    var r := AfterClick(h, i);
    if r != h {
      forall k | 0 < k < |r|
        ensures IsMove(r[k - 1], r[k], PlayerName(k))
      {
        if k < |h| {
          assert r[k - 1] == h[k - 1] && r[k] == h[k];
        }
      }
    }
  }

  lemma UndoKeepsValid(h: seq<Snapshot>)
    requires ValidHistory(h)
    ensures ValidHistory(AfterUndo(h))
  {
    var r := AfterUndo(h);
    forall k | 0 < k < |r|
      ensures IsMove(r[k - 1], r[k], PlayerName(k))
    {
      assert r[k - 1] == h[k - 1] && r[k] == h[k];
    }
  }

  /** Reset brings back a fresh game: one empty-board snapshot with no move, X to play. */
  lemma ResetRestoresFreshGame(h: seq<Snapshot>)
    requires ValidHistory(h)
    ensures AfterReset(h) == [Initial]
    ensures ValidHistory(AfterReset(h))
    ensures forall j :: 0 <= j < 9 ==> Last(AfterReset(h)).squares[j] == Empty
    ensures PlayerName(|AfterReset(h)|) == X
  {
  }

  /** Undo right after an accepted click gives back the history before the click. */
  lemma UndoAfterClick(h: seq<Snapshot>, i: Index)
    requires |h| > 0 && Accepts(h, i)
    ensures AfterUndo(AfterClick(h, i)) == h
  {
  }

  // ---------------------------------------------------------------------------
  // Counting marks
  // ---------------------------------------------------------------------------

  function Count(s: seq<Cell>, c: Cell): (n: nat)
    ensures n <= |s|
  {
    if s == [] then 0 else (if s[0] == c then 1 else 0) + Count(s[1..], c)
  }

  lemma {:induction false} CountUpdate(s: seq<Cell>, i: int, m: Mark, c: Cell)
    requires 0 <= i < |s| && s[i] == Empty
    ensures Count(s[i := m], c) ==
      if c == m then Count(s, c) + 1
      else if c == Empty then Count(s, c) - 1
      else Count(s, c)
  {
    if i == 0 {
      assert s[i := m][1..] == s[1..];
    } else {
      assert s[i := m][1..] == s[1..][i - 1 := m];
      CountUpdate(s[1..], i - 1, m, c);
    }
  }

  lemma {:induction false} CountAll(n: nat, c: Cell)
    ensures Count(seq(n, _ => c), c) == n
  {
    if n > 0 {
      assert seq(n, _ => c)[1..] == seq(n - 1, _ => c);
      CountAll(n - 1, c);
    }
  }

  lemma {:induction false} CountNone(n: nat, c: Cell, d: Cell)
    requires c != d
    ensures Count(seq(n, _ => d), c) == 0
  {
    if n > 0 {
      assert seq(n, _ => d)[1..] == seq(n - 1, _ => d);
      CountNone(n - 1, c, d);
    }
  }

  /**
   * Snapshot `k` of a valid history holds exactly `k` marks: X wrote the
   * odd-numbered moves and O the even-numbered ones.
   */
  lemma {:induction false} SnapshotCounts(h: seq<Snapshot>, k: nat)
    requires ValidHistory(h) && k < |h|
    ensures Count(h[k].squares, X) == (k + 1) / 2
    ensures Count(h[k].squares, O) == k / 2
    ensures Count(h[k].squares, Empty) == 9 - k
  {
    if k == 0 {
      CountAll(9, Empty);
      CountNone(9, X, Empty);
      CountNone(9, O, Empty);
    } else {
      SnapshotCounts(h, k - 1);
      assert IsMove(h[k - 1], h[k], PlayerName(k));
      var i := h[k].move.value;
      CountUpdate(h[k - 1].squares, i, PlayerName(k), X);
      CountUpdate(h[k - 1].squares, i, PlayerName(k), O);
      CountUpdate(h[k - 1].squares, i, PlayerName(k), Empty);
      if k % 2 == 1 {
        assert (k + 1) / 2 == k / 2 + 1 && k / 2 == (k - 1) / 2;
      } else {
        assert (k + 1) / 2 == k / 2 && k / 2 == (k - 1) / 2 + 1;
      }
    }
  }

  /**
   * The current board holds one mark per move made, X has made as many moves
   * as O or one more, and it is X's turn exactly when both have made the same
   * number.
   */
  lemma {:induction false} CurrentBoardCounts(h: seq<Snapshot>)
    requires ValidHistory(h)
    ensures 9 - Count(Last(h).squares, Empty) == |h| - 1
    ensures Count(Last(h).squares, X) - Count(Last(h).squares, O) in {0, 1}
    ensures PlayerName(|h|) == X <==> Count(Last(h).squares, X) == Count(Last(h).squares, O)
  {
    SnapshotCounts(h, |h| - 1);
  }

  /** A valid history never holds more than the empty board and nine moves. */
  lemma {:induction false} HistoryBounded(h: seq<Snapshot>)
    requires ValidHistory(h)
    ensures |h| <= 10
  {
    SnapshotCounts(h, |h| - 1);
  }

  /**
   * After nine moves the board is full: every click is rejected and, with no
   * complete line, the status still names a player to move; there is no draw.
   */
  lemma {:induction false} FullBoardIsStuck(h: seq<Snapshot>, i: Index)
    requires ValidHistory(h) && |h| == 10
    ensures AfterClick(h, i) == h
    ensures !HasWin(Last(h).squares) ==> StatusText(Last(h).squares, |h|) == "O's turn"
  {
    SnapshotCounts(h, 9);
    NoWinsIffNoLine(Last(h).squares);
    if Last(h).squares[i] == Empty {
      CountPositive(Last(h).squares, i, Empty);
    }
  }

  lemma {:induction false} CountPositive(s: seq<Cell>, i: int, c: Cell)
    requires 0 <= i < |s| && s[i] == c
    ensures Count(s, c) > 0
  {
    if i > 0 {
      CountPositive(s[1..], i - 1, c);
    }
  }

  // ---------------------------------------------------------------------------
  // Sequences of clicks and of user actions
  // ---------------------------------------------------------------------------

  /** The history after clicking the given cells in order. */
  function ClickAll(h: seq<Snapshot>, cells: seq<Index>): (r: seq<Snapshot>)
    requires |h| > 0
    ensures |r| > 0
    decreases |cells|
  {
    if cells == [] then h else ClickAll(AfterClick(h, cells[0]), cells[1..])
  }

  /** How many of the clicks are accepted. */
  function AcceptedCount(h: seq<Snapshot>, cells: seq<Index>): (n: nat)
    requires |h| > 0
    ensures n <= |cells|
    decreases |cells|
  {
    if cells == [] then 0
    else (if Accepts(h, cells[0]) then 1 else 0) + AcceptedCount(AfterClick(h, cells[0]), cells[1..])
  }

  /** Every accepted click adds one snapshot and every ignored one adds none. */
  lemma {:induction false} ClickAllLength(h: seq<Snapshot>, cells: seq<Index>)
    requires |h| > 0
    ensures |ClickAll(h, cells)| == |h| + AcceptedCount(h, cells)
    decreases |cells|
  {
    if cells != [] {
      var h' := AfterClick(h, cells[0]);
      assert |h'| == |h| + (if Accepts(h, cells[0]) then 1 else 0);
      ClickAllLength(h', cells[1..]);
    }
  }

  /**
   * After k accepted clicks from a one-snapshot history (a new or reset game)
   * the history has k + 1 snapshots,
   * and it is X's turn exactly when k is even.
   */
  lemma {:induction false} TurnAfterClicks(start: seq<Snapshot>, cells: seq<Index>)
    requires |start| == 1
    ensures |ClickAll(start, cells)| == AcceptedCount(start, cells) + 1
    ensures PlayerName(|ClickAll(start, cells)|) == X <==> AcceptedCount(start, cells) % 2 == 0
  {
    ClickAllLength(start, cells);
    var n := AcceptedCount(start, cells);
    if n % 2 == 0 {
      assert (n + 1) % 2 == 1;
    } else {
      assert (n + 1) % 2 == 0;
    }
  }

  datatype Action = ClickCell(cell: Index) | UndoMove | ResetGame

  function Step(h: seq<Snapshot>, a: Action): seq<Snapshot>
    requires |h| > 0
  {
    match a
    case ClickCell(i) => AfterClick(h, i)
    case UndoMove => AfterUndo(h)
    case ResetGame => AfterReset(h)
  }

  /** The history after a sequence of user actions. */
  function Run(h: seq<Snapshot>, actions: seq<Action>): (r: seq<Snapshot>)
    requires |h| > 0
    ensures |r| > 0
    decreases |actions|
  {
    if actions == [] then h else Run(Step(h, actions[0]), actions[1..])
  }

  /** Any sequence of clicks, undos and resets from a valid history ends in a valid history. */
  lemma {:induction false} RunKeepsValid(h: seq<Snapshot>, actions: seq<Action>)
    requires ValidHistory(h)
    ensures ValidHistory(Run(h, actions))
    decreases |actions|
  {
    if actions != [] {
      match actions[0] {
        case ClickCell(i) => ClickKeepsValid(h, i);
        case UndoMove => UndoKeepsValid(h);
        case ResetGame => ResetRestoresFreshGame(h);
      }
      RunKeepsValid(Step(h, actions[0]), actions[1..]);
    }
  }

  /**
   * X takes the top row while O plays 4 and 5: the status announces X, the
   * report is that row, a further click is ignored, and undoing the winning
   * move gives the turn back to X.
   */
  lemma {:induction false} TopRowGame()
    ensures var h := ClickAll([Initial], [0, 4, 1, 5, 2]);
      |h| == 6 &&
      Last(h).squares == [X, X, X, Empty, O, O, Empty, Empty, Empty] &&
      Wins(Last(h).squares) == [Win(X, [0, 1, 2])] &&
      StatusText(Last(h).squares, |h|) == "X wins!" &&
      AfterClick(h, 3) == h &&
      StatusText(Last(AfterUndo(h)).squares, |AfterUndo(h)|) == "X's turn"
  {
    TopRowReached();
    TopRowBoards();
    var h := ClickAll([Initial], [0, 4, 1, 5, 2]);
    assert AfterUndo(h) == h[..5];
  }

  /** The lines of the last two boards of the top-row game. */
  lemma TopRowBoards()
    ensures Wins([X, X, X, Empty, O, O, Empty, Empty, Empty]) == [Win(X, [0, 1, 2])]
    ensures Wins([X, X, Empty, Empty, O, O, Empty, Empty, Empty]) == []
  {
    var b: Board := [X, X, X, Empty, O, O, Empty, Empty, Empty];
    assert Wins(b) == [Win(X, [0, 1, 2])];
    var u: Board := [X, X, Empty, Empty, O, O, Empty, Empty, Empty];
    assert Wins(u) == [];
  }

  /** The five clicks of the top-row game are all accepted. */
  lemma {:induction false} TopRowReached()
    ensures var h := ClickAll([Initial], [0, 4, 1, 5, 2]);
      |h| == 6 &&
      Last(h).squares == [X, X, X, Empty, O, O, Empty, Empty, Empty] &&
      h[4].squares == [X, X, Empty, Empty, O, O, Empty, Empty, Empty]
  {
    assert [0, 4, 1] + [5, 2] == [0, 4, 1, 5, 2];
    TopRowOpening([Initial]);
    TopRowEnding(ClickAll([Initial], [0, 4, 1]));
    ClickAllAppend([Initial], [0, 4, 1], [5, 2]);
  }

  /** The first three clicks of the top-row game: each is accepted. */
  lemma {:induction false} TopRowOpening(h: seq<Snapshot>)
    requires |h| == 1 && Last(h).squares == EmptyBoard
    ensures var r := ClickAll(h, [0, 4, 1]);
      |r| == 4 && Last(r).squares == [X, X, Empty, Empty, O, Empty, Empty, Empty, Empty]
  {
    var h0 := h;
    var h1 := AfterClick(h0, 0);
    assert |h1| == 2 && Last(h1).squares == [X, Empty, Empty, Empty, Empty, Empty, Empty, Empty, Empty] by {
      assert Wins(Last(h0).squares) == [];
    }
    var h2 := AfterClick(h1, 4);
    assert |h2| == 3 && Last(h2).squares == [X, Empty, Empty, Empty, O, Empty, Empty, Empty, Empty] by {
      assert Wins(Last(h1).squares) == [];
    }
    var h3 := AfterClick(h2, 1);
    assert |h3| == 4 && Last(h3).squares == [X, X, Empty, Empty, O, Empty, Empty, Empty, Empty] by {
      assert Wins(Last(h2).squares) == [];
    }
    assert [1][1..] == [] && ClickAll(h2, [1]) == h3;
    assert [4, 1][1..] == [1] && ClickAll(h1, [4, 1]) == h3;
    assert [0, 4, 1][1..] == [4, 1] && ClickAll(h0, [0, 4, 1]) == h3;
  }

  /** The last two clicks of the top-row game: each is accepted. */
  lemma {:induction false} TopRowEnding(h: seq<Snapshot>)
    requires |h| == 4 && Last(h).squares == [X, X, Empty, Empty, O, Empty, Empty, Empty, Empty]
    ensures var r := ClickAll(h, [5, 2]);
      |r| == 6 && Last(r).squares == [X, X, X, Empty, O, O, Empty, Empty, Empty] &&
      r[4].squares == [X, X, Empty, Empty, O, O, Empty, Empty, Empty]
  {
    var h3 := h;
    var h4 := AfterClick(h3, 5);
    assert |h4| == 5 && Last(h4).squares == [X, X, Empty, Empty, O, O, Empty, Empty, Empty] by {
      assert Wins(Last(h3).squares) == [];
    }
    var h5 := AfterClick(h4, 2);
    assert |h5| == 6 && Last(h5).squares == [X, X, X, Empty, O, O, Empty, Empty, Empty] && h5[4] == Last(h4) by {
      assert Wins(Last(h4).squares) == [];
    }
    assert [2][1..] == [] && ClickAll(h4, [2]) == h5;
    assert [5, 2][1..] == [2] && ClickAll(h3, [5, 2]) == h5;
  }

  /**
   * A game that fills the board without a complete line: all nine clicks are
   * accepted, and the status then reads "O's turn" although no click can be
   * accepted any more.
   */
  lemma {:induction false} FilledBoardGame(i: Index)
    ensures var h := ClickAll([Initial], [0, 1, 2, 4, 3, 5, 7, 6, 8]);
      |h| == 10 &&
      Last(h).squares == [X, O, X, X, O, O, O, X, X] &&
      !HasWin(Last(h).squares) &&
      StatusText(Last(h).squares, |h|) == "O's turn" &&
      AfterClick(h, i) == h
  {
    FilledBoardReached();
    FilledBoardHasNoLine();
    FullBoardIsStuck(ClickAll([Initial], [0, 1, 2, 4, 3, 5, 7, 6, 8]), i);
  }

  /** The nine clicks of the filled-board game are all accepted. */
  lemma {:induction false} FilledBoardReached()
    ensures var h := ClickAll([Initial], [0, 1, 2, 4, 3, 5, 7, 6, 8]);
      ValidHistory(h) && |h| == 10 && Last(h).squares == [X, O, X, X, O, O, O, X, X]
  {
    assert [0, 1, 2] + [4, 3, 5] == [0, 1, 2, 4, 3, 5];
    assert [0, 1, 2, 4, 3, 5] + [7, 6, 8] == [0, 1, 2, 4, 3, 5, 7, 6, 8];
    var h3 := ClickAll([Initial], [0, 1, 2]);
    var h6 := ClickAll(h3, [4, 3, 5]);
    FilledBoardOpening([Initial]);
    FilledBoardMiddle(h3);
    FilledBoardEnding(h6);
    ClickAllAppend([Initial], [0, 1, 2], [4, 3, 5]);
    ClickAllAppend([Initial], [0, 1, 2, 4, 3, 5], [7, 6, 8]);
    ClickAllKeepsValid([Initial], [0, 1, 2, 4, 3, 5, 7, 6, 8]);
  }

  /** The first three clicks of the filled-board game: each is accepted. */
  lemma {:induction false} FilledBoardOpening(h: seq<Snapshot>)
    requires |h| == 1 && Last(h).squares == EmptyBoard
    ensures var r := ClickAll(h, [0, 1, 2]);
      |r| == 4 && Last(r).squares == [X, O, X, Empty, Empty, Empty, Empty, Empty, Empty]
  {
    var h0 := h;
    var h1 := AfterClick(h0, 0);
    assert |h1| == 2 && Last(h1).squares == [X, Empty, Empty, Empty, Empty, Empty, Empty, Empty, Empty] by {
      assert Wins(Last(h0).squares) == [];
    }
    var h2 := AfterClick(h1, 1);
    assert |h2| == 3 && Last(h2).squares == [X, O, Empty, Empty, Empty, Empty, Empty, Empty, Empty] by {
      assert Wins(Last(h1).squares) == [];
    }
    var h3 := AfterClick(h2, 2);
    assert |h3| == 4 && Last(h3).squares == [X, O, X, Empty, Empty, Empty, Empty, Empty, Empty] by {
      assert Wins(Last(h2).squares) == [];
    }
    assert [2][1..] == [] && ClickAll(h2, [2]) == h3;
    assert [1, 2][1..] == [2] && ClickAll(h1, [1, 2]) == h3;
    assert [0, 1, 2][1..] == [1, 2] && ClickAll(h0, [0, 1, 2]) == h3;
  }

  /** The next three clicks of the filled-board game: each is accepted. */
  lemma {:induction false} FilledBoardMiddle(h: seq<Snapshot>)
    requires |h| == 4 && Last(h).squares == [X, O, X, Empty, Empty, Empty, Empty, Empty, Empty]
    ensures var r := ClickAll(h, [4, 3, 5]);
      |r| == 7 && Last(r).squares == [X, O, X, X, O, O, Empty, Empty, Empty]
  {
    var h3 := h;
    var h4 := AfterClick(h3, 4);
    assert |h4| == 5 && Last(h4).squares == [X, O, X, Empty, O, Empty, Empty, Empty, Empty] by {
      assert Wins(Last(h3).squares) == [];
    }
    var h5 := AfterClick(h4, 3);
    assert |h5| == 6 && Last(h5).squares == [X, O, X, X, O, Empty, Empty, Empty, Empty] by {
      assert Wins(Last(h4).squares) == [];
    }
    var h6 := AfterClick(h5, 5);
    assert |h6| == 7 && Last(h6).squares == [X, O, X, X, O, O, Empty, Empty, Empty] by {
      assert Wins(Last(h5).squares) == [];
    }
    assert [5][1..] == [] && ClickAll(h5, [5]) == h6;
    assert [3, 5][1..] == [5] && ClickAll(h4, [3, 5]) == h6;
    assert [4, 3, 5][1..] == [3, 5] && ClickAll(h3, [4, 3, 5]) == h6;
  }

  /** The last three clicks of the filled-board game: each is accepted and the board fills up. */
  lemma {:induction false} FilledBoardEnding(h: seq<Snapshot>)
    requires |h| == 7 && Last(h).squares == [X, O, X, X, O, O, Empty, Empty, Empty]
    ensures var r := ClickAll(h, [7, 6, 8]);
      |r| == 10 && Last(r).squares == [X, O, X, X, O, O, O, X, X]
  {
    var h6 := h;
    var h7 := AfterClick(h6, 7);
    assert |h7| == 8 && Last(h7).squares == [X, O, X, X, O, O, Empty, X, Empty] by {
      assert Wins(Last(h6).squares) == [];
    }
    var h8 := AfterClick(h7, 6);
    assert |h8| == 9 && Last(h8).squares == [X, O, X, X, O, O, O, X, Empty] by {
      assert Wins(Last(h7).squares) == [];
    }
    var h9 := AfterClick(h8, 8);
    assert |h9| == 10 && Last(h9).squares == [X, O, X, X, O, O, O, X, X] by {
      assert Wins(Last(h8).squares) == [];
    }
    assert [8][1..] == [] && ClickAll(h8, [8]) == h9;
    assert [6, 8][1..] == [8] && ClickAll(h7, [6, 8]) == h9;
    assert [7, 6, 8][1..] == [6, 8] && ClickAll(h6, [7, 6, 8]) == h9;
  }

  lemma FilledBoardHasNoLine()
    ensures !HasWin([X, O, X, X, O, O, O, X, X])
  {
    var b: Board := [X, O, X, X, O, O, O, X, X];
    assert Wins(b) == [];
    NoWinsIffNoLine(b);
  }

  lemma {:induction false} ClickAllAppend(h: seq<Snapshot>, a: seq<Index>, b: seq<Index>)
    requires |h| > 0
    ensures ClickAll(h, a + b) == ClickAll(ClickAll(h, a), b)
    decreases |a|
  {
    if a != [] {
      assert (a + b)[0] == a[0] && (a + b)[1..] == a[1..] + b;
      ClickAllAppend(AfterClick(h, a[0]), a[1..], b);
    } else {
      assert a + b == b;
    }
  }

  lemma {:induction false} ClickAllKeepsValid(h: seq<Snapshot>, cells: seq<Index>)
    requires ValidHistory(h)
    ensures ValidHistory(ClickAll(h, cells))
    decreases |cells|
  {
    if cells != [] {
      ClickKeepsValid(h, cells[0]);
      ClickAllKeepsValid(AfterClick(h, cells[0]), cells[1..]);
    }
  }

  // ---------------------------------------------------------------------------
  // The component
  // ---------------------------------------------------------------------------

  class Game {
    var history: seq<Snapshot>

    ghost predicate Valid()
      reads this
    {
      ValidHistory(history)
    }

    /** A new game on the empty 3 by 3 board. */
    constructor ()
      ensures Valid() && history == [Initial]
    {
      history := [Initial];
    }

    method Reset()
      requires Valid()
      modifies this
      ensures Valid()
      ensures history == AfterReset(old(history)) && history == [Initial]
    {
      ResetRestoresFreshGame(history);
      history := history[..1];
    }

    /** X when the history's length is odd, O when it is even. */
    function CurrentPlayerName(): (m: Mark)
      reads this
      requires Valid()
      ensures m == X <==> Count(Last(history).squares, X) == Count(Last(history).squares, O)
      ensures m == O <==> Count(Last(history).squares, X) == Count(Last(history).squares, O) + 1
    {
      CurrentBoardCounts(history);
      PlayerName(|history|)
    }

    /** The complete lines of the current board with their marks, in table order. */
    function GetWins(): (r: seq<Win>)
      reads this
      requires Valid()
      ensures r == [] <==> !HasWin(Last(history).squares)
      ensures forall j :: 0 <= j < |r| ==> r[j].line in Lines && Complete(Last(history).squares, r[j].line)
    {
      WinsCorrect(Last(history).squares);
      Wins(Last(history).squares)
    }

    /**
     * Ignores the click when a line is complete or the cell is taken;
     * otherwise copies the current board, writes the current player's mark
     * at `i` and appends the copy with move `i`.
     */
    method HandleClick(i: int)
      requires Valid() && 0 <= i < 9
      modifies this
      ensures Valid()
      ensures history == AfterClick(old(history), i)
      ensures !Accepts(old(history), i) ==> history == old(history)
      ensures Accepts(old(history), i) ==>
        history == old(history) + [Snapshot(Last(old(history)).squares[i := PlayerName(|old(history)|)], Some(i))]
    {
      ClickKeepsValid(history, i);
      var board := Last(history).squares;
      var current := new Cell[9](k requires 0 <= k < 9 => board[k]);
      if GetWins() != [] || current[i] != Empty {
        return;
      }
      current[i] := CurrentPlayerName();
      assert current[..] == board[i := PlayerName(|history|)];
      history := history + [Snapshot(current[..], Some(i))];
    }

    method Undo()
      requires Valid()
      modifies this
      ensures Valid()
      ensures history == AfterUndo(old(history))
      ensures |old(history)| > 1 ==> history == old(history)[..|old(history)| - 1]
      ensures |old(history)| == 1 ==> history == old(history)
    {
      UndoKeepsValid(history);
      if |history| > 1 {
        history := history[..|history| - 1];
      }
    }

    /** The status line shown above the board. */
    function Status(): (s: string)
      reads this
      requires Valid()
      ensures s in {"X wins!", "O wins!"} <==> HasWin(Last(history).squares)
      ensures !HasWin(Last(history).squares) ==> s == MarkName(CurrentPlayerName()) + "'s turn"
    {
      StatusMeaning(Last(history).squares, |history|);
      StatusText(Last(history).squares, |history|)
    }
  }
}
