/** The rule engine of the game: cells and boards, the win evaluator
    (calculateWinner), the status line of the board and the acceptance of a
    click on a square (Board.handleClick). */
module Rules {

  datatype Option<T> = None | Some(value: T)

  /** The two marks, 'X' and 'O'; X plays first. */
  datatype Player = X | O

  /** One square: null in `src/App.tsx`, or a player's mark. */
  datatype Cell = Empty | Mark(player: Player)

  /** A square's position, row-major: row k / 3, column k % 3. */
  type Index = k: int | 0 <= k < 9

  /** A board is exactly nine squares. */
  type Board = b: seq<Cell> | |b| == 9
    witness [Empty, Empty, Empty, Empty, Empty, Empty, Empty, Empty, Empty]

  /** The board the game starts from: nine empty squares. */
  const EmptyBoard: Board := [Empty, Empty, Empty, Empty, Empty, Empty, Empty, Empty, Empty]

  type Line = (Index, Index, Index)

  /** The eight winning lines in the order they are scanned: the rows top to
      bottom, the columns left to right, then diagonal 0-4-8 before 2-4-6. */
  const Lines: seq<Line> := [
    (0, 1, 2), (3, 4, 5), (6, 7, 8),
    (0, 3, 6), (1, 4, 7), (2, 5, 8),
    (0, 4, 8), (2, 4, 6)
  ]

  /** The three squares of a line hold the same mark. */
  predicate LineWins(b: Board, line: Line) {
    b[line.0] != Empty && b[line.0] == b[line.1] && b[line.0] == b[line.2]
  }

  function Squares(line: Line): seq<Index> {
    [line.0, line.1, line.2]
  }

  /** Reference notion of a won board: some line holds three equal marks. */
  ghost predicate HasWinningLine(b: Board) {
    exists j :: 0 <= j < |Lines| && LineWins(b, Lines[j])
  }

  /** What calculateWinner returns: the winner (or null) and the indices of
      the winning line (or the empty list). */
  datatype Verdict = Verdict(winner: Option<Player>, winningSquares: seq<Index>)

  const NoWinner: Verdict := Verdict(None, [])

  function LineVerdict(b: Board, line: Line): Verdict
    requires LineWins(b, line)
  {
    Verdict(Some(b[line.0].player), Squares(line))
  }

  /** The verdict of the lines from the i-th one on. */
  function WinFrom(b: Board, i: nat): Verdict
    requires i <= |Lines|
    decreases |Lines| - i
  {
    if i == |Lines| then NoWinner
    else if LineWins(b, Lines[i]) then LineVerdict(b, Lines[i])
    else WinFrom(b, i + 1)
  }

  /** The verdict on a board: the first winning line in scanning order. */
  function Evaluate(b: Board): Verdict {
    WinFrom(b, 0)
  }

  /** calculateWinner: a counted loop over the lines with an early return. */
  method CalculateWinner(squares: Board) returns (v: Verdict)
    ensures v == Evaluate(squares)
  {
    var i := 0;
    while i < |Lines|
      invariant 0 <= i <= |Lines|
      invariant WinFrom(squares, i) == Evaluate(squares)
    {
      var (a, b, c) := Lines[i];
      if squares[a] != Empty && squares[a] == squares[b] && squares[a] == squares[c] {
        return Verdict(Some(squares[a].player), [a, b, c]);
      }
      i := i + 1;
    }
    return NoWinner;
  }

  lemma {:induction false} WinFromNone(b: Board, i: nat)
    requires i <= |Lines|
    requires forall j :: i <= j < |Lines| ==> !LineWins(b, Lines[j])
    ensures WinFrom(b, i) == NoWinner
    decreases |Lines| - i
  {
    if i < |Lines| {
      WinFromNone(b, i + 1);
    }
  }

  lemma {:induction false} WinFromFirst(b: Board, i: nat, j: nat)
    requires i <= j < |Lines|
    requires LineWins(b, Lines[j])
    requires forall l :: i <= l < j ==> !LineWins(b, Lines[l])
    ensures WinFrom(b, i) == LineVerdict(b, Lines[j])
    decreases j - i
  {
    if i < j {
      WinFromFirst(b, i + 1, j);
    }
  }

  lemma {:induction false} WinFromSound(b: Board, i: nat)
    requires i <= |Lines|
    ensures WinFrom(b, i).winner.Some? ==>
      exists j :: i <= j < |Lines| && LineWins(b, Lines[j]) && WinFrom(b, i) == LineVerdict(b, Lines[j])
    ensures WinFrom(b, i).winner.None? ==>
      WinFrom(b, i).winningSquares == [] && forall j :: i <= j < |Lines| ==> !LineWins(b, Lines[j])
    decreases |Lines| - i
  {
    if i < |Lines| {
      WinFromSound(b, i + 1);
      if LineWins(b, Lines[i]) {
        assert WinFrom(b, i) == LineVerdict(b, Lines[i]);
      }
    }
  }

  /** No line of three equal marks: no winner and no winning squares. */
  lemma NoLineNoWinner(b: Board)
    requires forall j :: 0 <= j < |Lines| ==> !LineWins(b, Lines[j])
    ensures Evaluate(b).winner == None && Evaluate(b).winningSquares == []
  {
    WinFromNone(b, 0);
  }

  /** When several lines hold three equal marks, the first in scanning
      order is reported. */
  lemma FirstMatchWins(b: Board, j: nat)
    requires j < |Lines| && LineWins(b, Lines[j])
    requires forall l :: 0 <= l < j ==> !LineWins(b, Lines[l])
    ensures Evaluate(b).winner == Some(b[Lines[j].0].player)
    ensures Evaluate(b).winningSquares == Squares(Lines[j])
  {
    WinFromFirst(b, 0, j);
  }

  /** A reported winner owns all three squares of a winning line, and a
      winner is reported exactly when some line is won. */
  lemma WinnerHasWinningLine(b: Board)
    ensures Evaluate(b).winner.Some? <==> HasWinningLine(b)
    ensures Evaluate(b).winner.None? ==> Evaluate(b).winningSquares == []
    ensures Evaluate(b).winner.Some? ==>
      (exists j :: 0 <= j < |Lines| && Evaluate(b).winningSquares == Squares(Lines[j])) &&
      |Evaluate(b).winningSquares| == 3 &&
      forall k :: k in Evaluate(b).winningSquares ==> b[k] == Mark(Evaluate(b).winner.value)
  {
    WinFromSound(b, 0);
    if Evaluate(b).winner.Some? {
      var j :| 0 <= j < |Lines| && LineWins(b, Lines[j]) && Evaluate(b) == LineVerdict(b, Lines[j]);
      assert Evaluate(b).winningSquares == Squares(Lines[j]);
    }
  }

  /** A line filled with one mark always gives a winner; it is that mark and
      that line unless an earlier line is won too. */
  lemma FilledLineIsReported(b: Board, j: nat, p: Player)
    requires j < |Lines|
    requires b[Lines[j].0] == Mark(p) && b[Lines[j].1] == Mark(p) && b[Lines[j].2] == Mark(p)
    ensures Evaluate(b).winner.Some?
    ensures (forall l :: 0 <= l < j ==> !LineWins(b, Lines[l])) ==>
      Evaluate(b) == Verdict(Some(p), Squares(Lines[j]))
  {
    assert LineWins(b, Lines[j]);
    WinnerHasWinningLine(b);
    if forall l :: 0 <= l < j ==> !LineWins(b, Lines[l]) {
      FirstMatchWins(b, j);
    }
  }

  /** Two won rows: the top row is reported, the second row is not. */
  lemma TwoWonRowsReportTheFirst()
    ensures var b: Board := [Mark(X), Mark(X), Mark(X), Mark(O), Mark(O), Mark(O), Empty, Empty, Empty];
      LineWins(b, Lines[1]) && Evaluate(b) == Verdict(Some(X), [0, 1, 2])
  {
    var b: Board := [Mark(X), Mark(X), Mark(X), Mark(O), Mark(O), Mark(O), Empty, Empty, Empty];
    FirstMatchWins(b, 0);
  }

  /** The full board after X plays 1, 2, 3, 6, 0 and O plays 4, 5, 8, 7: the
      last move completes both the top row and the left column, and only the
      top row is reported. */
  lemma DoubleLineReportsTheFirst()
    ensures var b: Board := [Mark(X), Mark(X), Mark(X), Mark(X), Mark(O), Mark(O), Mark(X), Mark(O), Mark(O)];
      LineWins(b, Lines[0]) && LineWins(b, Lines[3]) &&
      Evaluate(b) == Verdict(Some(X), [0, 1, 2]) && StatusOf(b, true) == Winner(X)
  {
    var b: Board := [Mark(X), Mark(X), Mark(X), Mark(X), Mark(O), Mark(O), Mark(X), Mark(O), Mark(O)];
    FirstMatchWins(b, 0);
  }

  /** Every square holds a mark. */
  predicate IsFull(b: Board) {
    forall k :: 0 <= k < 9 ==> b[k] != Empty
  }

  /** isDraw: every square is marked and there is no winner. */
  predicate IsDraw(b: Board) {
    IsFull(b) && Evaluate(b).winner.None?
  }

  function PlayerFor(xIsNext: bool): Player {
    if xIsNext then X else O
  }

  /** The status line, without its text: winner, draw or next player. */
  datatype Status = Winner(player: Player) | Draw | Next(player: Player)

  function StatusOf(b: Board, xIsNext: bool): Status {
    var v := Evaluate(b);
    if v.winner.Some? then Winner(v.winner.value)
    else if IsDraw(b) then Draw
    else Next(PlayerFor(xIsNext))
  }

  /** A draw is a full board where no line is won. */
  lemma DrawExactly(b: Board)
    ensures IsDraw(b) <==> IsFull(b) && !HasWinningLine(b)
  {
    WinnerHasWinningLine(b);
  }

  /** Status precedence: a won line shows its winner even on a full board;
      otherwise a full board is a draw; otherwise the player to move is
      shown. */
  lemma StatusPrecedence(b: Board, xIsNext: bool)
    ensures StatusOf(b, xIsNext).Winner? <==> HasWinningLine(b)
    ensures StatusOf(b, xIsNext).Winner? ==>
      exists j :: 0 <= j < |Lines| && LineWins(b, Lines[j]) &&
        b[Lines[j].0] == Mark(StatusOf(b, xIsNext).player)
    ensures StatusOf(b, xIsNext) == Draw <==> IsFull(b) && !HasWinningLine(b)
    ensures StatusOf(b, xIsNext) == Next(if xIsNext then X else O) <==> !IsFull(b) && !HasWinningLine(b)
  {
    WinnerHasWinningLine(b);
    if StatusOf(b, xIsNext).Winner? {
      var j :| 0 <= j < |Lines| && Evaluate(b).winningSquares == Squares(Lines[j]);
      assert Lines[j].0 in Evaluate(b).winningSquares;
    }
  }

  /** Board.handleClick: a click on an occupied square, or on a board that
      already has a winner, is ignored (None: onPlay is not called);
      otherwise the board is copied and the square receives the mark of the
      player to move, and the copy is handed to onPlay. */
  method HandleClick(squares: Board, xIsNext: bool, i: Index) returns (played: Option<Board>)
    ensures played.None? <==> squares[i] != Empty || HasWinningLine(squares)
    ensures played.Some? ==>
      played.value[i] == Mark(PlayerFor(xIsNext)) &&
      forall k :: 0 <= k < 9 && k != i ==> played.value[k] == squares[k]
  {
    var verdict := CalculateWinner(squares);
    WinnerHasWinningLine(squares);
    if squares[i] != Empty || verdict.winner.Some? {
      return None;
    }
    var nextSquares := new Cell[9](k => if 0 <= k < 9 then squares[k] else Empty);
    if xIsNext {
      nextSquares[i] := Mark(X);
    } else {
      nextSquares[i] := Mark(O);
    }
    played := Some(nextSquares[..]);
  }
}
