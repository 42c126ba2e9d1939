/** The Game component's state and its transitions: the board history, the
    pointer to the move being viewed and the order of the move list. */
module GameState {
  import opened Rules
  import opened History

  class Game {
    var history: seq<Board>
    var currentMove: nat
    var isAscending: bool

    /** The object invariant: the pointer is a valid index and the history is
        one the game can produce. */
    ghost predicate Valid()
      reads this
    {
      currentMove < |history| && ReachableHistory(history)
    }

    /** A history holding only the empty board, viewed at move 0, listed in
        ascending order. */
    constructor ()
      ensures Valid()
      ensures history == [EmptyBoard] && currentMove == 0 && isAscending
    {
      history := [EmptyBoard];
      currentMove := 0;
      isAscending := true;
    }

    /** xIsNext, derived from the pointer. */
    function XIsNext(): bool
      reads this
    {
      currentMove % 2 == 0
    }

    function CurrentSquares(): Board
      reads this
      requires currentMove < |history|
    {
      history[currentMove]
    }

    function Status(): Status
      reads this
      requires currentMove < |history|
    {
      StatusOf(CurrentSquares(), XIsNext())
    }

    /** The move list as rendered. */
    function MoveList(): seq<MoveItem>
      reads this
    {
      SortedMoves(Moves(history, currentMove), isAscending)
    }

    /** handlePlay: keep the history up to the viewed move, append the new
        board and view it. */
    method HandlePlay(nextSquares: Board)
      requires currentMove < |history|
      modifies this`history, this`currentMove
      ensures history == old(history[..currentMove + 1]) + [nextSquares]
      ensures currentMove == |history| - 1 == old(currentMove) + 1
      ensures old(Valid()) && Step(old(CurrentSquares()), nextSquares, old(currentMove)) ==> Valid()
    {
      if Valid() && Step(CurrentSquares(), nextSquares, currentMove) {
        TruncateAppend(history, currentMove, nextSquares);
      }
      var nextHistory := history[..currentMove + 1] + [nextSquares];
      history := nextHistory;
      currentMove := |nextHistory| - 1;
    }

    /** jumpTo: only the pointer moves. */
    method JumpTo(nextMove: nat)
      requires Valid() && nextMove < |history|
      modifies this`currentMove
      ensures Valid()
      ensures currentMove == nextMove
      ensures XIsNext() == (nextMove % 2 == 0)
    {
      currentMove := nextMove;
    }

    /** The sort button: flips the order, so the list shown is reversed. */
    method ToggleOrder()
      modifies this`isAscending
      ensures old(Valid()) ==> Valid()
      ensures isAscending == !old(isAscending)
      ensures MoveList() == Reverse(old(MoveList()))
    {
      SortOrder(Moves(history, currentMove), isAscending);
      isAscending := !isAscending;
    }

    /** A click on square i of the viewed board: Board.handleClick, whose
        onPlay is handlePlay. An occupied square or a won board leaves the
        state as it was; otherwise the history is cut after the viewed move
        and the board with the mover's mark in square i is appended. */
    method Click(i: Index)
      requires Valid()
      modifies this`history, this`currentMove
      ensures Valid()
      ensures var cur := old(history[currentMove]);
        if cur[i] != Empty || HasWinningLine(cur) then
          history == old(history) && currentMove == old(currentMove)
        else
          history == old(history[..currentMove + 1]) + [cur[i := Mark(PlayerToMove(old(currentMove)))]] &&
          currentMove == old(currentMove) + 1
    {
      var cur := CurrentSquares();
      var played := HandleClick(cur, XIsNext(), i);
      if played.Some? {
        var next := played.value;
        assert next == cur[i := Mark(PlayerToMove(currentMove))];
        assert Step(cur, next, currentMove);
        HandlePlay(next);
      }
    }
  }

  // The boards of a five-move game in which X takes the top row.
  const B1: Board := [Mark(X), Empty, Empty, Empty, Empty, Empty, Empty, Empty, Empty]
  const B2: Board := [Mark(X), Empty, Empty, Empty, Mark(O), Empty, Empty, Empty, Empty]
  const B3: Board := [Mark(X), Mark(X), Empty, Empty, Mark(O), Empty, Empty, Empty, Empty]
  const B4: Board := [Mark(X), Mark(X), Empty, Empty, Mark(O), Mark(O), Empty, Empty, Empty]
  const B5: Board := [Mark(X), Mark(X), Mark(X), Empty, Mark(O), Mark(O), Empty, Empty, Empty]

  /** Squares 0, 4, 1 from a new game. */
  method OpeningMoves() returns (g: Game)
    ensures fresh(g) && g.Valid()
    ensures g.history == [EmptyBoard, B1, B2, B3] && g.currentMove == 3
  {
    WinnerHasWinningLine(EmptyBoard);
    WinnerHasWinningLine(B1);
    WinnerHasWinningLine(B2);
    assert EmptyBoard[0 := Mark(X)] == B1 && B1[4 := Mark(O)] == B2 && B2[1 := Mark(X)] == B3;
    g := new Game();
    g.Click(0);
    g.Click(4);
    g.Click(1);
  }

  /** Squares 5 and 2 complete the top row for X. */
  method TopRowGame() returns (g: Game)
    ensures fresh(g) && g.Valid()
    ensures g.history == [EmptyBoard, B1, B2, B3, B4, B5] && g.currentMove == 5
    ensures g.Status() == Winner(X) && Evaluate(g.CurrentSquares()) == Verdict(Some(X), [0, 1, 2])
  {
    g := OpeningMoves();
    WinnerHasWinningLine(B3);
    WinnerHasWinningLine(B4);
    assert B3[5 := Mark(O)] == B4 && B4[2 := Mark(X)] == B5;
    g.Click(5);
    g.Click(2);
    FirstMatchWins(B5, 0);
  }

  /** After the win nothing can be played; jumping back to move 2, square 4
      is taken, and square 3 starts a branch that discards moves 3 to 5. */
  method BranchAfterWin()
  {
    var g := TopRowGame();
    WinnerHasWinningLine(B5);
    g.Click(8);
    assert g.history == [EmptyBoard, B1, B2, B3, B4, B5] && g.currentMove == 5;
    g.JumpTo(2);
    assert g.CurrentSquares() == B2;
    g.Click(4);
    assert |g.history| == 6 && g.currentMove == 2;
    WinnerHasWinningLine(B2);
    g.Click(3);
    assert |g.history| == 4 && g.currentMove == 3;
    assert g.history[..3] == [EmptyBoard, B1, B2] && g.history[3] == B2[3 := Mark(X)];

    // Two clicks on the sort button show the list as it was.
    var shown := g.MoveList();
    g.ToggleOrder();
    g.ToggleOrder();
    ReverseTwice(shown);
    assert g.MoveList() == shown;
  }
}
