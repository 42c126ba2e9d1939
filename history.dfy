/** The move history of Game seen as data: which histories the controller
    can produce, the changed square and its row/column label shown for each
    move, and the ascending or descending move list. */
module History {
  import opened Rules

  /** The derived turn: X when the move index is even (xIsNext). */
  function PlayerToMove(move: nat): Player {
    PlayerFor(move % 2 == 0)
  }

  /** A legal move played from the board of move `move`: that board had no
      winner, and exactly one empty square received the mark of the player
      to move. */
  ghost predicate Step(prev: Board, next: Board, move: nat) {
    !HasWinningLine(prev) &&
    exists i: Index :: prev[i] == Empty && next == prev[i := Mark(PlayerToMove(move))]
  }

  ghost predicate StepAt(h: seq<Board>, k: nat)
    requires k + 1 < |h|
  {
    Step(h[k], h[k + 1], k)
  }

  /** The history invariant: it starts at the empty board and every entry
      is a legal move played from the one before it. */
  ghost predicate ReachableHistory(h: seq<Board>) {
    |h| >= 1 && h[0] == EmptyBoard &&
    forall k: nat :: k + 1 < |h| ==> StepAt(h, k)
  }

  /** The number of squares of s equal to c. */
  function Count(s: seq<Cell>, c: Cell): (n: nat)
    ensures n <= |s|
  {
    if s == [] then 0 else (if s[0] == c then 1 else 0) + Count(s[1..], c)
  }

  lemma {:induction false} CountUpdate(s: seq<Cell>, i: nat, v: Cell, c: Cell)
    requires i < |s|
    ensures Count(s[i := v], c) == Count(s, c) - (if s[i] == c then 1 else 0) + (if v == c then 1 else 0)
  {
    if i > 0 {
      assert s[i := v][1..] == s[1..][i - 1 := v];
      CountUpdate(s[1..], i - 1, v, c);
    } else {
      assert s[i := v][1..] == s[1..];
    }
  }

  lemma EmptyBoardCounts(p: Player)
    ensures Count(EmptyBoard, Empty) == 9 && Count(EmptyBoard, Mark(p)) == 0
  {
    var b := EmptyBoard;
    assert b[1..][1..][1..][1..][1..][1..][1..][1..][1..] == [];
  }

  /** Move k's board holds exactly k marks: (k + 1) / 2 crosses and k / 2
      noughts. */
  lemma {:induction false} ReachableCounts(h: seq<Board>, k: nat)
    requires ReachableHistory(h) && k < |h|
    ensures Count(h[k], Empty) == 9 - k
    ensures Count(h[k], Mark(X)) == (k + 1) / 2
    ensures Count(h[k], Mark(O)) == k / 2
  {
    if k == 0 {
      EmptyBoardCounts(X);
      EmptyBoardCounts(O);
    } else {
      ReachableCounts(h, k - 1);
      assert StepAt(h, k - 1);
      var i: Index :| h[k - 1][i] == Empty && h[k] == h[k - 1][i := Mark(PlayerToMove(k - 1))];
      CountUpdate(h[k - 1], i, Mark(PlayerToMove(k - 1)), Empty);
      CountUpdate(h[k - 1], i, Mark(PlayerToMove(k - 1)), Mark(X));
      CountUpdate(h[k - 1], i, Mark(PlayerToMove(k - 1)), Mark(O));
    }
  }

  /** A game has at most nine moves, and only its last board can be won. */
  lemma ReachableBounds(h: seq<Board>)
    requires ReachableHistory(h)
    ensures |h| <= 10
    ensures forall k :: 0 <= k < |h| - 1 ==> !HasWinningLine(h[k])
  {
    ReachableCounts(h, |h| - 1);
    forall k | 0 <= k < |h| - 1 ensures !HasWinningLine(h[k]) {
      assert StepAt(h, k);
    }
  }

  /** handlePlay keeps the invariant: truncating after the current move and
      appending a legal move from it gives a reachable history again. */
  lemma TruncateAppend(h: seq<Board>, current: nat, next: Board)
    requires ReachableHistory(h) && current < |h|
    requires Step(h[current], next, current)
    ensures ReachableHistory(h[..current + 1] + [next])
  {
    var h' := h[..current + 1] + [next];
    forall k: nat | k + 1 < |h'| ensures StepAt(h', k) {
      if k < current {
        assert StepAt(h, k);
      }
    }
  }

  /** `findIndex` of the first square that differs, scanning from `from`;
      -1 when there is none. */
  function FindChangedFrom(prev: Board, cur: Board, from: nat): (r: int)
    requires from <= 9
    ensures r == -1 || from <= r < 9
    ensures r == -1 <==> forall k :: from <= k < 9 ==> prev[k] == cur[k]
    ensures r >= 0 ==> prev[r] != cur[r] && forall k :: from <= k < r ==> prev[k] == cur[k]
    decreases 9 - from
  {
    if from == 9 then -1
    else if cur[from] != prev[from] then from
    else FindChangedFrom(prev, cur, from + 1)
  }

  /** changedIndex: the first square where two boards differ, -1 for equal
      boards. */
  function ChangedIndex(prev: Board, cur: Board): int {
    FindChangedFrom(prev, cur, 0)
  }

  /** JavaScript's `%`, which truncates toward zero. */
  function JsRemainder(a: int, n: int): int
    requires n > 0
  {
    if a >= 0 then a % n else -((-a) % n)
  }

  /** The 1-based row of a square: its index divided by three, rounded
      down, plus one. Dafny's `/` by a positive divisor rounds down, as
      JavaScript's Math.floor does. */
  function RowLabel(changedIndex: int): int {
    changedIndex / 3 + 1
  }

  /** The 1-based column of a square: its index's remainder by three, in
      JavaScript's sense, plus one. */
  function ColLabel(changedIndex: int): int {
    JsRemainder(changedIndex, 3) + 1
  }

  /** For a legal move, changedIndex is the square just played, and its
      row and column labels are in 1..3 and locate that square. */
  lemma StepLabel(prev: Board, next: Board, move: nat)
    requires Step(prev, next, move)
    ensures var c := ChangedIndex(prev, next);
      0 <= c < 9 && prev[c] == Empty && next[c] == Mark(PlayerToMove(move)) &&
      (forall k :: 0 <= k < 9 && k != c ==> next[k] == prev[k]) &&
      1 <= RowLabel(c) <= 3 && 1 <= ColLabel(c) <= 3 &&
      (RowLabel(c) - 1) * 3 + (ColLabel(c) - 1) == c
  {
    var i: Index :| prev[i] == Empty && next == prev[i := Mark(PlayerToMove(move))];
    assert prev[i] != next[i];
    var c := ChangedIndex(prev, next);
    assert c == i;
  }

  /** Two equal boards have no changed square: changedIndex is -1 and both
      labels are 0. */
  lemma UnchangedLabel(b: Board)
    ensures ChangedIndex(b, b) == -1 && RowLabel(-1) == 0 && ColLabel(-1) == 0
  {
  }

  /** The label of a move in the list; move 0 is the start of the game. */
  datatype Description = GameStart | GoToMove(move: nat, col: int, row: int)

  /** One entry of the move list: a button, or the static text for the
      move being viewed. */
  datatype MoveItem = MoveItem(move: nat, description: Description, isCurrent: bool)

  function Describe(h: seq<Board>, move: nat): Description
    requires move < |h|
  {
    if move > 0 then
      var c := ChangedIndex(h[move - 1], h[move]);
      GoToMove(move, ColLabel(c), RowLabel(c))
    else GameStart
  }

  /** One item per history entry, in order, each with its label and whether
      it is the move being viewed. */
  function Moves(h: seq<Board>, currentMove: nat): seq<MoveItem> {
    seq(|h|, k requires 0 <= k < |h| => MoveItem(k, Describe(h, k), k == currentMove))
  }

  /** In a reachable history the list has one entry per move, in order,
      exactly the viewed move is marked current, and every later move is
      labelled with the 1-based column and row of the square it filled. */
  lemma MovesLabelled(h: seq<Board>, currentMove: nat)
    requires ReachableHistory(h) && currentMove < |h|
    ensures |Moves(h, currentMove)| == |h|
    ensures forall k :: 0 <= k < |h| ==>
      Moves(h, currentMove)[k].move == k &&
      (Moves(h, currentMove)[k].isCurrent <==> k == currentMove)
    ensures Moves(h, currentMove)[0].description == GameStart
    ensures forall k :: 1 <= k < |h| ==>
      var d := Moves(h, currentMove)[k].description;
      d.GoToMove? && 1 <= d.col <= 3 && 1 <= d.row <= 3 &&
      h[k - 1][(d.row - 1) * 3 + (d.col - 1)] == Empty &&
      h[k][(d.row - 1) * 3 + (d.col - 1)] == Mark(PlayerToMove(k - 1))
  {
    forall k | 1 <= k < |h|
      ensures var d := Moves(h, currentMove)[k].description;
        d.GoToMove? && 1 <= d.col <= 3 && 1 <= d.row <= 3 &&
        h[k - 1][(d.row - 1) * 3 + (d.col - 1)] == Empty &&
        h[k][(d.row - 1) * 3 + (d.col - 1)] == Mark(PlayerToMove(k - 1))
    {
      assert StepAt(h, k - 1);
      StepLabel(h[k - 1], h[k], k - 1);
    }
  }

  /** The sequence read backwards. */
  function Reverse<T>(s: seq<T>): seq<T> {
    if s == [] then [] else Reverse(s[1..]) + [s[0]]
  }

  lemma {:induction false} ReverseIndex<T>(s: seq<T>)
    ensures |Reverse(s)| == |s|
    ensures forall k :: 0 <= k < |s| ==> Reverse(s)[k] == s[|s| - 1 - k]
  {
    if s != [] {
      ReverseIndex(s[1..]);
    }
  }

  lemma ReverseTwice<T>(s: seq<T>)
    ensures Reverse(Reverse(s)) == s
  {
    ReverseIndex(s);
    ReverseIndex(Reverse(s));
  }

  /** sortedMoves: the list as built, or reversed when descending. */
  function SortedMoves(moves: seq<MoveItem>, isAscending: bool): seq<MoveItem> {
    if isAscending then moves else Reverse(moves)
  }

  /** The descending list is the ascending one read backwards, and
      flipping the order twice gives back the same list. */
  lemma SortOrder(moves: seq<MoveItem>, isAscending: bool)
    ensures |SortedMoves(moves, false)| == |moves|
    ensures forall k :: 0 <= k < |moves| ==> SortedMoves(moves, false)[k] == moves[|moves| - 1 - k]
    ensures SortedMoves(moves, !isAscending) == Reverse(SortedMoves(moves, isAscending))
  {
    ReverseIndex(moves);
    ReverseTwice(moves);
  }
}
