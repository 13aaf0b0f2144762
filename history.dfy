/** The Game component's engine: the list of board snapshots, the pointer to
    the displayed one, the turn derived from that pointer, play / jump /
    restart, and the label of each history entry. */
module History {
  import opened Board

  /** X moves when an even number of moves has been made. */
  function XIsNextAt(move: nat): (xIsNext: bool) {
    move % 2 == 0
  }

  /** next is what a click that is not ignored turns b into, when move
      moves lead to b. */
  ghost predicate IsLegalStep(b: Squares, next: Squares, move: nat) {
    exists i: Index :: NextSquares(b, i, XIsNextAt(move)) == Some(next)
  }

  /** A history the engine can hold: it starts from the empty board and
      every further entry is a legal click on the one before it. */
  ghost predicate LegalHistory(history: seq<Squares>) {
    && |history| >= 1
    && history[0] == EmptySquares
    && forall k {:trigger IsLegalStep(history[k], history[k + 1], k)} ::
         0 <= k < |history| - 1 ==> IsLegalStep(history[k], history[k + 1], k)
  }

  /** The empty board holds nine empty squares and no symbol. */
  lemma EmptyCounts()
    ensures multiset(EmptySquares)[Empty] == 9
    ensures multiset(EmptySquares)[Mark(X)] == 0 && multiset(EmptySquares)[Mark(O)] == 0
  {
  }

  /** Writing p into an empty square trades one empty square for one p. */
  lemma PlaceCounts(squares: Squares, i: Index, p: Player)
    requires squares[i] == Empty
    ensures multiset(squares[i := Mark(p)])[Empty] + 1 == multiset(squares)[Empty]
    ensures multiset(squares[i := Mark(p)])[Mark(p)] == multiset(squares)[Mark(p)] + 1
    ensures forall q :: q != p ==> multiset(squares[i := Mark(p)])[Mark(q)] == multiset(squares)[Mark(q)]
  {
  }

  /** The board after k moves holds 9 - k empty squares, (k + 1) / 2 X's
      and k / 2 O's. */
  lemma {:induction false} MarkCounts(history: seq<Squares>, k: nat)
    requires LegalHistory(history) && k < |history|
    ensures multiset(history[k])[Empty] == 9 - k
    ensures multiset(history[k])[Mark(X)] == (k + 1) / 2
    ensures multiset(history[k])[Mark(O)] == k / 2
  {
    if k == 0 {
      EmptyCounts();
    } else {
      MarkCounts(history, k - 1);
      assert IsLegalStep(history[k - 1], history[k], k - 1);
      var prev, mover := history[k - 1], PlayerFor(XIsNextAt(k - 1));
      var i: Index :| NextSquares(prev, i, XIsNextAt(k - 1)) == Some(history[k]);
      assert prev[i] == Empty && history[k] == prev[i := Mark(mover)];
      PlaceCounts(prev, i, mover);
      if mover == X {
        assert (k - 1) % 2 == 0 && (k + 1) / 2 == k / 2 + 1;
      } else {
        assert (k - 1) % 2 == 1 && (k + 1) / 2 == k / 2;
      }
    }
  }

  /** A history never holds more than ten boards: each move fills a square. */
  lemma HistoryBounded(history: seq<Squares>)
    requires LegalHistory(history)
    ensures |history| <= 10
  {
    MarkCounts(history, |history| - 1);
  }

  /** The turn derived from parity agrees with the board: X is next exactly
      when X and O have placed equally many symbols. */
  lemma TurnMatchesBoard(history: seq<Squares>, k: nat)
    requires LegalHistory(history) && k < |history|
    ensures XIsNextAt(k) <==> multiset(history[k])[Mark(X)] == multiset(history[k])[Mark(O)]
  {
    MarkCounts(history, k);
  }

  /** A board is full only after nine moves. */
  lemma FullOnlyAtMoveNine(history: seq<Squares>, k: nat)
    requires LegalHistory(history) && k < |history|
    ensures IsFull(history[k]) <==> k == 9
  {
    MarkCounts(history, k);
    if IsFull(history[k]) {
      assert Empty !in history[k];
    } else {
      var j :| 0 <= j < |history[k]| && history[k][j] == Empty;
      assert Empty in history[k];
    }
  }

  /** A player who holds a line has placed at least three symbols. */
  lemma ThreeMarks(squares: Squares, k: nat, p: Player)
    requires k < |Lines| && Owns(squares, k, p)
    ensures multiset(squares)[Mark(p)] >= 3
  {
    var (a, b, c) := Lines[k];
    var s1 := squares[a := Empty];
    var s2 := s1[b := Empty];
    var s3 := s2[c := Empty];
    assert multiset(s1)[Mark(p)] + 1 == multiset(squares)[Mark(p)];
    assert multiset(s2)[Mark(p)] + 1 == multiset(s1)[Mark(p)];
    assert multiset(s3)[Mark(p)] + 1 == multiset(s2)[Mark(p)];
  }

  /** Only a board that nobody has won has a successor: play stops at a win. */
  lemma NoLineBeforeLast(history: seq<Squares>, k: nat)
    requires LegalHistory(history) && k < |history| - 1
    ensures !HasLine(history[k])
  {
    assert IsLegalStep(history[k], history[k + 1], k);
  }

  /** X can win no earlier than move 5 and O no earlier than move 6. */
  lemma WinNeedsMoves(history: seq<Squares>, k: nat, line: nat, p: Player)
    requires LegalHistory(history) && k < |history|
    requires line < |Lines| && Owns(history[k], line, p)
    ensures p == X ==> k >= 5
    ensures p == O ==> k >= 6
  {
    MarkCounts(history, k);
    ThreeMarks(history[k], line, p);
  }

  /** On a board the engine can reach, every line held is held by the same
      player: the one who moved last. */
  lemma WinnerIsUnique(history: seq<Squares>, k: nat, l1: nat, l2: nat, p: Player, q: Player)
    requires LegalHistory(history) && k < |history|
    requires l1 < |Lines| && Owns(history[k], l1, p)
    requires l2 < |Lines| && Owns(history[k], l2, q)
    ensures p == q == PlayerFor(XIsNextAt(k - 1))
  {
    if k > 0 {
      var j := k - 1;
      assert IsLegalStep(history[j], history[j + 1], j);
      var i: Index :| NextSquares(history[j], i, XIsNextAt(j)) == Some(history[k]);
      // No line was held before the move, so both lines pass through square i.
      assert !Owns(history[k - 1], l1, p);
      assert !Owns(history[k - 1], l2, q);
    }
  }

  /** The order in which calculateWinner tries the lines has no effect on a
      reachable board: whichever held line one looks at names the winner. */
  lemma OrderIrrelevant(history: seq<Squares>, k: nat, line: nat, p: Player)
    requires LegalHistory(history) && k < |history|
    requires line < |Lines| && Owns(history[k], line, p)
    ensures Winner(history[k]) == Some(p)
  {
    WinnerSpec(history[k]);
    assert HasLine(history[k]);
    var j: nat :| FirstLine(history[k], j, Winner(history[k]).value);
    WinnerIsUnique(history, k, line, j, p, Winner(history[k]).value);
  }

  /** The status of a board the engine can reach after k moves: a win is
      the last player's and ends the history, and a draw is the tenth
      board, which also ends it. */
  lemma ReachableStatus(history: seq<Squares>, k: nat)
    requires LegalHistory(history) && k < |history|
    ensures BoardStatus(history[k], XIsNextAt(k)).Won? ==>
              && k == |history| - 1 && k >= 5
              && BoardStatus(history[k], XIsNextAt(k)).winner == PlayerFor(XIsNextAt(k - 1))
    ensures BoardStatus(history[k], XIsNextAt(k)).Draw? ==> k == |history| - 1 == 9
  {
    var status := BoardStatus(history[k], XIsNextAt(k));
    HistoryBounded(history);
    if k < |history| - 1 {
      NoLineBeforeLast(history, k);
      FullOnlyAtMoveNine(history, k);
    } else if status.Won? {
      var line: nat :| FirstLine(history[k], line, status.winner);
      WinNeedsMoves(history, k, line, status.winner);
      WinnerIsUnique(history, k, line, line, status.winner, status.winner);
    } else if status.Draw? {
      FullOnlyAtMoveNine(history, k);
    }
  }

  /** The label of a history entry. */
  datatype Description = WinnerAt(winner: Player, move: nat) | GoToMove(move: nat) | GameStart

  /** The label of entry move: its winner if that board has one, otherwise
      the move number, and "game start" for entry 0. */
  function Describe(squares: Squares, move: nat): (d: Description)
    ensures d.WinnerAt? <==> HasLine(squares)
    ensures d.WinnerAt? ==> d.move == move && exists k: nat :: FirstLine(squares, k, d.winner)
    ensures d.GoToMove? <==> !HasLine(squares) && move > 0
    ensures d.GoToMove? ==> d.move == move
    ensures d.GameStart? <==> !HasLine(squares) && move == 0
  {
    WinnerSpec(squares);
    var winner := Winner(squares);
    if winner.Some? then WinnerAt(winner.value, move)
    else if move > 0 then GoToMove(move)
    else GameStart
  }

  /** history.map((squares, move) => description). */
  function Moves(history: seq<Squares>): (labels: seq<Description>) {
    seq(|history|, move requires 0 <= move < |history| => Describe(history[move], move))
  }

  /** The labels of a reachable history: entry 0 is "game start", every
      entry strictly between the first and the last is "go to move #m", and
      only the last can name a winner, no earlier than move 5. */
  lemma MovesOfLegalHistory(history: seq<Squares>)
    requires LegalHistory(history)
    ensures |Moves(history)| == |history|
    ensures Moves(history)[0] == GameStart
    ensures forall move :: 0 < move < |history| - 1 ==> Moves(history)[move] == GoToMove(move)
    ensures forall move :: 0 <= move < |history| && Moves(history)[move].WinnerAt? ==>
              move == |history| - 1 && move >= 5
  {
    var labels := Moves(history);
    forall move | 0 <= move < |history| - 1 ensures !HasLine(history[move]) {
      NoLineBeforeLast(history, move);
    }
    forall move | 0 <= move < |history| && HasLine(history[move]) ensures move >= 5 {
      var l: nat, p :| l < |Lines| && Owns(history[move], l, p);
      WinNeedsMoves(history, move, l, p);
    }
  }

  /** The Game component's state: the board snapshots and the index of the
      one on display. */
  class Game {
    var history: seq<Squares>
    var currentMove: nat

    ghost predicate Valid()
      reads this
    {
      LegalHistory(history) && currentMove < |history|
    }

    /** useState([Array(9).fill(null)]) and useState(0). */
    constructor ()
      ensures Valid()
      ensures history == [EmptySquares] && currentMove == 0
    {
      history := [EmptySquares];
      currentMove := 0;
    }

    /** xIsNext: X is to move exactly when X and O have placed equally many
        symbols on the displayed board. */
    function XIsNext(): (r: bool)
      reads this
      requires Valid()
      ensures r <==> multiset(history[currentMove])[Mark(X)] == multiset(history[currentMove])[Mark(O)]
      ensures r ==> multiset(history[currentMove])[Empty] % 2 == 1
    {
      TurnMatchesBoard(history, currentMove);
      MarkCounts(history, currentMove);
      XIsNextAt(currentMove)
    }

    /** currentSquares: the displayed board, which holds currentMove symbols. */
    function CurrentSquares(): (b: Squares)
      reads this
      requires Valid()
      ensures multiset(b)[Empty] == 9 - currentMove
    {
      MarkCounts(history, currentMove);
      history[currentMove]
    }

    /** handlePlay(nextSquares): drop every entry after the displayed one,
        append the new board and display it. Its only caller is the board's
        click handler, so the new board is a legal click on the displayed one. */
    method HandlePlay(nextSquares: Squares)
      requires Valid()
      requires IsLegalStep(history[currentMove], nextSquares, currentMove)
      modifies this
      ensures Valid()
      ensures history == old(history[..currentMove + 1]) + [nextSquares]
      ensures currentMove == |history| - 1 == old(currentMove) + 1
    {
      var nextHistory := history[..currentMove + 1] + [nextSquares];
      assert forall k :: 0 <= k < |nextHistory| - 1 ==>
        IsLegalStep(nextHistory[k], nextHistory[k + 1], k) by {
        forall k | 0 <= k < |nextHistory| - 1
          ensures IsLegalStep(nextHistory[k], nextHistory[k + 1], k)
        {
          if k < currentMove {
            assert IsLegalStep(history[k], history[k + 1], k);
          }
        }
      }
      history := nextHistory;
      currentMove := |nextHistory| - 1;
    }

    /** A click on square i of the displayed board: Board.handleClick(i)
        with onPlay bound to handlePlay. A click on a won board or a taken
        square changes nothing. */
    method Play(i: Index)
      requires Valid()
      modifies this
      ensures Valid()
      ensures var squares := old(history[currentMove]);
        if HasLine(squares) || squares[i] != Empty then
          history == old(history) && currentMove == old(currentMove)
        else
          && history == old(history[..currentMove + 1]) + [squares[i := Mark(PlayerFor(XIsNextAt(old(currentMove))))]]
          && currentMove == |history| - 1 == old(currentMove) + 1
    {
      var next := HandleClick(CurrentSquares(), i, XIsNext());
      if next.Some? {
        HandlePlay(next.value);
      }
    }

    /** jumpTo(nextMove): display an earlier (or later) snapshot; the history
        list only offers its own indices. */
    method JumpTo(nextMove: nat)
      requires Valid()
      requires nextMove < |history|
      modifies this
      ensures Valid()
      ensures history == old(history) && currentMove == nextMove
    {
      currentMove := nextMove;
    }

    /** handleRestart: back to the state the game starts in. */
    method Restart()
      requires Valid()
      modifies this
      ensures Valid()
      ensures history == [EmptySquares] && currentMove == 0
    {
      history := [EmptySquares];
      currentMove := 0;
    }
  }
}
