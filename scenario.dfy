/** A game played through the engine's contracts alone: the click sequence
    0, 4, 1, 3, 8, 5, 2 gives O the middle row at the sixth click, so the
    seventh click is ignored; going back to move 2 and playing again
    discards the later boards. */
module Scenario {
  import opened Board
  import opened History

  const B1: Squares := [Mark(X), Empty, Empty, Empty, Empty, Empty, Empty, Empty, Empty]
  const B2: Squares := [Mark(X), Empty, Empty, Empty, Mark(O), Empty, Empty, Empty, Empty]
  const B3: Squares := [Mark(X), Mark(X), Empty, Empty, Mark(O), Empty, Empty, Empty, Empty]
  const B4: Squares := [Mark(X), Mark(X), Empty, Mark(O), Mark(O), Empty, Empty, Empty, Empty]
  const B5: Squares := [Mark(X), Mark(X), Empty, Mark(O), Mark(O), Empty, Empty, Empty, Mark(X)]
  const B6: Squares := [Mark(X), Mark(X), Empty, Mark(O), Mark(O), Mark(O), Empty, Empty, Mark(X)]

  /** X in 0, O in 4, X in 1. */
  method Opening() returns (game: Game)
    ensures fresh(game) && game.Valid()
    ensures game.currentMove == |game.history| - 1 == 3
    ensures game.history[2] == B2 && game.history[3] == B3
  {
    game := new Game();
    WinnerSpec(EmptySquares);
    game.Play(0);
    assert game.history[game.currentMove] == B1;
    WinnerSpec(B1);
    game.Play(4);
    assert game.history[game.currentMove] == B2;
    WinnerSpec(B2);
    game.Play(1);
    assert game.history[game.currentMove] == B3;
  }

  /** O in 3, X in 8, O in 5: O now holds the middle row. */
  method MiddleGame(game: Game)
    requires game.Valid()
    requires game.currentMove == |game.history| - 1 == 3
    requires game.history[2] == B2 && game.history[3] == B3
    modifies game
    ensures game.Valid()
    ensures game.currentMove == |game.history| - 1 == 6
    ensures game.history[2] == B2 && game.history[6] == B6
  {
    WinnerSpec(B3);
    game.Play(3);
    assert game.history[game.currentMove] == B4;
    WinnerSpec(B4);
    game.Play(8);
    assert game.history[game.currentMove] == B5;
    WinnerSpec(B5);
    game.Play(5);
    assert game.history[game.currentMove] == B6;
  }

  /** The seventh click, on square 2, is ignored: O has already won. */
  method IgnoredClick(game: Game)
    requires game.Valid()
    requires game.currentMove == |game.history| - 1 == 6
    requires game.history[2] == B2 && game.history[6] == B6
    modifies game
    ensures game.Valid()
    ensures game.history == old(game.history) && game.currentMove == old(game.currentMove)
    ensures game.currentMove == |game.history| - 1 == 6
    ensures game.history[2] == B2
    ensures BoardStatus(game.CurrentSquares(), game.XIsNext()) == Won(O)
  {
    assert Owns(B6, 1, O);
    game.Play(2);
    OrderIrrelevant(game.history, 6, 1, O);
  }

  /** The whole game: after the ignored click, jumping to move 2 shows X in
      0 and O in 4 with X to move, and a click from there leaves four
      boards. */
  method MiddleRowThenBranch() {
    var game := Opening();
    MiddleGame(game);
    IgnoredClick(game);
    game.JumpTo(2);
    assert game.history[game.currentMove] == B2;
    assert XIsNextAt(game.currentMove);
    WinnerSpec(B2);
    game.Play(6);
    assert |game.history| == 4 && game.currentMove == 3;
  }

  /** A full board without a line, X O X / X O O / O X X, is a draw. */
  lemma FullBoardIsDraw()
    ensures BoardStatus([Mark(X), Mark(O), Mark(X), Mark(X), Mark(O), Mark(O), Mark(O), Mark(X), Mark(X)], false) == Draw
  {
    WinnerSpec([Mark(X), Mark(O), Mark(X), Mark(X), Mark(O), Mark(O), Mark(O), Mark(X), Mark(X)]);
  }
}
