/** The board of the Tic-Tac-Toe game: the win detector (calculateWinner),
    the move rule of a click on a square (Board.handleClick) and the status
    line the Board component derives from its squares. */
module Board {

  datatype Option<+T> = None | Some(value: T)

  /** The two symbols a player places. */
  datatype Player = X | O

  /** A square: null in the source until a player writes a symbol into it. */
  datatype Cell = Empty | Mark(player: Player)

  /** A square's position on the 3x3 grid, row-major (row * 3 + col). */
  type Index = i: nat | i < 9

  /** A board: always nine squares. */
  type Squares = s: seq<Cell> | |s| == 9
    witness [Empty, Empty, Empty, Empty, Empty, Empty, Empty, Empty, Empty]

  /** The board a game starts from: Array(9).fill(null). */
  const EmptySquares: Squares := [Empty, Empty, Empty, Empty, Empty, Empty, Empty, Empty, Empty]

  /** The symbol of the player to move. */
  function PlayerFor(xIsNext: bool): (p: Player) {
    if xIsNext then X else O
  }

  /** The eight winning lines, in the order calculateWinner tries them:
      three rows, three columns, two diagonals. */
  const Lines: seq<(Index, Index, Index)> :=
    [(0, 1, 2), (3, 4, 5), (6, 7, 8),
     (0, 3, 6), (1, 4, 7), (2, 5, 8),
     (0, 4, 8), (2, 4, 6)]

  /** Player p holds all three squares of line k. */
  predicate Owns(squares: Squares, k: nat, p: Player)
    requires k < |Lines|
  {
    var (a, b, c) := Lines[k];
    squares[a] == Mark(p) && squares[b] == Mark(p) && squares[c] == Mark(p)
  }

  /** Some player holds some whole line. */
  predicate HasLine(squares: Squares) {
    exists k: nat, p :: k < |Lines| && Owns(squares, k, p)
  }

  /** Line k is the first line, in the fixed order, held by one player, and p holds it. */
  predicate FirstLine(squares: Squares, k: nat, p: Player) {
    && k < |Lines|
    && Owns(squares, k, p)
    && forall j: nat, q :: j < k ==> !Owns(squares, j, q)
  }

  /** The test calculateWinner applies to line k: squares[a] when it is
      non-null and equal to squares[b] and to squares[c]. */
  function LineWinner(squares: Squares, k: nat): (w: Option<Player>)
    requires k < |Lines|
    ensures w.Some? ==> Owns(squares, k, w.value)
    ensures forall p :: Owns(squares, k, p) ==> w == Some(p)
  {
    var (a, b, c) := Lines[k];
    if squares[a] != Empty && squares[a] == squares[b] && squares[a] == squares[c]
    then Some(squares[a].player)
    else None
  }

  /** The value calculateWinner returns when its scan starts at line k. */
  function WinnerFrom(squares: Squares, k: nat): (w: Option<Player>)
    requires k <= |Lines|
    decreases |Lines| - k
  {
    if k == |Lines| then None
    else if LineWinner(squares, k).Some? then LineWinner(squares, k)
    else WinnerFrom(squares, k + 1)
  }

  /** The value of calculateWinner(squares), with None for null. */
  function Winner(squares: Squares): (w: Option<Player>) {
    WinnerFrom(squares, 0)
  }

  /** A scan from line k finds the first line at or after k that one player
      holds, and finds nothing exactly when no such line exists. */
  lemma {:induction false} WinnerFromSpec(squares: Squares, k: nat)
    requires k <= |Lines|
    requires forall j: nat, q :: j < k ==> !Owns(squares, j, q)
    ensures WinnerFrom(squares, k).None? <==> !HasLine(squares)
    ensures WinnerFrom(squares, k).Some? ==>
              exists j: nat :: FirstLine(squares, j, WinnerFrom(squares, k).value)
    decreases |Lines| - k
  {
    if k == |Lines| {
    } else if LineWinner(squares, k).Some? {
      assert FirstLine(squares, k, LineWinner(squares, k).value);
    } else {
      WinnerFromSpec(squares, k + 1);
    }
  }

  /** calculateWinner returns a symbol exactly when some line is held by one
      player, and then it is the holder of the first such line in the
      fixed order. */
  lemma WinnerSpec(squares: Squares)
    ensures Winner(squares).None? <==> !HasLine(squares)
    ensures Winner(squares).Some? ==> exists k: nat :: FirstLine(squares, k, Winner(squares).value)
    ensures forall k: nat, p :: FirstLine(squares, k, p) ==> Winner(squares) == Some(p)
  {
    WinnerFromSpec(squares, 0);
    forall k: nat, p | FirstLine(squares, k, p) ensures Winner(squares) == Some(p) {
      assert HasLine(squares) by { assert Owns(squares, k, p); }
      var w := Winner(squares).value;
      var j: nat :| FirstLine(squares, j, w);
      assert Owns(squares, j, w) && Owns(squares, k, p);
      assert j == k;
    }
  }

  /** calculateWinner: an indexed loop over the lines with an early return. */
  method CalculateWinner(squares: Squares) returns (winner: Option<Player>)
    ensures winner == Winner(squares)
    ensures winner.None? <==> !HasLine(squares)
    ensures winner.Some? ==> exists k: nat :: FirstLine(squares, k, winner.value)
  {
    WinnerSpec(squares);
    for i := 0 to |Lines|
      invariant forall j: nat, q :: j < i ==> !Owns(squares, j, q)
      invariant WinnerFrom(squares, i) == Winner(squares)
    {
      var (a, b, c) := Lines[i];
      if squares[a] != Empty && squares[a] == squares[b] && squares[a] == squares[c] {
        return Some(squares[a].player);
      }
    }
    return None;
  }

  /** Every square is taken: squares.every(sq => sq !== null). */
  predicate IsFull(squares: Squares) {
    forall j :: 0 <= j < |squares| ==> squares[j] != Empty
  }

  /** The board a click on square i leads to, or None when the click is
      ignored because the game is already won or the square is taken. */
  function NextSquares(squares: Squares, i: Index, xIsNext: bool): (next: Option<Squares>)
    ensures next.None? <==> HasLine(squares) || squares[i] != Empty
    ensures next.Some? ==> next.value[i] == Mark(PlayerFor(xIsNext))
    ensures next.Some? ==> forall j :: 0 <= j < |squares| && j != i ==> next.value[j] == squares[j]
  {
    WinnerSpec(squares);
    if Winner(squares).Some? || squares[i] != Empty then None
    else Some(squares[i := Mark(PlayerFor(xIsNext))])
  }

  /** Board.handleClick(i): ignore the click on a won board or a taken
      square; otherwise copy the board (slice) and write the mover's symbol
      into square i of the copy. The given board is a value and is never
      changed. */
  method HandleClick(squares: Squares, i: Index, xIsNext: bool) returns (next: Option<Squares>)
    ensures next == NextSquares(squares, i, xIsNext)
    ensures next.None? <==> HasLine(squares) || squares[i] != Empty
    ensures next.Some? ==> next.value == squares[i := Mark(PlayerFor(xIsNext))]
  {
    var winner := CalculateWinner(squares);
    if winner.Some? || squares[i] != Empty {
      return None;
    }
    var copy := new Cell[|squares|](j requires 0 <= j < |squares| => squares[j]);
    copy[i] := if xIsNext then Mark(X) else Mark(O);
    assert copy[..] == squares[i := Mark(PlayerFor(xIsNext))];
    next := Some(copy[..]);
  }

  /** The status line of the Board component. */
  datatype Status = Won(winner: Player) | Draw | Next(player: Player)

  /** The status: the winner if there is one, else a draw when the board is
      full, else the player to move. */
  function BoardStatus(squares: Squares, xIsNext: bool): (s: Status)
    ensures s.Won? <==> HasLine(squares)
    ensures s.Won? ==> exists k: nat :: FirstLine(squares, k, s.winner)
    ensures s.Draw? <==> !HasLine(squares) && IsFull(squares)
    ensures s.Next? <==> !HasLine(squares) && !IsFull(squares)
    ensures s.Next? ==> s.player == PlayerFor(xIsNext)
  {
    WinnerSpec(squares);
    var winner := Winner(squares);
    var isBoardFull := IsFull(squares);
    var isDraw := winner.None? && isBoardFull;
    if winner.Some? then Won(winner.value)
    else if isDraw then Draw
    else Next(PlayerFor(xIsNext))
  }
}
