/**
 * The Tic-Tac-Toe engine of the games arcade: a nine-square board, a turn
 * flag, winner detection over the eight fixed lines, the click handler and
 * the Restart button.
 */
module TicTacToe {
  import opened Wrappers

  datatype Mark = X | O

  /** A square is empty (`null` in the source) or holds a mark. */
  datatype Square = Empty | Filled(mark: Mark)

  type Board = s: seq<Square> | |s| == 9 witness EmptyBoard()

  function EmptyBoard(): (b: seq<Square>)
    ensures |b| == 9 && forall i :: 0 <= i < 9 ==> b[i] == Empty
  {
    seq(9, _ => Empty)
  }

  /** The three rows, three columns and two diagonals, in the source's order. */
  const Lines: seq<(nat, nat, nat)> :=
    [(0, 1, 2), (3, 4, 5), (6, 7, 8),
     (0, 3, 6), (1, 4, 7), (2, 5, 8),
     (0, 4, 8), (2, 4, 6)]

  /** Line k is completely filled with one and the same mark m. */
  ghost predicate LineOf(b: Board, k: nat, m: Mark)
    requires k < |Lines|
  {
    var (a, c, d) := Lines[k];
    b[a] == Filled(m) && b[c] == Filled(m) && b[d] == Filled(m)
  }

  /** Line k is completely filled with one mark, whichever it is. */
  ghost predicate Won(b: Board, k: nat)
    requires k < |Lines|
  {
    var (a, c, d) := Lines[k];
    b[a].Filled? && LineOf(b, k, b[a].mark)
  }

  /** Some line is won. */
  ghost predicate HasWinner(b: Board)
  {
    exists k :: 0 <= k < |Lines| && Won(b, k)
  }

  /**
   * The winner, if any: the mark of the first line, in table order, whose
   * three squares hold the same mark. Scans the table with early return.
   */
  method CheckWinner(b: Board) returns (w: Option<Mark>)
    ensures w.Some? <==> HasWinner(b)
    ensures w.Some? ==> exists k :: 0 <= k < |Lines| && LineOf(b, k, w.value)
                                    && forall j :: 0 <= j < k ==> !Won(b, j)
  {
    for i := 0 to |Lines|
      invariant forall j :: 0 <= j < i ==> !Won(b, j)
    {
      var (a, c, d) := Lines[i];
      if b[a].Filled? && b[a] == b[c] && b[a] == b[d] {
        assert LineOf(b, i, b[a].mark) && Won(b, i);
        return Some(b[a].mark);
      }
    }
    return None;
  }

  class TicTacToeGame {
    var squares: Board
    var isXNext: bool

    /** The initial state: an empty board, X to move. */
    constructor ()
      ensures squares == EmptyBoard() && isXNext
    {
      squares := EmptyBoard();
      isXNext := true;
    }

    /**
     * A click on square i: ignored once someone has won or when the square
     * is taken; otherwise only square i changes, to the mark of the player
     * to move, and the turn passes.
     */
    method HandleClick(i: nat)
      requires i < 9
      modifies this
      ensures old(HasWinner(squares)) || old(squares[i]) != Empty ==>
                squares == old(squares) && isXNext == old(isXNext)
      ensures !old(HasWinner(squares)) && old(squares[i]) == Empty ==>
                && squares == old(squares)[i := Filled(if old(isXNext) then X else O)]
                && isXNext == !old(isXNext)
    {
      var winner := CheckWinner(squares);
      if winner.Some? || squares[i].Filled? {
        return;
      }
      squares := squares[i := Filled(if isXNext then X else O)];
      isXNext := !isXNext;
    }

    /** The Restart button clears the board but leaves the turn flag as it is. */
    method Restart()
      modifies this
      ensures squares == EmptyBoard() && isXNext == old(isXNext)
    {
      squares := EmptyBoard();
    }
  }

  /** A board with X across the top row is won by X and takes no further moves. */
  method TopRowScenario()
  {
    var g := new TicTacToeGame();
    g.HandleClick(0); g.HandleClick(3);
    g.HandleClick(1); g.HandleClick(4);
    g.HandleClick(2);
    assert LineOf(g.squares, 0, X) && Won(g.squares, 0);
    var w := CheckWinner(g.squares);
    assert w.Some?;
    assert w.value == X by {
      var k :| 0 <= k < |Lines| && LineOf(g.squares, k, w.value) && forall j :: 0 <= j < k ==> !Won(g.squares, j);
      assert k == 0;
    }
    var before := g.squares;
    g.HandleClick(8);
    assert g.squares == before;
  }
}
