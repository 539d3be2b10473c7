/**
 * The Sudoku cell engine of the games arcade: one fixed 9 x 9 puzzle whose
 * non-zero entries are the given cells, a working board, and at most one
 * selected cell. There is no validity checking and no completion test.
 */
module Sudoku {
  import opened Wrappers

  /** The puzzle; 0 marks an empty cell. */
  const InitialBoard: seq<seq<int>> := [
    [5, 3, 0, 0, 7, 0, 0, 0, 0],
    [6, 0, 0, 1, 9, 5, 0, 0, 0],
    [0, 9, 8, 0, 0, 0, 0, 6, 0],
    [8, 0, 0, 0, 6, 0, 0, 0, 3],
    [4, 0, 0, 8, 0, 3, 0, 0, 1],
    [7, 0, 0, 0, 2, 0, 0, 0, 6],
    [0, 6, 0, 0, 0, 0, 2, 8, 0],
    [0, 0, 0, 4, 1, 9, 0, 0, 5],
    [0, 0, 0, 0, 8, 0, 0, 7, 9]
  ]

  /** The puzzle has nine rows of nine cells. */
  lemma InitialBoardShape()
    ensures |InitialBoard| == 9 && forall r :: 0 <= r < 9 ==> |InitialBoard[r]| == 9
  {
  }

  function Initial(r: nat, c: nat): int
    requires r < 9 && c < 9
  {
    InitialBoardShape();
    InitialBoard[r][c]
  }

  /** A given cell is one the puzzle fills in. */
  predicate IsGiven(r: nat, c: nat)
    requires r < 9 && c < 9
  {
    Initial(r, c) != 0
  }

  class SudokuGame {
    var board: array2<int>
    var selected: Option<(nat, nat)>

    /**
     * The board is 9 x 9, every given cell still holds the puzzle's value,
     * and a selected cell is never a given one.
     */
    ghost predicate Valid()
      reads this, board
    {
      && board.Length0 == 9 && board.Length1 == 9
      && (forall r, c :: 0 <= r < 9 && 0 <= c < 9 && IsGiven(r, c) ==> board[r, c] == Initial(r, c))
      && (selected.Some? ==> selected.value.0 < 9 && selected.value.1 < 9
                               && !IsGiven(selected.value.0, selected.value.1))
    }

    /** The board holds the puzzle exactly. */
    ghost predicate IsInitial()
      reads this, board
      requires board.Length0 == 9 && board.Length1 == 9
    {
      forall r, c :: 0 <= r < 9 && 0 <= c < 9 ==> board[r, c] == Initial(r, c)
    }

    constructor ()
      ensures Valid() && fresh(board) && IsInitial() && selected == None
    {
      board := new int[9, 9]((r, c) requires 0 <= r < 9 && 0 <= c < 9 => Initial(r, c));
      selected := None;
    }

    /** A click on cell (r, c) selects it only when it is not a given cell. */
    method CellClick(r: nat, c: nat)
      requires Valid()
      requires r < 9 && c < 9
      modifies this
      ensures Valid() && board == old(board)
      ensures selected == if IsGiven(r, c) then old(selected) else Some((r, c))
    {
      if Initial(r, c) == 0 {
        selected := Some((r, c));
      }
    }

    /**
     * A number button: with no selection nothing happens; otherwise the
     * selected cell, and no other, takes the number. Given cells are never
     * written, since they cannot be selected.
     */
    method NumberInput(num: int)
      requires Valid()
      modifies board
      ensures Valid() && selected == old(selected)
      ensures old(selected).None? ==> unchanged(board)
      ensures old(selected).Some? ==>
                var (sr, sc) := old(selected).value;
                && board[sr, sc] == num
                && forall r, c :: 0 <= r < 9 && 0 <= c < 9 && (r, c) != (sr, sc) ==>
                     board[r, c] == old(board[r, c])
    {
      if selected.Some? {
        var (r, c) := selected.value;
        board[r, c] := num;
      }
    }

    /** The Reset button: a fresh copy of the puzzle and no selection. */
    method Reset()
      requires Valid()
      modifies this
      ensures Valid() && fresh(board) && IsInitial() && selected == None
    {
      board := new int[9, 9]((r, c) requires 0 <= r < 9 && 0 <= c < 9 => Initial(r, c));
      selected := None;
    }
  }

  /** A click on a given cell leaves the puzzle's value in place. */
  method GivenCellScenario()
  {
    var g := new SudokuGame();
    assert IsGiven(0, 0) && !IsGiven(0, 2);
    g.CellClick(0, 0);
    g.NumberInput(1);
    assert g.board[0, 0] == 5;
    g.CellClick(0, 2);
    g.NumberInput(4);
    assert g.board[0, 2] == 4 && g.board[0, 0] == 5;
  }
}
