/**
 * The stand-alone Squareg board: one size × size board of tiles that the
 * player rotates row by row and column by column, shuffles, resets and
 * resizes.
 */
module Squareg {
  import opened Grid
  import opened Board

  class SquaregBoard {
    var size: nat
    var board: array2<Tile>

    /** The board array always has `size` rows and `size` columns. */
    ghost predicate Valid()
      reads this
    {
      board.Length0 == size && board.Length1 == size
    }

    ghost function Tiles(): Grid<Tile>
      reads this, board
    {
      Cells(board)
    }

    /** A new board of the given size (3 when none is given), in order. */
    constructor(size: nat := 3)
      ensures Valid() && fresh(board) && this.size == size && Tiles() == Ordered(size)
    {
      var b := NewOrdered(size);
      this.size := size;
      board := b;
    }

    /** Refills the board with ordered tiles: row r holds colour r and ids r*size .. r*size + size - 1. */
    method InitializeBoard()
      modifies this
      ensures Valid() && fresh(board) && size == old(size)
      ensures Tiles() == Ordered(size)
    {
      board := NewOrdered(size);
    }

    method RotateColumnDown(colIndex: int)
      requires Valid()
      modifies board
      ensures Tiles() == ColumnDown(old(Tiles()), colIndex)
    {
      Board.RotateColumnDown(board, size, colIndex);
    }

    method RotateColumnUp(colIndex: int)
      requires Valid()
      modifies board
      ensures Tiles() == ColumnUp(old(Tiles()), colIndex)
    {
      Board.RotateColumnUp(board, size, colIndex);
    }

    method RotateRowRight(rowIndex: int)
      requires Valid()
      modifies board
      ensures Tiles() == RowRight(old(Tiles()), rowIndex)
    {
      Board.RotateRowRight(board, size, rowIndex);
    }

    method RotateRowLeft(rowIndex: int)
      requires Valid()
      modifies board
      ensures Tiles() == RowLeft(old(Tiles()), rowIndex)
    {
      Board.RotateRowLeft(board, size, rowIndex);
    }

    /**
     * Twenty random rotations, drawn by the caller. The tiles are only
     * rearranged, and the draws made in reverse order and direction undo them.
     */
    method Shuffle(draws: seq<Move>)
      requires Valid() && |draws| == 20
      modifies board
      ensures Tiles() == Scramble(old(Tiles()), draws)
      ensures multiset(Flatten(Tiles())) == multiset(Flatten(old(Tiles())))
      ensures Scramble(Tiles(), Undo(draws)) == old(Tiles())
    {
      ghost var start := Tiles();
      for i := 0 to |draws|
        invariant Tiles() == Scramble(start, draws[..i])
      {
        var m := draws[i];
        match m.dir {
          case Down => RotateColumnDown(m.index);
          case Up => RotateColumnUp(m.index);
          case Right => RotateRowRight(m.index);
          case Left => RotateRowLeft(m.index);
        }
        assert draws[..i + 1][..i] == draws[..i];
      }
      assert draws[..|draws|] == draws;
      ScramblePermutes(start, draws);
      UndoRestores(start, draws);
    }

    /** Back to the ordered board of the current size. */
    method Reset()
      modifies this
      ensures Valid() && fresh(board) && size == old(size)
      ensures Tiles() == Ordered(size)
    {
      InitializeBoard();
    }

    /** A new size, and an ordered board of that size. */
    method ChangeSize(newSize: nat)
      modifies this
      ensures Valid() && fresh(board) && size == newSize
      ensures Tiles() == Ordered(newSize)
    {
      size := newSize;
      InitializeBoard();
    }
  }

  /**
   * Page load: a new 3 × 3 ordered board whose array belongs to the new game
   * alone, so the click handlers may rotate it.
   */
  method StartGame() returns (game: SquaregBoard)
    ensures fresh(game) && fresh(game.board) && game.Valid() && game.size == 3
    ensures game.Tiles() == Ordered(3)
  {
    game := new SquaregBoard(3);
  }
}
