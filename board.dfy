/**
 * Squareg tiles and tile boards. A tile remembers the row it started in (its
 * colour group) and its starting row-major position (its id and its label).
 * The in-place rotations act on a size × size array of tiles and are proved
 * to compute the pure rotations of module Grid.
 */
module Board {
  import opened Grid

  /** A tile: `colorIndex` is its colour group, `value` the label shown on it. */
  datatype Tile = Tile(id: int, colorIndex: int, value: int)

  /** The ordered board: the tile in row r, column c has id and value r*n + c and colour r. */
  function Ordered(n: nat): (g: Grid<Tile>)
    ensures |g| == n && Square(g)
  {
    seq(n, r requires 0 <= r < n => seq(n, c requires 0 <= c < n => Tile(r * n + c, r, r * n + c)))
  }

  /** The board's colour layout: what the win check compares. */
  function Colors(g: Grid<Tile>): (h: Grid<int>)
    ensures |h| == |g| && forall r :: 0 <= r < |g| ==> |h[r]| == |g[r]|
    ensures Square(g) ==> Square(h)
  {
    seq(|g|, r requires 0 <= r < |g| => seq(|g[r]|, c requires 0 <= c < |g[r]| => g[r][c].colorIndex))
  }

  /** The win predicate: every cell holds a tile of the same colour group in both boards. */
  predicate MatchesByColor(a: Grid<Tile>, b: Grid<Tile>)
    requires Square(a) && Square(b) && |a| == |b|
  {
    forall r, c :: 0 <= r < |a| && 0 <= c < |a| ==> a[r][c].colorIndex == b[r][c].colorIndex
  }

  // ---------------------------------------------------------------------------
  // Properties of the ordered board and of the win predicate

  /** Winning depends on the colours alone: ids and labels do not matter. */
  lemma MatchesIffSameColors(a: Grid<Tile>, b: Grid<Tile>)
    requires Square(a) && Square(b) && |a| == |b|
    ensures MatchesByColor(a, b) <==> Colors(a) == Colors(b)
  {
    if MatchesByColor(a, b) {
      forall r | 0 <= r < |a| ensures Colors(a)[r] == Colors(b)[r] {
      }
    }
    if Colors(a) == Colors(b) {
      forall r, c | 0 <= r < |a| && 0 <= c < |a| ensures a[r][c].colorIndex == b[r][c].colorIndex {
        assert Colors(a)[r][c] == Colors(b)[r][c];
      }
    }
  }

  /** Every board matches itself; in particular a fresh ordered board matches a fresh ordered board. */
  lemma OrderedMatchesItself(n: nat)
    ensures MatchesByColor(Ordered(n), Ordered(n))
  {
  }

  lemma {:induction false} RowsApart(r: nat, r': nat, n: nat)
    ensures r < r' ==> r * n + n <= r' * n
    decreases r'
  {
    if r < r' && r + 1 < r' {
      RowsApart(r, r' - 1, n);
      assert (r' - 1) * n + n == r' * n;
    }
  }

  lemma RowMajorInjective(n: nat, r: nat, c: nat, r': nat, c': nat)
    requires c < n && c' < n && r * n + c == r' * n + c'
    ensures r == r' && c == c'
  {
    RowsApart(r, r', n);
    RowsApart(r', r, n);
  }

  /** The ordered board holds one tile per id 0 .. n*n - 1: no two cells share an id. */
  lemma OrderedIdsDistinct(n: nat)
    ensures forall r, c :: 0 <= r < n && 0 <= c < n ==> 0 <= Ordered(n)[r][c].id < n * n
    ensures forall r, c, r', c' ::
      0 <= r < n && 0 <= c < n && 0 <= r' < n && 0 <= c' < n && Ordered(n)[r][c].id == Ordered(n)[r'][c'].id
      ==> r == r' && c == c'
  {
    var g: Grid<Tile> := Ordered(n);
    forall r: int, c: int | 0 <= r < n && 0 <= c < n ensures 0 <= g[r][c].id < n * n {
      RowsApart(r, n, n);
    }
    forall r: int, c: int, r': int, c': int | 0 <= r < n && 0 <= c < n && 0 <= r' < n && 0 <= c' < n && g[r][c].id == g[r'][c'].id
      ensures r == r' && c == c'
    {
      RowMajorInjective(n, r, c, r', c');
    }
  }

  lemma ColorsOfColumnDown(g: Grid<Tile>, i: int)
    requires Square(g) && InRange(|g|, i)
    ensures Square(Colors(g)) && Colors(ColumnDown(g, i)) == ColumnDown(Colors(g), i)
  {
    ColumnDownAt(g, i);
    ColumnDownIs(Colors(g), Colors(ColumnDown(g, i)), i);
  }

  lemma ColorsOfColumnUp(g: Grid<Tile>, i: int)
    requires Square(g) && InRange(|g|, i)
    ensures Square(Colors(g)) && Colors(ColumnUp(g, i)) == ColumnUp(Colors(g), i)
  {
    ColumnUpAt(g, i);
    ColumnUpIs(Colors(g), Colors(ColumnUp(g, i)), i);
  }

  lemma ColorsOfRowRight(g: Grid<Tile>, i: int)
    requires Square(g) && InRange(|g|, i)
    ensures Square(Colors(g)) && Colors(RowRight(g, i)) == RowRight(Colors(g), i)
  {
    RowRightAt(g, i);
    RowRightIs(Colors(g), Colors(RowRight(g, i)), i);
  }

  lemma ColorsOfRowLeft(g: Grid<Tile>, i: int)
    requires Square(g) && InRange(|g|, i)
    ensures Square(Colors(g)) && Colors(RowLeft(g, i)) == RowLeft(Colors(g), i)
  {
    RowLeftAt(g, i);
    RowLeftIs(Colors(g), Colors(RowLeft(g, i)), i);
  }

  /** Rotating tiles and then reading colours is reading colours and then rotating them. */
  lemma ColorsOfApply(g: Grid<Tile>, m: Move)
    requires Square(g)
    ensures Square(Colors(g)) && Colors(Apply(g, m)) == Apply(Colors(g), m)
  {
    var i := m.index;
    if InRange(|g|, i) {
      match m.dir
      case Down => ColorsOfColumnDown(g, i);
      case Up => ColorsOfColumnUp(g, i);
      case Right => ColorsOfRowRight(g, i);
      case Left => ColorsOfRowLeft(g, i);
    }
  }

  lemma {:induction false} ColorsOfScramble(g: Grid<Tile>, ms: seq<Move>)
    requires Square(g)
    ensures Square(Colors(g)) && Colors(Scramble(g, ms)) == Scramble(Colors(g), ms)
    decreases |ms|
  {
    if ms != [] {
      ColorsOfScramble(g, ms[..|ms| - 1]);
      ColorsOfApply(Scramble(g, ms[..|ms| - 1]), ms[|ms| - 1]);
    }
  }

  /** Making the same moves on two boards that match by colour gives boards that still match. */
  lemma SameMovesKeepMatch(a: Grid<Tile>, b: Grid<Tile>, ms: seq<Move>)
    requires Square(a) && Square(b) && |a| == |b| && MatchesByColor(a, b)
    ensures MatchesByColor(Scramble(a, ms), Scramble(b, ms))
  {
    MatchesIffSameColors(a, b);
    ColorsOfScramble(a, ms);
    ColorsOfScramble(b, ms);
    MatchesIffSameColors(Scramble(a, ms), Scramble(b, ms));
  }

  lemma {:induction false} ConstantRowCount(n: nat, v: int, k: int)
    ensures multiset(seq(n, _ => v))[k] == if k == v then n else 0
  {
    if n > 0 {
      ConstantRowCount(n - 1, v, k);
      assert seq(n, _ => v) == seq(n - 1, _ => v) + [v];
    }
  }

  lemma {:induction false} OrderedColorsPrefix(n: nat, m: nat, k: int)
    requires m <= n
    ensures multiset(Flatten(Colors(Ordered(n))[..m]))[k] == if 0 <= k < m then n else 0
  {
    var cg := Colors(Ordered(n));
    if m > 0 {
      OrderedColorsPrefix(n, m - 1, k);
      assert cg[..m][..m - 1] == cg[..m - 1];
      assert cg[m - 1] == seq(n, _ => m - 1);
      ConstantRowCount(n, m - 1, k);
    }
  }

  /** The ordered board has exactly n tiles of each colour 0 .. n - 1 and none of any other colour. */
  lemma OrderedColorCount(n: nat, k: int)
    ensures multiset(Flatten(Colors(Ordered(n))))[k] == if 0 <= k < n then n else 0
  {
    OrderedColorsPrefix(n, n, k);
    assert Colors(Ordered(n))[..n] == Colors(Ordered(n));
  }

  /** A board scrambled from the ordered one still has exactly n tiles of each colour 0 .. n - 1. */
  lemma ScrambledColorCount(n: nat, ms: seq<Move>, k: int)
    ensures multiset(Flatten(Colors(Scramble(Ordered(n), ms))))[k] == if 0 <= k < n then n else 0
  {
    ColorsOfScramble(Ordered(n), ms);
    ScramblePermutes(Colors(Ordered(n)), ms);
    OrderedColorCount(n, k);
  }

  // ---------------------------------------------------------------------------
  // Boards held in arrays

  /** The board an array holds, as rows of cells. */
  ghost function Cells(a: array2<Tile>): (g: Grid<Tile>)
    reads a
    ensures |g| == a.Length0 && forall r :: 0 <= r < |g| ==> |g[r]| == a.Length1
  {
    seq(a.Length0, r requires 0 <= r < a.Length0 reads a =>
      seq(a.Length1, c requires 0 <= c < a.Length1 reads a => a[r, c]))
  }

  /** Builds the ordered size × size board, row by row. */
  method NewOrdered(size: nat) returns (board: array2<Tile>)
    ensures fresh(board) && board.Length0 == size && board.Length1 == size
    ensures Cells(board) == Ordered(size)
  {
    board := new Tile[size, size];
    for row := 0 to size
      invariant forall r, c :: 0 <= r < row && 0 <= c < size ==> board[r, c] == Tile(r * size + c, r, r * size + c)
    {
      for col := 0 to size
        invariant forall r, c :: 0 <= r < row && 0 <= c < size ==> board[r, c] == Tile(r * size + c, r, r * size + c)
        invariant forall c :: 0 <= c < col ==> board[row, c] == Tile(row * size + c, row, row * size + c)
      {
        board[row, col] := Tile(row * size + col, row, row * size + col);
      }
    }
    GridEquality(Cells(board), Ordered(size));
  }

  /** Column `colIndex` rotated down in place; an index outside [0, size) leaves the board as it is. */
  method RotateColumnDown(board: array2<Tile>, size: nat, colIndex: int)
    requires board.Length0 == size && board.Length1 == size
    modifies board
    ensures Cells(board) == ColumnDown(old(Cells(board)), colIndex)
    ensures !InRange(size, colIndex) ==> Cells(board) == old(Cells(board))
  {
    if colIndex < 0 || colIndex >= size {
      return;
    }
    ghost var g := Cells(board);
    var temp := board[size - 1, colIndex];
    var row := size - 1;
    while row > 0
      invariant 0 <= row < size
      invariant forall r, c {:trigger board[r, c]} :: 0 <= r < size && 0 <= c < size && (c != colIndex || r <= row) ==> board[r, c] == g[r][c]
      invariant forall r :: row < r < size ==> board[r, colIndex] == g[r - 1][colIndex]
    {
      board[row, colIndex] := board[row - 1, colIndex];
      row := row - 1;
    }
    board[0, colIndex] := temp;
    ColumnDownIs(g, Cells(board), colIndex);
  }

  /** Column `colIndex` rotated up in place; an index outside [0, size) leaves the board as it is. */
  method RotateColumnUp(board: array2<Tile>, size: nat, colIndex: int)
    requires board.Length0 == size && board.Length1 == size
    modifies board
    ensures Cells(board) == ColumnUp(old(Cells(board)), colIndex)
    ensures !InRange(size, colIndex) ==> Cells(board) == old(Cells(board))
  {
    if colIndex < 0 || colIndex >= size {
      return;
    }
    ghost var g := Cells(board);
    var temp := board[0, colIndex];
    var row := 0;
    while row < size - 1
      invariant 0 <= row < size
      invariant forall r, c {:trigger board[r, c]} :: 0 <= r < size && 0 <= c < size && (c != colIndex || r >= row) ==> board[r, c] == g[r][c]
      invariant forall r :: 0 <= r < row ==> board[r, colIndex] == g[r + 1][colIndex]
    {
      board[row, colIndex] := board[row + 1, colIndex];
      row := row + 1;
    }
    board[size - 1, colIndex] := temp;
    ColumnUpIs(g, Cells(board), colIndex);
  }

  /** Row `rowIndex` rotated right in place; an index outside [0, size) leaves the board as it is. */
  method RotateRowRight(board: array2<Tile>, size: nat, rowIndex: int)
    requires board.Length0 == size && board.Length1 == size
    modifies board
    ensures Cells(board) == RowRight(old(Cells(board)), rowIndex)
    ensures !InRange(size, rowIndex) ==> Cells(board) == old(Cells(board))
  {
    if rowIndex < 0 || rowIndex >= size {
      return;
    }
    ghost var g := Cells(board);
    var temp := board[rowIndex, size - 1];
    var col := size - 1;
    while col > 0
      invariant 0 <= col < size
      invariant forall r, c {:trigger board[r, c]} :: 0 <= r < size && 0 <= c < size && (r != rowIndex || c <= col) ==> board[r, c] == g[r][c]
      invariant forall c :: col < c < size ==> board[rowIndex, c] == g[rowIndex][c - 1]
    {
      board[rowIndex, col] := board[rowIndex, col - 1];
      col := col - 1;
    }
    board[rowIndex, 0] := temp;
    RowRightIs(g, Cells(board), rowIndex);
  }

  /** Row `rowIndex` rotated left in place; an index outside [0, size) leaves the board as it is. */
  method RotateRowLeft(board: array2<Tile>, size: nat, rowIndex: int)
    requires board.Length0 == size && board.Length1 == size
    modifies board
    ensures Cells(board) == RowLeft(old(Cells(board)), rowIndex)
    ensures !InRange(size, rowIndex) ==> Cells(board) == old(Cells(board))
  {
    if rowIndex < 0 || rowIndex >= size {
      return;
    }
    ghost var g := Cells(board);
    var temp := board[rowIndex, 0];
    var col := 0;
    while col < size - 1
      invariant 0 <= col < size
      invariant forall r, c {:trigger board[r, c]} :: 0 <= r < size && 0 <= c < size && (r != rowIndex || c >= col) ==> board[r, c] == g[r][c]
      invariant forall c :: 0 <= c < col ==> board[rowIndex, c] == g[rowIndex][c + 1]
    {
      board[rowIndex, col] := board[rowIndex, col + 1];
      col := col + 1;
    }
    board[rowIndex, size - 1] := temp;
    RowLeftIs(g, Cells(board), rowIndex);
  }
}
