/**
 * The Squareg puzzle board as a pure value: a square grid of cells and the
 * four cyclic rotations (a column down or up, a row right or left) that are
 * the only moves of the game. The grid is generic in what a cell holds, so the
 * same laws serve boards of tiles and boards of colour groups.
 */
module Grid {

  /** A board as a sequence of rows, each a sequence of cells. */
  type Grid<T> = seq<seq<T>>

  /** Every row is as long as there are rows: an n×n board with n = |g|. */
  predicate Square<T>(g: Grid<T>) {
    forall r :: 0 <= r < |g| ==> |g[r]| == |g|
  }

  /** True when `i` names a line (row or column) of an n×n board. */
  predicate InRange(n: nat, i: int) {
    0 <= i < n
  }

  /** The sequence rotated one step right: the last element comes first. */
  function RotateRight<T>(s: seq<T>): (t: seq<T>)
    ensures |t| == |s|
  {
    if s == [] then [] else [s[|s| - 1]] + s[..|s| - 1]
  }

  /** The sequence rotated one step left: the first element goes last. */
  function RotateLeft<T>(s: seq<T>): (t: seq<T>)
    ensures |t| == |s|
  {
    if s == [] then [] else s[1..] + [s[0]]
  }

  /** The sequence rotated k steps right: its last k elements come first. */
  function ShiftRight<T>(s: seq<T>, k: nat): (t: seq<T>)
    requires k <= |s|
    ensures |t| == |s|
  {
    s[|s| - k..] + s[..|s| - k]
  }

  /** The sequence rotated k steps left: its first k elements go last. */
  function ShiftLeft<T>(s: seq<T>, k: nat): (t: seq<T>)
    requires k <= |s|
    ensures |t| == |s|
  {
    s[k..] + s[..k]
  }

  /** The sequence rotated right k times, one step at a time. */
  function RotateRightTimes<T>(s: seq<T>, k: nat): (t: seq<T>)
    ensures |t| == |s|
  {
    if k == 0 then s else RotateRight(RotateRightTimes(s, k - 1))
  }

  /** The sequence rotated left k times, one step at a time. */
  function RotateLeftTimes<T>(s: seq<T>, k: nat): (t: seq<T>)
    ensures |t| == |s|
  {
    if k == 0 then s else RotateLeft(RotateLeftTimes(s, k - 1))
  }

  /** The cells of column `c`, top to bottom. */
  function Column<T>(g: Grid<T>, c: nat): (col: seq<T>)
    requires forall r :: 0 <= r < |g| ==> c < |g[r]|
    ensures |col| == |g|
  {
    seq(|g|, r requires 0 <= r < |g| => g[r][c])
  }

  /** The board with column `c` replaced by `col`, top to bottom. */
  function WithColumn<T>(g: Grid<T>, c: nat, col: seq<T>): (h: Grid<T>)
    requires forall r :: 0 <= r < |g| ==> c < |g[r]|
    requires |col| == |g|
    ensures |h| == |g| && forall r :: 0 <= r < |g| ==> |h[r]| == |g[r]|
    ensures Square(g) ==> Square(h)
  {
    seq(|g|, r requires 0 <= r < |g| => g[r][c := col[r]])
  }

  /** Column `c` rotated down: its last cell moves to row 0, the others one row down. */
  function ColumnDown<T>(g: Grid<T>, c: int): (h: Grid<T>)
    requires Square(g)
    ensures |h| == |g| && Square(h)
  {
    if !InRange(|g|, c) then g else WithColumn(g, c, RotateRight(Column(g, c)))
  }

  /** Column `c` rotated up: its cell in row 0 moves to the last row, the others one row up. */
  function ColumnUp<T>(g: Grid<T>, c: int): (h: Grid<T>)
    requires Square(g)
    ensures |h| == |g| && Square(h)
  {
    if !InRange(|g|, c) then g else WithColumn(g, c, RotateLeft(Column(g, c)))
  }

  /** Row `r` rotated right: its last cell moves to column 0, the others one column right. */
  function RowRight<T>(g: Grid<T>, r: int): (h: Grid<T>)
    requires Square(g)
    ensures |h| == |g| && Square(h)
  {
    if !InRange(|g|, r) then g else g[r := RotateRight(g[r])]
  }

  /** Row `r` rotated left: its cell in column 0 moves to the last column, the others one column left. */
  function RowLeft<T>(g: Grid<T>, r: int): (h: Grid<T>)
    requires Square(g)
    ensures |h| == |g| && Square(h)
  {
    if !InRange(|g|, r) then g else g[r := RotateLeft(g[r])]
  }

  /** The four kinds of move: Down and Up act on a column, Right and Left on a row. */
  datatype Direction = Down | Up | Right | Left

  /** One move: a direction and the index of the line it acts on (any integer). */
  datatype Move = Move(dir: Direction, index: int)

  function Apply<T>(g: Grid<T>, m: Move): (h: Grid<T>)
    requires Square(g)
    ensures |h| == |g| && Square(h)
  {
    match m.dir
    case Down => ColumnDown(g, m.index)
    case Up => ColumnUp(g, m.index)
    case Right => RowRight(g, m.index)
    case Left => RowLeft(g, m.index)
  }

  /** The move that undoes `m`: the opposite direction on the same line. */
  function Inverse(m: Move): Move {
    match m.dir
    case Down => Move(Up, m.index)
    case Up => Move(Down, m.index)
    case Right => Move(Left, m.index)
    case Left => Move(Right, m.index)
  }

  /** The board after the moves of `ms`, first to last. */
  function Scramble<T>(g: Grid<T>, ms: seq<Move>): (h: Grid<T>)
    requires Square(g)
    ensures |h| == |g| && Square(h)
    decreases |ms|
  {
    if ms == [] then g else Apply(Scramble(g, ms[..|ms| - 1]), ms[|ms| - 1])
  }

  /** The moves that take a scrambled board back: inverses, last move first. */
  function Undo(ms: seq<Move>): seq<Move>
    decreases |ms|
  {
    if ms == [] then [] else [Inverse(ms[|ms| - 1])] + Undo(ms[..|ms| - 1])
  }

  /** The same move made `k` times. */
  function Repeat<T>(g: Grid<T>, m: Move, k: nat): (h: Grid<T>)
    requires Square(g)
    ensures |h| == |g| && Square(h)
  {
    if k == 0 then g else Apply(Repeat(g, m, k - 1), m)
  }

  /** All cells in row-major order. */
  function Flatten<T>(g: Grid<T>): seq<T>
    decreases |g|
  {
    if g == [] then [] else Flatten(g[..|g| - 1]) + g[|g| - 1]
  }

  // ---------------------------------------------------------------------------
  // Facts about single lines

  lemma RotateLeftUndoesRight<T>(s: seq<T>)
    ensures RotateLeft(RotateRight(s)) == s
  {
    if s != [] {
      assert RotateRight(s)[1..] == s[..|s| - 1];
    }
  }

  lemma RotateRightUndoesLeft<T>(s: seq<T>)
    ensures RotateRight(RotateLeft(s)) == s
  {
    if s != [] {
      assert RotateLeft(s)[..|s| - 1] == s[1..];
    }
  }

  lemma RotatePermutes<T>(s: seq<T>)
    ensures multiset(RotateRight(s)) == multiset(s)
    ensures multiset(RotateLeft(s)) == multiset(s)
  {
    if s != [] {
      assert s == s[..|s| - 1] + [s[|s| - 1]];
      assert s == [s[0]] + s[1..];
    }
  }

  lemma RotateRightAt<T>(s: seq<T>, i: nat)
    requires i < |s|
    ensures RotateRight(s)[i] == if i == 0 then s[|s| - 1] else s[i - 1]
  {
  }

  lemma RotateLeftAt<T>(s: seq<T>, i: nat)
    requires i < |s|
    ensures RotateLeft(s)[i] == if i == |s| - 1 then s[0] else s[i + 1]
  {
  }

  /** Rotating right by one more step: the last k elements in front become the last k + 1. */
  lemma RotateRightShift<T>(s: seq<T>, k: nat)
    requires k < |s|
    ensures RotateRight(ShiftRight(s, k)) == ShiftRight(s, k + 1)
  {
    var n, t := |s|, s[|s| - k..] + s[..|s| - k];
    assert t[n - 1] == s[n - (k + 1)];
    assert t[..n - 1] == s[n - k..] + s[..n - (k + 1)];
    assert s[n - (k + 1)..] == [s[n - (k + 1)]] + s[n - k..];
    assert RotateRight(t) == [t[n - 1]] + t[..n - 1];
  }

  /** Rotating left by one more step: the first k elements at the back become the first k + 1. */
  lemma RotateLeftShift<T>(s: seq<T>, k: nat)
    requires k < |s|
    ensures RotateLeft(ShiftLeft(s, k)) == ShiftLeft(s, k + 1)
  {
    var t := s[k..] + s[..k];
    assert t[0] == s[k];
    assert t[1..] == s[k + 1..] + s[..k];
  }

  lemma ColumnOfWith<T>(g: Grid<T>, c: nat, col: seq<T>)
    requires forall r :: 0 <= r < |g| ==> c < |g[r]|
    requires |col| == |g|
    ensures Column(WithColumn(g, c, col), c) == col
  {
  }

  lemma WithColumnTwice<T>(g: Grid<T>, c: nat, x: seq<T>, y: seq<T>)
    requires forall r :: 0 <= r < |g| ==> c < |g[r]|
    requires |x| == |g| && |y| == |g|
    ensures WithColumn(WithColumn(g, c, x), c, y) == WithColumn(g, c, y)
  {
    var h := WithColumn(g, c, x);
    forall r | 0 <= r < |g| ensures WithColumn(h, c, y)[r] == WithColumn(g, c, y)[r] {
      assert h[r][c := y[r]] == g[r][c := y[r]];
    }
  }

  lemma WithOwnColumn<T>(g: Grid<T>, c: nat)
    requires forall r :: 0 <= r < |g| ==> c < |g[r]|
    ensures WithColumn(g, c, Column(g, c)) == g
  {
    forall r | 0 <= r < |g| ensures WithColumn(g, c, Column(g, c))[r] == g[r] {
      assert g[r][c := g[r][c]] == g[r];
    }
  }

  // ---------------------------------------------------------------------------
  // Where each cell of a rotated board comes from

  lemma WithColumnAt<T>(g: Grid<T>, c: nat, col: seq<T>, r: nat, j: nat)
    requires forall i :: 0 <= i < |g| ==> c < |g[i]|
    requires |col| == |g| && r < |g| && j < |g[r]|
    ensures WithColumn(g, c, col)[r][j] == if j == c then col[r] else g[r][j]
  {
  }

  lemma ColumnDownAt<T>(g: Grid<T>, c: int)
    requires Square(g) && InRange(|g|, c)
    ensures forall r, j :: 0 <= r < |g| && 0 <= j < |g| ==>
      ColumnDown(g, c)[r][j] == if j != c then g[r][j] else if r == 0 then g[|g| - 1][j] else g[r - 1][j]
  {
    var col := Column(g, c);
    forall r, j | 0 <= r < |g| && 0 <= j < |g|
      ensures ColumnDown(g, c)[r][j] == if j != c then g[r][j] else if r == 0 then g[|g| - 1][j] else g[r - 1][j]
    {
      WithColumnAt(g, c, RotateRight(col), r, j);
      RotateRightAt(col, r);
    }
  }

  lemma ColumnUpAt<T>(g: Grid<T>, c: int)
    requires Square(g) && InRange(|g|, c)
    ensures forall r, j :: 0 <= r < |g| && 0 <= j < |g| ==>
      ColumnUp(g, c)[r][j] == if j != c then g[r][j] else if r == |g| - 1 then g[0][j] else g[r + 1][j]
  {
    var col := Column(g, c);
    forall r, j | 0 <= r < |g| && 0 <= j < |g|
      ensures ColumnUp(g, c)[r][j] == if j != c then g[r][j] else if r == |g| - 1 then g[0][j] else g[r + 1][j]
    {
      WithColumnAt(g, c, RotateLeft(col), r, j);
      RotateLeftAt(col, r);
    }
  }

  lemma RowRightAt<T>(g: Grid<T>, row: int)
    requires Square(g) && InRange(|g|, row)
    ensures forall i :: 0 <= i < |g| && i != row ==> RowRight(g, row)[i] == g[i]
    ensures RowRight(g, row)[row][0] == g[row][|g| - 1]
    ensures forall j :: 0 < j < |g| ==> RowRight(g, row)[row][j] == g[row][j - 1]
  {
    forall j | 0 <= j < |g| ensures RotateRight(g[row])[j] == if j == 0 then g[row][|g| - 1] else g[row][j - 1] {
      RotateRightAt(g[row], j);
    }
  }

  lemma RowLeftAt<T>(g: Grid<T>, row: int)
    requires Square(g) && InRange(|g|, row)
    ensures forall i :: 0 <= i < |g| && i != row ==> RowLeft(g, row)[i] == g[i]
    ensures RowLeft(g, row)[row][|g| - 1] == g[row][0]
    ensures forall j :: 0 <= j < |g| - 1 ==> RowLeft(g, row)[row][j] == g[row][j + 1]
  {
    forall j | 0 <= j < |g| ensures RotateLeft(g[row])[j] == if j == |g| - 1 then g[row][0] else g[row][j + 1] {
      RotateLeftAt(g[row], j);
    }
  }

  /** A grid that agrees cell by cell with a column shifted down is that rotation. */
  lemma ColumnDownIs<T>(g: Grid<T>, h: Grid<T>, c: int)
    requires Square(g) && InRange(|g|, c) && |h| == |g| && forall r :: 0 <= r < |h| ==> |h[r]| == |g|
    requires forall r, j :: 0 <= r < |g| && 0 <= j < |g| && j != c ==> h[r][j] == g[r][j]
    requires h[0][c] == g[|g| - 1][c]
    requires forall r :: 0 < r < |g| ==> h[r][c] == g[r - 1][c]
    ensures h == ColumnDown(g, c)
  {
    ColumnDownAt(g, c);
    GridEquality(h, ColumnDown(g, c));
  }

  /** A grid that agrees cell by cell with a column shifted up is that rotation. */
  lemma ColumnUpIs<T>(g: Grid<T>, h: Grid<T>, c: int)
    requires Square(g) && InRange(|g|, c) && |h| == |g| && forall r :: 0 <= r < |h| ==> |h[r]| == |g|
    requires forall r, j :: 0 <= r < |g| && 0 <= j < |g| && j != c ==> h[r][j] == g[r][j]
    requires h[|g| - 1][c] == g[0][c]
    requires forall r :: 0 <= r < |g| - 1 ==> h[r][c] == g[r + 1][c]
    ensures h == ColumnUp(g, c)
  {
    ColumnUpAt(g, c);
    GridEquality(h, ColumnUp(g, c));
  }

  /** A grid that agrees cell by cell with a row shifted right is that rotation. */
  lemma RowRightIs<T>(g: Grid<T>, h: Grid<T>, row: int)
    requires Square(g) && InRange(|g|, row) && |h| == |g| && forall r :: 0 <= r < |h| ==> |h[r]| == |g|
    requires forall r, j :: 0 <= r < |g| && 0 <= j < |g| && r != row ==> h[r][j] == g[r][j]
    requires h[row][0] == g[row][|g| - 1]
    requires forall j :: 0 < j < |g| ==> h[row][j] == g[row][j - 1]
    ensures h == RowRight(g, row)
  {
    RowRightAt(g, row);
    GridEquality(h, RowRight(g, row));
  }

  /** A grid that agrees cell by cell with a row shifted left is that rotation. */
  lemma RowLeftIs<T>(g: Grid<T>, h: Grid<T>, row: int)
    requires Square(g) && InRange(|g|, row) && |h| == |g| && forall r :: 0 <= r < |h| ==> |h[r]| == |g|
    requires forall r, j :: 0 <= r < |g| && 0 <= j < |g| && r != row ==> h[r][j] == g[r][j]
    requires h[row][|g| - 1] == g[row][0]
    requires forall j :: 0 <= j < |g| - 1 ==> h[row][j] == g[row][j + 1]
    ensures h == RowLeft(g, row)
  {
    RowLeftAt(g, row);
    GridEquality(h, RowLeft(g, row));
  }

  // ---------------------------------------------------------------------------
  // Each rotation is undone by its opposite

  /** A column rotated up after being rotated down is back where it was. */
  lemma ColumnUpUndoesDown<T>(g: Grid<T>, c: int)
    requires Square(g)
    ensures ColumnUp(ColumnDown(g, c), c) == g
  {
    if InRange(|g|, c) {
      var col := Column(g, c);
      ColumnOfWith(g, c, RotateRight(col));
      RotateLeftUndoesRight(col);
      WithColumnTwice(g, c, RotateRight(col), col);
      WithOwnColumn(g, c);
    }
  }

  lemma ColumnDownUndoesUp<T>(g: Grid<T>, c: int)
    requires Square(g)
    ensures ColumnDown(ColumnUp(g, c), c) == g
  {
    if InRange(|g|, c) {
      var col := Column(g, c);
      ColumnOfWith(g, c, RotateLeft(col));
      RotateRightUndoesLeft(col);
      WithColumnTwice(g, c, RotateLeft(col), col);
      WithOwnColumn(g, c);
    }
  }

  /** A row rotated left after being rotated right is back where it was. */
  lemma RowLeftUndoesRight<T>(g: Grid<T>, r: int)
    requires Square(g)
    ensures RowLeft(RowRight(g, r), r) == g
  {
    if InRange(|g|, r) {
      RotateLeftUndoesRight(g[r]);
    }
  }

  lemma RowRightUndoesLeft<T>(g: Grid<T>, r: int)
    requires Square(g)
    ensures RowRight(RowLeft(g, r), r) == g
  {
    if InRange(|g|, r) {
      RotateRightUndoesLeft(g[r]);
    }
  }

  lemma {:induction false} InverseUndoes<T>(g: Grid<T>, m: Move)
    requires Square(g)
    ensures Apply(Apply(g, m), Inverse(m)) == g
  {
    match m.dir
    case Down => ColumnUpUndoesDown(g, m.index);
    case Up => ColumnDownUndoesUp(g, m.index);
    case Right => RowLeftUndoesRight(g, m.index);
    case Left => RowRightUndoesLeft(g, m.index);
  }

  lemma {:induction false} ScrambleAppend<T>(g: Grid<T>, a: seq<Move>, b: seq<Move>)
    requires Square(g)
    ensures Scramble(g, a + b) == Scramble(Scramble(g, a), b)
    decreases |b|
  {
    if b == [] {
      assert a + b == a;
    } else {
      var b' := b[..|b| - 1];
      assert (a + b)[..|a + b| - 1] == a + b';
      ScrambleAppend(g, a, b');
    }
  }

  /** Any sequence of moves is undone by the inverse moves in reverse order. */
  lemma {:induction false} UndoRestores<T>(g: Grid<T>, ms: seq<Move>)
    requires Square(g)
    ensures Scramble(Scramble(g, ms), Undo(ms)) == g
    decreases |ms|
  {
    if ms != [] {
      var init, last := ms[..|ms| - 1], ms[|ms| - 1];
      var h := Scramble(g, init);
      calc {
        Scramble(Scramble(g, ms), Undo(ms));
        Scramble(Apply(h, last), [Inverse(last)] + Undo(init));
        { ScrambleAppend(Apply(h, last), [Inverse(last)], Undo(init)); }
        Scramble(Scramble(Apply(h, last), [Inverse(last)]), Undo(init));
        { assert [Inverse(last)][..0] == []; }
        Scramble(Apply(Apply(h, last), Inverse(last)), Undo(init));
        { InverseUndoes(h, last); }
        Scramble(h, Undo(init));
        { UndoRestores(g, init); }
        g;
      }
    }
  }

  // ---------------------------------------------------------------------------
  // A rotation made n times on an n×n board is the identity

  lemma ColumnDownOfWith<T>(g: Grid<T>, c: int, t: seq<T>)
    requires Square(g) && InRange(|g|, c) && |t| == |g|
    ensures ColumnDown(WithColumn(g, c, t), c) == WithColumn(g, c, RotateRight(t))
  {
    ColumnOfWith(g, c, t);
    WithColumnTwice(g, c, t, RotateRight(t));
  }

  lemma ColumnUpOfWith<T>(g: Grid<T>, c: int, t: seq<T>)
    requires Square(g) && InRange(|g|, c) && |t| == |g|
    ensures ColumnUp(WithColumn(g, c, t), c) == WithColumn(g, c, RotateLeft(t))
  {
    ColumnOfWith(g, c, t);
    WithColumnTwice(g, c, t, RotateLeft(t));
  }

  /** A line rotated right as many times as it is long is back where it was. */
  lemma {:induction false} RotateRightTimesFull<T>(s: seq<T>)
    ensures RotateRightTimes(s, |s|) == s
  {
    ShiftRightClosedForm(s, |s|);
    assert ShiftRight(s, |s|) == s;
  }

  lemma {:induction false} ShiftRightClosedForm<T>(s: seq<T>, k: nat)
    requires k <= |s|
    ensures RotateRightTimes(s, k) == ShiftRight(s, k)
  {
    if k == 0 {
      assert ShiftRight(s, 0) == s;
    } else {
      ShiftRightClosedForm(s, k - 1);
      RotateRightShift(s, k - 1);
      assert RotateRightTimes(s, k) == RotateRight(RotateRightTimes(s, k - 1));
    }
  }

  /** A line rotated left as many times as it is long is back where it was. */
  lemma {:induction false} RotateLeftTimesFull<T>(s: seq<T>)
    ensures RotateLeftTimes(s, |s|) == s
  {
    ShiftLeftClosedForm(s, |s|);
    assert ShiftLeft(s, |s|) == s;
  }

  lemma {:induction false} ShiftLeftClosedForm<T>(s: seq<T>, k: nat)
    requires k <= |s|
    ensures RotateLeftTimes(s, k) == ShiftLeft(s, k)
  {
    if k == 0 {
      assert ShiftLeft(s, 0) == s;
    } else {
      ShiftLeftClosedForm(s, k - 1);
      RotateLeftShift(s, k - 1);
      assert RotateLeftTimes(s, k) == RotateLeft(RotateLeftTimes(s, k - 1));
    }
  }

  lemma RepeatStep<T>(g: Grid<T>, m: Move, k: nat)
    requires Square(g) && k > 0
    ensures Repeat(g, m, k) == Apply(Repeat(g, m, k - 1), m)
  {
  }

  lemma ColumnDownStep<T>(g: Grid<T>, c: int, h: Grid<T>, t: seq<T>, t': seq<T>)
    requires Square(g) && InRange(|g|, c) && |t| == |g|
    requires h == WithColumn(g, c, t) && t' == RotateRight(t)
    ensures Square(h) && ColumnDown(h, c) == WithColumn(g, c, t')
  {
    ColumnDownOfWith(g, c, t);
  }

  lemma ColumnUpStep<T>(g: Grid<T>, c: int, h: Grid<T>, t: seq<T>, t': seq<T>)
    requires Square(g) && InRange(|g|, c) && |t| == |g|
    requires h == WithColumn(g, c, t) && t' == RotateLeft(t)
    ensures Square(h) && ColumnUp(h, c) == WithColumn(g, c, t')
  {
    ColumnUpOfWith(g, c, t);
  }

  lemma RowRightStep<T>(g: Grid<T>, row: int, h: Grid<T>, t: seq<T>, t': seq<T>)
    requires Square(g) && InRange(|g|, row) && |t| == |g|
    requires h == g[row := t] && t' == RotateRight(t)
    ensures Square(h) && RowRight(h, row) == g[row := t']
  {
    assert h[row := t'] == g[row := t'];
  }

  lemma RowLeftStep<T>(g: Grid<T>, row: int, h: Grid<T>, t: seq<T>, t': seq<T>)
    requires Square(g) && InRange(|g|, row) && |t| == |g|
    requires h == g[row := t] && t' == RotateLeft(t)
    ensures Square(h) && RowLeft(h, row) == g[row := t']
  {
    assert h[row := t'] == g[row := t'];
  }

  // Each of the next four is proved one move at a time by a loop: the
  // invariant holds the board after i moves, and each step adds one more.

  lemma RepeatDownColumn<T>(g: Grid<T>, c: int, k: nat)
    requires Square(g) && InRange(|g|, c)
    ensures Repeat(g, Move(Down, c), k) == WithColumn(g, c, RotateRightTimes(Column(g, c), k))
  {
    WithOwnColumn(g, c);
    var i := 0;
    while i < k
      invariant i <= k
      invariant Repeat(g, Move(Down, c), i) == WithColumn(g, c, RotateRightTimes(Column(g, c), i))
    {
      RepeatStep(g, Move(Down, c), i + 1);
      ColumnDownStep(g, c, Repeat(g, Move(Down, c), i), RotateRightTimes(Column(g, c), i), RotateRightTimes(Column(g, c), i + 1));
      i := i + 1;
    }
  }

  lemma RepeatUpColumn<T>(g: Grid<T>, c: int, k: nat)
    requires Square(g) && InRange(|g|, c)
    ensures Repeat(g, Move(Up, c), k) == WithColumn(g, c, RotateLeftTimes(Column(g, c), k))
  {
    WithOwnColumn(g, c);
    var i := 0;
    while i < k
      invariant i <= k
      invariant Repeat(g, Move(Up, c), i) == WithColumn(g, c, RotateLeftTimes(Column(g, c), i))
    {
      RepeatStep(g, Move(Up, c), i + 1);
      ColumnUpStep(g, c, Repeat(g, Move(Up, c), i), RotateLeftTimes(Column(g, c), i), RotateLeftTimes(Column(g, c), i + 1));
      i := i + 1;
    }
  }

  lemma RepeatRightRow<T>(g: Grid<T>, row: int, k: nat)
    requires Square(g) && InRange(|g|, row)
    ensures Repeat(g, Move(Right, row), k) == g[row := RotateRightTimes(g[row], k)]
  {
    assert g[row := g[row]] == g;
    var i := 0;
    while i < k
      invariant i <= k
      invariant Repeat(g, Move(Right, row), i) == g[row := RotateRightTimes(g[row], i)]
    {
      RepeatStep(g, Move(Right, row), i + 1);
      RowRightStep(g, row, Repeat(g, Move(Right, row), i), RotateRightTimes(g[row], i), RotateRightTimes(g[row], i + 1));
      i := i + 1;
    }
  }

  lemma RepeatLeftRow<T>(g: Grid<T>, row: int, k: nat)
    requires Square(g) && InRange(|g|, row)
    ensures Repeat(g, Move(Left, row), k) == g[row := RotateLeftTimes(g[row], k)]
  {
    assert g[row := g[row]] == g;
    var i := 0;
    while i < k
      invariant i <= k
      invariant Repeat(g, Move(Left, row), i) == g[row := RotateLeftTimes(g[row], i)]
    {
      RepeatStep(g, Move(Left, row), i + 1);
      RowLeftStep(g, row, Repeat(g, Move(Left, row), i), RotateLeftTimes(g[row], i), RotateLeftTimes(g[row], i + 1));
      i := i + 1;
    }
  }

  lemma {:induction false} RepeatOutOfRange<T>(g: Grid<T>, m: Move, k: nat)
    requires Square(g) && !InRange(|g|, m.index)
    ensures Repeat(g, m, k) == g
  {
    if k > 0 {
      RepeatOutOfRange(g, m, k - 1);
    }
  }

  /** Each rotation is a cycle of length n: making it n times restores the board. */
  lemma RepeatSizeIsIdentity<T>(g: Grid<T>, m: Move)
    requires Square(g)
    ensures Repeat(g, m, |g|) == g
  {
    var n := |g|;
    if !InRange(n, m.index) {
      RepeatOutOfRange(g, m, n);
    } else {
      var i := m.index;
      assert m == Move(m.dir, i);
      match m.dir
      case Down =>
        RepeatDownColumn(g, i, n);
        RotateRightTimesFull(Column(g, i));
        WithOwnColumn(g, i);
      case Up =>
        RepeatUpColumn(g, i, n);
        RotateLeftTimesFull(Column(g, i));
        WithOwnColumn(g, i);
      case Right =>
        RepeatRightRow(g, i, n);
        RotateRightTimesFull(g[i]);
      case Left =>
        RepeatLeftRow(g, i, n);
        RotateLeftTimesFull(g[i]);
    }
  }

  /** Two grids with the same shape and the same cells are equal. */
  lemma GridEquality<T>(a: Grid<T>, b: Grid<T>)
    requires |a| == |b| && forall r :: 0 <= r < |a| ==> |a[r]| == |b[r]|
    requires forall r, c :: 0 <= r < |a| && 0 <= c < |a[r]| ==> a[r][c] == b[r][c]
    ensures a == b
  {
    forall r | 0 <= r < |a| ensures a[r] == b[r] {
    }
  }

  // ---------------------------------------------------------------------------
  // Rotations permute cells: the multiset of all cells never changes

  lemma {:induction false} FlattenAppend<T>(a: Grid<T>, b: Grid<T>)
    ensures Flatten(a + b) == Flatten(a) + Flatten(b)
    decreases |b|
  {
    if b == [] {
      assert a + b == a;
    } else {
      var b' := b[..|b| - 1];
      assert (a + b)[..|a + b| - 1] == a + b';
      FlattenAppend(a, b');
    }
  }

  lemma FlattenSingle<T>(row: seq<T>)
    ensures Flatten([row]) == row
  {
    assert [row][..0] == [];
  }

  /** Replacing one row by a row with the same cells keeps the cells of the board. */
  lemma RowReplaced<T>(g: Grid<T>, r: nat, row: seq<T>)
    requires r < |g| && multiset(row) == multiset(g[r])
    ensures multiset(Flatten(g[r := row])) == multiset(Flatten(g))
  {
    var pre, post := g[..r], g[r + 1..];
    assert g == pre + [g[r]] + post;
    assert g[r := row] == pre + [row] + post;
    FlattenAppend(pre + [g[r]], post);
    FlattenAppend(pre, [g[r]]);
    FlattenAppend(pre + [row], post);
    FlattenAppend(pre, [row]);
    FlattenSingle(g[r]);
    FlattenSingle(row);
  }

  /** Each row without its cell in column `c`. */
  function DropColumn<T>(g: Grid<T>, c: nat): Grid<T>
    requires forall r :: 0 <= r < |g| ==> c < |g[r]|
  {
    seq(|g|, r requires 0 <= r < |g| => g[r][..c] + g[r][c + 1..])
  }

  /** A row's cells are the one in column c and the others. */
  lemma RowSplit<T>(row: seq<T>, c: nat)
    requires c < |row|
    ensures multiset(row) == multiset{row[c]} + multiset(row[..c] + row[c + 1..])
  {
    assert row == row[..c] + [row[c]] + row[c + 1..];
  }

  /** The cells of a board are those of one column plus those of all other columns. */
  lemma {:induction false} ColumnSplit<T>(g: Grid<T>, c: nat)
    requires forall r :: 0 <= r < |g| ==> c < |g[r]|
    ensures multiset(Flatten(g)) == multiset(Column(g, c)) + multiset(Flatten(DropColumn(g, c)))
    decreases |g|
  {
    if g != [] {
      var m := |g| - 1;
      var g', last := g[..m], g[m];
      var col', rest', others := Column(g', c), Flatten(DropColumn(g', c)), last[..c] + last[c + 1..];
      assert Column(g, c) == col' + [last[c]];
      assert DropColumn(g, c)[..m] == DropColumn(g', c);
      assert Flatten(DropColumn(g, c)) == rest' + others;
      calc {
        multiset(Flatten(g));
        multiset(Flatten(g')) + multiset(last);
        { ColumnSplit(g', c); RowSplit(last, c); }
        (multiset(col') + multiset(rest')) + (multiset{last[c]} + multiset(others));
        (multiset(col') + multiset{last[c]}) + (multiset(rest') + multiset(others));
        multiset(col' + [last[c]]) + multiset(rest' + others);
      }
    }
  }

  lemma DropColumnOfWith<T>(g: Grid<T>, c: nat, col: seq<T>)
    requires forall r :: 0 <= r < |g| ==> c < |g[r]|
    requires |col| == |g|
    ensures DropColumn(WithColumn(g, c, col), c) == DropColumn(g, c)
  {
    var h := WithColumn(g, c, col);
    forall r | 0 <= r < |g| ensures DropColumn(h, c)[r] == DropColumn(g, c)[r] {
      assert h[r][..c] == g[r][..c];
      assert h[r][c + 1..] == g[r][c + 1..];
    }
  }

  /** Replacing a column by a rearrangement of its cells keeps the cells of the board. */
  lemma ColumnReplaced<T>(g: Grid<T>, c: nat, col: seq<T>)
    requires forall r :: 0 <= r < |g| ==> c < |g[r]|
    requires |col| == |g| && multiset(col) == multiset(Column(g, c))
    ensures multiset(Flatten(WithColumn(g, c, col))) == multiset(Flatten(g))
  {
    ColumnSplit(g, c);
    ColumnSplit(WithColumn(g, c, col), c);
    ColumnOfWith(g, c, col);
    DropColumnOfWith(g, c, col);
  }

  lemma {:induction false} ApplyPermutes<T>(g: Grid<T>, m: Move)
    requires Square(g)
    ensures multiset(Flatten(Apply(g, m))) == multiset(Flatten(g))
  {
    var i := m.index;
    if InRange(|g|, i) {
      match m.dir
      case Down =>
        RotatePermutes(Column(g, i));
        ColumnReplaced(g, i, RotateRight(Column(g, i)));
      case Up =>
        RotatePermutes(Column(g, i));
        ColumnReplaced(g, i, RotateLeft(Column(g, i)));
      case Right =>
        RotatePermutes(g[i]);
        RowReplaced(g, i, RotateRight(g[i]));
      case Left =>
        RotatePermutes(g[i]);
        RowReplaced(g, i, RotateLeft(g[i]));
    }
  }

  /** However the moves were drawn, a scrambled board holds exactly the cells it started with. */
  lemma {:induction false} ScramblePermutes<T>(g: Grid<T>, ms: seq<Move>)
    requires Square(g)
    ensures multiset(Flatten(Scramble(g, ms))) == multiset(Flatten(g))
    decreases |ms|
  {
    if ms != [] {
      ScramblePermutes(g, ms[..|ms| - 1]);
      ApplyPermutes(Scramble(g, ms[..|ms| - 1]), ms[|ms| - 1]);
    }
  }
}
