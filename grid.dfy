/** The board as a value: an 8x8 grid of cells indexed `g[x][y]`, the start
    layout, piece counting, painting cells, and the numeric observation matrix. */
module Grids {
  import opened Geometry

  /** A cell: blank `' '`, a black piece `'X'`, a white piece `'O'`, or the
      display-only legal-move marker `'.'`. */
  datatype Cell = Empty | X | O | Hint

  predicate IsGrid(g: seq<seq<Cell>>)
  {
    |g| == 8 && forall x :: 0 <= x < 8 ==> |g[x]| == 8
  }

  /** Eight columns of eight cells. */
  type Grid = g: seq<seq<Cell>> | IsGrid(g) witness seq(8, _ => seq(8, _ => Empty))

  /** The colour of the opponent of `tile`: 'O' for 'X', and 'X' for anything else. */
  function Other(tile: Cell): (r: Cell)
    ensures r != tile && (r == X || r == O)
  {
    if tile == X then O else X
  }

  /** The cell at `p`; positions off the board read as blank. */
  function Get(g: Grid, p: Pos): Cell
  {
    if OnBoard(p) then g[p.x][p.y] else Empty
  }

  /** The grid with the one cell at `p` overwritten. */
  function Set(g: Grid, p: Pos, c: Cell): (h: Grid)
    requires OnBoard(p)
    ensures forall q :: Get(h, q) == if q == p then c else Get(g, q)
  {
    g[p.x := g[p.x][p.y := c]]
  }

  /** Two grids that agree on every cell are equal. */
  lemma GridExt(g: Grid, h: Grid)
    requires forall q :: OnBoard(q) ==> Get(g, q) == Get(h, q)
    ensures g == h
  {
    forall x | 0 <= x < 8
      ensures g[x] == h[x]
    {
      forall y | 0 <= y < 8
        ensures g[x][y] == h[x][y]
      {
        assert Get(g, Pos(x, y)) == Get(h, Pos(x, y));
      }
    }
  }

  /** The grid of eight blank columns that a new board starts from. */
  function Blank(): (g: Grid)
    ensures forall q :: Get(g, q) == Empty
  {
    seq(8, _ => seq(8, _ => Empty))
  }

  /** The start layout: X on (3,3) and (4,4), O on (3,4) and (4,3). */
  function StartCell(p: Pos): Cell
  {
    if p == Pos(3, 3) || p == Pos(4, 4) then X
    else if p == Pos(3, 4) || p == Pos(4, 3) then O
    else Empty
  }

  function StartGrid(): (g: Grid)
    ensures forall q :: OnBoard(q) ==> Get(g, q) == StartCell(q)
  {
    seq(8, x => seq(8, y => StartCell(Pos(x, y))))
  }

  /** After reset exactly four cells hold a piece. */
  lemma StartLayout()
    ensures forall q :: OnBoard(q) ==>
      (Get(StartGrid(), q) != Empty <==> q in {Pos(3, 3), Pos(3, 4), Pos(4, 3), Pos(4, 4)})
    ensures Get(StartGrid(), Pos(3, 3)) == X && Get(StartGrid(), Pos(4, 4)) == X
    ensures Get(StartGrid(), Pos(3, 4)) == O && Get(StartGrid(), Pos(4, 3)) == O
    ensures Count(StartGrid(), X) == 2 && Count(StartGrid(), O) == 2
    ensures Count(StartGrid(), Empty) == 60 && Count(StartGrid(), Hint) == 0
  {
    var g := StartGrid();
    var b := Blank();
    var h1 := Set(b, Pos(3, 3), X);
    var h2 := Set(h1, Pos(3, 4), O);
    var h3 := Set(h2, Pos(4, 3), O);
    var h4 := Set(h3, Pos(4, 4), X);
    GridExt(g, h4);
    CountAbsent(b, X);
    CountAbsent(b, O);
    CountAbsent(b, Hint);
    CountTotal(b);
    forall c | c in {Empty, X, O, Hint}
      ensures Count(g, c) == Count(b, c)
        + (if c == X then 2 else if c == O then 2 else if c == Empty then -4 else 0)
    {
      CountSet(b, Pos(3, 3), X, c);
      CountSet(h1, Pos(3, 4), O, c);
      CountSet(h2, Pos(4, 3), O, c);
      CountSet(h3, Pos(4, 4), X, c);
    }
  }

  // ---------------------------------------------------------------------------
  // Counting pieces

  /** The number of `c` cells in one column. */
  function CountIn(s: seq<Cell>, c: Cell): nat
  {
    if s == [] then 0 else CountIn(s[..|s| - 1], c) + (if s[|s| - 1] == c then 1 else 0)
  }

  /** The number of `c` cells in a sequence of columns. */
  function CountCols(g: seq<seq<Cell>>, c: Cell): nat
  {
    if g == [] then 0 else CountCols(g[..|g| - 1], c) + CountIn(g[|g| - 1], c)
  }

  /** The number of `c` cells on the board. */
  function Count(g: Grid, c: Cell): nat
  {
    CountCols(g, c)
  }

  lemma {:induction false} CountInAbsent(s: seq<Cell>, c: Cell)
    requires forall i :: 0 <= i < |s| ==> s[i] != c
    ensures CountIn(s, c) == 0
  {
    if s != [] {
      CountInAbsent(s[..|s| - 1], c);
    }
  }

  lemma {:induction false} CountColsAbsent(g: seq<seq<Cell>>, c: Cell)
    requires forall x, y :: 0 <= x < |g| && 0 <= y < |g[x]| ==> g[x][y] != c
    ensures CountCols(g, c) == 0
  {
    if g != [] {
      CountColsAbsent(g[..|g| - 1], c);
      CountInAbsent(g[|g| - 1], c);
    }
  }

  /** A colour that appears nowhere counts zero. */
  lemma CountAbsent(g: Grid, c: Cell)
    requires forall q :: OnBoard(q) ==> Get(g, q) != c
    ensures Count(g, c) == 0
  {
    forall x, y | 0 <= x < 8 && 0 <= y < 8
      ensures g[x][y] != c
    {
      assert Get(g, Pos(x, y)) != c;
    }
    CountColsAbsent(g, c);
  }

  /** The four kinds of cell together fill a column. */
  lemma {:induction false} CountInTotal(s: seq<Cell>)
    ensures CountIn(s, Empty) + CountIn(s, X) + CountIn(s, O) + CountIn(s, Hint) == |s|
  {
    if s != [] {
      CountInTotal(s[..|s| - 1]);
    }
  }

  lemma {:induction false} CountColsTotal(g: seq<seq<Cell>>)
    requires forall x :: 0 <= x < |g| ==> |g[x]| == 8
    ensures CountCols(g, Empty) + CountCols(g, X) + CountCols(g, O) + CountCols(g, Hint) == 8 * |g|
  {
    if g != [] {
      CountColsTotal(g[..|g| - 1]);
      CountInTotal(g[|g| - 1]);
    }
  }

  /** The four kinds of cell fill all 64 cells; in particular X + O <= 64. */
  lemma CountTotal(g: Grid)
    ensures Count(g, Empty) + Count(g, X) + Count(g, O) + Count(g, Hint) == 64
    ensures Count(g, X) + Count(g, O) <= 64
  {
    CountColsTotal(g);
  }

  lemma {:induction false} CountInUpdate(s: seq<Cell>, i: int, v: Cell, c: Cell)
    requires 0 <= i < |s|
    ensures CountIn(s[i := v], c)
      == CountIn(s, c) - (if s[i] == c then 1 else 0) + (if v == c then 1 else 0)
  {
    var n := |s| - 1;
    if i < n {
      assert s[i := v][..n] == s[..n][i := v];
      CountInUpdate(s[..n], i, v, c);
    } else {
      assert s[i := v][..n] == s[..n];
    }
  }

  lemma {:induction false} CountColsUpdate(g: seq<seq<Cell>>, x: int, r: seq<Cell>, c: Cell)
    requires 0 <= x < |g|
    ensures CountCols(g[x := r], c) == CountCols(g, c) - CountIn(g[x], c) + CountIn(r, c)
  {
    var n := |g| - 1;
    if x < n {
      assert g[x := r][..n] == g[..n][x := r];
      CountColsUpdate(g[..n], x, r, c);
    } else {
      assert g[x := r][..n] == g[..n];
    }
  }

  /** Overwriting one cell moves at most one unit between colour counts. */
  lemma CountSet(g: Grid, p: Pos, v: Cell, c: Cell)
    requires OnBoard(p)
    ensures Count(Set(g, p, v), c)
      == Count(g, c) - (if Get(g, p) == c then 1 else 0) + (if v == c then 1 else 0)
  {
    CountInUpdate(g[p.x], p.y, v, c);
    CountColsUpdate(g, p.x, g[p.x][p.y := v], c);
  }

  // ---------------------------------------------------------------------------
  // Painting a list of cells

  predicate AllOnBoard(cells: seq<Pos>)
  {
    forall i :: 0 <= i < |cells| ==> OnBoard(cells[i])
  }

  predicate Distinct(cells: seq<Pos>)
  {
    forall i, j :: 0 <= i < j < |cells| ==> cells[i] != cells[j]
  }

  /** The grid after writing `c` into each listed cell, first to last. */
  function Paint(g: Grid, cells: seq<Pos>, c: Cell): Grid
    requires AllOnBoard(cells)
  {
    if cells == [] then g
    else Set(Paint(g, cells[..|cells| - 1], c), cells[|cells| - 1], c)
  }

  /** Painting changes exactly the listed cells. */
  lemma {:induction false} PaintGet(g: Grid, cells: seq<Pos>, c: Cell, q: Pos)
    requires AllOnBoard(cells)
    ensures Get(Paint(g, cells, c), q) == if q in cells then c else Get(g, q)
  {
    if cells != [] {
      var n := |cells| - 1;
      PaintGet(g, cells[..n], c, q);
      assert cells == cells[..n] + [cells[n]];
      assert q in cells <==> q in cells[..n] || q == cells[n];
    }
  }

  /** Painting `k` distinct cells that all held `d` into `c` moves `k` from
      the count of `d` to the count of `c` and leaves every other count alone. */
  lemma {:induction false} PaintCount(g: Grid, cells: seq<Pos>, c: Cell, d: Cell, e: Cell)
    requires AllOnBoard(cells) && Distinct(cells) && c != d
    requires forall i :: 0 <= i < |cells| ==> Get(g, cells[i]) == d
    ensures Count(Paint(g, cells, c), c) == Count(g, c) + |cells|
    ensures Count(Paint(g, cells, c), d) == Count(g, d) - |cells|
    ensures e != c && e != d ==> Count(Paint(g, cells, c), e) == Count(g, e)
  {
    if cells != [] {
      var n := |cells| - 1;
      var h := Paint(g, cells[..n], c);
      PaintCount(g, cells[..n], c, d, e);
      PaintGet(g, cells[..n], c, cells[n]);
      assert cells[n] !in cells[..n];
      CountSet(h, cells[n], c, c);
      CountSet(h, cells[n], c, d);
      CountSet(h, cells[n], c, e);
    }
  }

  // ---------------------------------------------------------------------------
  // The numeric observation matrix

  predicate IsMatrix(m: seq<seq<int>>)
  {
    |m| == 8 && forall i :: 0 <= i < 8 ==> |m[i]| == 8
  }

  /** An 8x8 integer matrix indexed `m[row][column]`. */
  type Matrix = m: seq<seq<int>> | IsMatrix(m) witness seq(8, _ => seq(8, _ => 0))

  /** X is +1, O is -1, and every other cell is 0. */
  function Encode(c: Cell): int
  {
    if c == X then 1 else if c == O then -1 else 0
  }

  /** +1 is X, -1 is O, anything else is blank. */
  function Decode(v: int): Cell
  {
    if v == 1 then X else if v == -1 then O else Empty
  }

  /** The observation: entry (i, j) encodes the board cell at column j, row i. */
  function ToMatrix(g: Grid): (m: Matrix)
    ensures forall i, j :: 0 <= i < 8 && 0 <= j < 8 ==> m[i][j] == Encode(g[j][i])
  {
    seq(8, i requires 0 <= i < 8 => seq(8, j requires 0 <= j < 8 => Encode(g[j][i])))
  }

  /** The board read back from an observation: cell (x, y) decodes entry (y, x). */
  function FromMatrix(m: Matrix): (g: Grid)
    ensures forall x, y :: 0 <= x < 8 && 0 <= y < 8 ==> g[x][y] == Decode(m[y][x])
  {
    seq(8, x requires 0 <= x < 8 => seq(8, y requires 0 <= y < 8 => Decode(m[y][x])))
  }

  predicate NoHints(g: Grid)
  {
    forall x, y :: 0 <= x < 8 && 0 <= y < 8 ==> g[x][y] != Hint
  }

  predicate IsSignMatrix(m: Matrix)
  {
    forall i, j :: 0 <= i < 8 && 0 <= j < 8 ==> m[i][j] in {-1, 0, 1}
  }

  /** Reading back an observation restores the board, except that hint markers
      come back blank. */
  lemma MatrixRoundTrip(g: Grid)
    ensures forall q :: OnBoard(q) ==>
      Get(FromMatrix(ToMatrix(g)), q) == if Get(g, q) == Hint then Empty else Get(g, q)
    ensures NoHints(g) ==> FromMatrix(ToMatrix(g)) == g
  {
    var h := FromMatrix(ToMatrix(g));
    forall q | OnBoard(q)
      ensures Get(h, q) == if Get(g, q) == Hint then Empty else Get(g, q)
    {
      assert h[q.x][q.y] == Decode(Encode(g[q.x][q.y]));
    }
    if NoHints(g) {
      GridExt(h, g);
    }
  }

  /** Encoding a decoded matrix of signs gives the matrix back. */
  lemma BoardRoundTrip(m: Matrix)
    requires IsSignMatrix(m)
    ensures ToMatrix(FromMatrix(m)) == m
  {
    var n := ToMatrix(FromMatrix(m));
    forall i | 0 <= i < 8
      ensures n[i] == m[i]
    {
      forall j | 0 <= j < 8
        ensures n[i][j] == m[i][j]
      {
        assert n[i][j] == Encode(Decode(m[i][j]));
      }
    }
  }
}
