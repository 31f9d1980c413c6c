/** Move legality as a value-level specification: the eight-direction ray scan
    that yields the cells a move would flip, the list of legal moves in scan
    order, and the board after a move. */
module Moves {
  import opened Wrappers
  import opened Geometry
  import opened Grids

  // ---------------------------------------------------------------------------
  // One ray

  /** How many consecutive cells holding `c` follow `p` along `v` before the
      ray meets another cell or leaves the board. */
  function RunLength(g: Grid, c: Cell, p: Pos, v: Vec): nat
    requires OnBoard(p) && IsDirection(v)
    decreases Room(p, v)
  {
    var q := Ray(p, v, 1);
    if OnBoard(q) && Get(g, q) == c then 1 + RunLength(g, c, q, v) else 0
  }

  /** The cells at distances 1 .. m-1 along `v` are on the board and hold `c`. */
  ghost predicate LineOf(g: Grid, c: Cell, p: Pos, v: Vec, m: int)
  {
    forall j :: 1 <= j < m ==> OnBoard(Ray(p, v, j)) && Get(g, Ray(p, v, j)) == c
  }

  /** A line seen from one step further out, with the first cell in front. */
  lemma LineOfShift(g: Grid, c: Cell, p: Pos, v: Vec, n: int)
    requires IsDirection(v)
    requires OnBoard(Ray(p, v, 1)) && Get(g, Ray(p, v, 1)) == c
    requires LineOf(g, c, Ray(p, v, 1), v, n)
    ensures LineOf(g, c, p, v, n + 1)
  {
    forall j | 1 <= j < n + 1
      ensures OnBoard(Ray(p, v, j)) && Get(g, Ray(p, v, j)) == c
    {
      RayNext(p, v, j - 1);
    }
  }

  /** A run of one cell. */
  lemma LineOfFirst(g: Grid, c: Cell, p: Pos, v: Vec)
    requires OnBoard(Ray(p, v, 1)) && Get(g, Ray(p, v, 1)) == c
    ensures LineOf(g, c, p, v, 2)
  {
  }

  /** The run really holds `c`, on the board. */
  lemma {:induction false} RunLengthLine(g: Grid, c: Cell, p: Pos, v: Vec)
    requires OnBoard(p) && IsDirection(v)
    ensures LineOf(g, c, p, v, RunLength(g, c, p, v) + 1)
    decreases Room(p, v)
  {
    var q := Ray(p, v, 1);
    if OnBoard(q) && Get(g, q) == c {
      RunLengthLine(g, c, q, v);
      LineOfShift(g, c, p, v, RunLength(g, c, q, v) + 1);
    }
  }

  /** The cell just past the run does not continue it. */
  lemma {:induction false} RunLengthEnd(g: Grid, c: Cell, p: Pos, v: Vec)
    requires OnBoard(p) && IsDirection(v)
    ensures var e := Ray(p, v, RunLength(g, c, p, v) + 1); !(OnBoard(e) && Get(g, e) == c)
    decreases Room(p, v)
  {
    var q := Ray(p, v, 1);
    if OnBoard(q) && Get(g, q) == c {
      RunLengthEnd(g, c, q, v);
      RayNext(p, v, RunLength(g, c, q, v) + 1);
    }
  }

  /** Any prefix that holds `c` and is followed by a cell that does not is the run. */
  lemma RunLengthExact(g: Grid, c: Cell, p: Pos, v: Vec, k: int)
    requires OnBoard(p) && IsDirection(v) && 1 <= k
    requires LineOf(g, c, p, v, k)
    requires !(OnBoard(Ray(p, v, k)) && Get(g, Ray(p, v, k)) == c)
    ensures RunLength(g, c, p, v) == k - 1
  {
    RunLengthLine(g, c, p, v);
    RunLengthEnd(g, c, p, v);
    var n := RunLength(g, c, p, v);
    if n < k - 1 {
      assert false;
    }
  }

  /** Along `v`, the cells at distances 1 .. m-1 hold the opponent's pieces and
      the cell at distance m holds the mover's: the line 1 .. m-1 is captured. */
  ghost predicate Bracketed(g: Grid, tile: Cell, p: Pos, v: Vec, m: int)
  {
    && 2 <= m
    && LineOf(g, Other(tile), p, v, m)
    && OnBoard(Ray(p, v, m)) && Get(g, Ray(p, v, m)) == tile
  }

  /** The first cells of a bracketed line: an opponent's piece next to the
      start, then either the mover's piece or a second opponent's piece. */
  lemma BracketedStart(g: Grid, tile: Cell, p: Pos, v: Vec, m: int)
    requires Bracketed(g, tile, p, v, m)
    ensures OnBoard(Ray(p, v, 1)) && Get(g, Ray(p, v, 1)) == Other(tile)
    ensures m == 2 ==> Get(g, Ray(p, v, 2)) == tile
    ensures m >= 3 ==> Get(g, Ray(p, v, 2)) == Other(tile)
    ensures m >= 3 ==> Get(g, Ray(p, v, 3)) == Other(tile) || Get(g, Ray(p, v, 3)) == tile
  {
    if m == 3 {
      assert Get(g, Ray(p, v, m)) == tile;
    }
  }

  /** An opponent's piece next to the start, closed by the mover's piece just
      beyond it, is a bracketed line. */
  lemma BracketOfOne(g: Grid, tile: Cell, p: Pos, v: Vec)
    requires OnBoard(Ray(p, v, 1)) && Get(g, Ray(p, v, 1)) == Other(tile)
    requires OnBoard(Ray(p, v, 2)) && Get(g, Ray(p, v, 2)) == tile
    ensures Bracketed(g, tile, p, v, 2)
  {
  }

  /** The cells one direction of the scan contributes, farthest first (the scan
      walks back from the closing piece toward the start). */
  function RayFlips(g: Grid, tile: Cell, p: Pos, v: Vec): seq<Pos>
    requires OnBoard(p) && IsDirection(v)
  {
    var n := RunLength(g, Other(tile), p, v);
    var e := Ray(p, v, n + 1);
    if n >= 1 && OnBoard(e) && Get(g, e) == tile then seq(n, i => Ray(p, v, n - i)) else []
  }

  /** One direction flips exactly the opponent's line closed by the mover's piece,
      listed from the far end back toward the start; with no such line it flips nothing. */
  lemma RayFlipsSpec(g: Grid, tile: Cell, p: Pos, v: Vec)
    requires OnBoard(p) && IsDirection(v)
    ensures var f := RayFlips(g, tile, p, v);
      && (f != [] ==> Bracketed(g, tile, p, v, |f| + 1))
      && (forall i :: 0 <= i < |f| ==> f[i] == Ray(p, v, |f| - i))
      && (forall m :: Bracketed(g, tile, p, v, m) ==> |f| == m - 1)
  {
    RayFlipsShape(g, tile, p, v);
    RunLengthEnd(g, Other(tile), p, v);
    forall m | Bracketed(g, tile, p, v, m)
      ensures |RayFlips(g, tile, p, v)| == m - 1
    {
      assert Other(tile) != tile;
      RunLengthExact(g, Other(tile), p, v, m);
    }
  }

  /** A non-empty contribution is a bracketed line, listed farthest first. */
  lemma RayFlipsShape(g: Grid, tile: Cell, p: Pos, v: Vec)
    requires OnBoard(p) && IsDirection(v)
    ensures var f := RayFlips(g, tile, p, v);
      && (f != [] ==> Bracketed(g, tile, p, v, |f| + 1))
      && (forall i :: 0 <= i < |f| ==> f[i] == Ray(p, v, |f| - i))
  {
    RunLengthLine(g, Other(tile), p, v);
  }

  // ---------------------------------------------------------------------------
  // The eight directions

  /** The flips of the first k directions, in scan order. */
  function FlipsUpTo(g: Grid, tile: Cell, p: Pos, k: int): seq<Pos>
    requires OnBoard(p) && 0 <= k <= 8
  {
    DirectionsAreUnit();
    if k == 0 then [] else FlipsUpTo(g, tile, p, k - 1) + RayFlips(g, tile, p, Directions[k - 1])
  }

  /** Every cell the move at `p` would flip, in scan order. */
  function Flips(g: Grid, tile: Cell, p: Pos): seq<Pos>
    requires OnBoard(p)
  {
    FlipsUpTo(g, tile, p, 8)
  }

  /** `q` lies strictly inside a bracketed line along `v`. */
  ghost predicate CapturedOn(g: Grid, tile: Cell, p: Pos, v: Vec, q: Pos)
  {
    exists j, m :: 1 <= j < m && Bracketed(g, tile, p, v, m) && q == Ray(p, v, j)
  }

  /** `q` is captured along one of the first k directions. */
  ghost predicate CapturedWithin(g: Grid, tile: Cell, p: Pos, k: int, q: Pos)
  {
    exists i :: 0 <= i < k && i < 8 && CapturedOn(g, tile, p, Directions[i], q)
  }

  /** `q` is captured by `tile` moving to `p`: it lies on a ray from `p`
      strictly inside a bracketed line. */
  ghost predicate Captured(g: Grid, tile: Cell, p: Pos, q: Pos)
  {
    CapturedWithin(g, tile, p, 8, q)
  }

  /** No direction brackets a line of the opponent's pieces. */
  ghost predicate NoBracket(g: Grid, tile: Cell, p: Pos)
  {
    forall i, m :: 0 <= i < 8 ==> !Bracketed(g, tile, p, Directions[i], m)
  }

  /** `q` is `j >= 1` steps out along `v`. */
  ghost predicate OnRay(p: Pos, v: Vec, q: Pos)
  {
    exists j :: 1 <= j && q == Ray(p, v, j)
  }

  /** `q` is on one of the first k rays from `p`. */
  ghost predicate OnRayWithin(p: Pos, k: int, q: Pos)
  {
    exists i :: 0 <= i < k && i < 8 && OnRay(p, Directions[i], q)
  }

  /** The witness of `CapturedOn`. */
  lemma CapturedOnAt(g: Grid, tile: Cell, p: Pos, v: Vec, q: Pos, j: int, m: int)
    requires 1 <= j < m && Bracketed(g, tile, p, v, m) && q == Ray(p, v, j)
    ensures CapturedOn(g, tile, p, v, q)
  {
  }

  lemma RayFlipsCaptured(g: Grid, tile: Cell, p: Pos, v: Vec, q: Pos)
    requires OnBoard(p) && IsDirection(v) && q in RayFlips(g, tile, p, v)
    ensures CapturedOn(g, tile, p, v, q)
  {
    RayFlipsShape(g, tile, p, v);
    var r := RayFlips(g, tile, p, v);
    var a :| 0 <= a < |r| && r[a] == q;
    CapturedOnAt(g, tile, p, v, q, |r| - a, |r| + 1);
  }

  lemma CapturedInRayFlips(g: Grid, tile: Cell, p: Pos, v: Vec, q: Pos)
    requires OnBoard(p) && IsDirection(v) && CapturedOn(g, tile, p, v, q)
    ensures q in RayFlips(g, tile, p, v)
  {
    RayFlipsSpec(g, tile, p, v);
    var r := RayFlips(g, tile, p, v);
    var j, m :| 1 <= j < m && Bracketed(g, tile, p, v, m) && q == Ray(p, v, j);
    assert |r| == m - 1 && r[m - 1 - j] == q;
  }

  /** One direction contributes exactly the cells captured along it. */
  lemma RayFlipsMembers(g: Grid, tile: Cell, p: Pos, v: Vec)
    requires OnBoard(p) && IsDirection(v)
    ensures forall q :: q in RayFlips(g, tile, p, v) <==> CapturedOn(g, tile, p, v, q)
  {
    forall q
      ensures q in RayFlips(g, tile, p, v) <==> CapturedOn(g, tile, p, v, q)
    {
      if q in RayFlips(g, tile, p, v) {
        RayFlipsCaptured(g, tile, p, v, q);
      }
      if CapturedOn(g, tile, p, v, q) {
        CapturedInRayFlips(g, tile, p, v, q);
      }
    }
  }

  lemma {:induction false} FlipsUpToMembers(g: Grid, tile: Cell, p: Pos, k: int)
    requires OnBoard(p) && 0 <= k <= 8
    ensures forall q :: q in FlipsUpTo(g, tile, p, k) <==> CapturedWithin(g, tile, p, k, q)
  {
    if k > 0 {
      DirectionsAreUnit();
      FlipsUpToMembers(g, tile, p, k - 1);
      var v := Directions[k - 1];
      RayFlipsMembers(g, tile, p, v);
      assert FlipsUpTo(g, tile, p, k) == FlipsUpTo(g, tile, p, k - 1) + RayFlips(g, tile, p, v);
      forall q
        ensures CapturedWithin(g, tile, p, k, q)
           <==> CapturedWithin(g, tile, p, k - 1, q) || CapturedOn(g, tile, p, v, q)
      {
        if CapturedWithin(g, tile, p, k, q) {
          var i :| 0 <= i < k && i < 8 && CapturedOn(g, tile, p, Directions[i], q);
          if i < k - 1 {
            assert CapturedWithin(g, tile, p, k - 1, q);
          }
        }
      }
    }
  }

  /** One direction's cells are distinct and lie on that ray. */
  lemma RayFlipsDistinct(g: Grid, tile: Cell, p: Pos, v: Vec)
    requires OnBoard(p) && IsDirection(v)
    ensures Distinct(RayFlips(g, tile, p, v))
    ensures forall q :: q in RayFlips(g, tile, p, v) ==> OnRay(p, v, q)
  {
    RayFlipsSpec(g, tile, p, v);
    var r := RayFlips(g, tile, p, v);
    forall a, b | 0 <= a < b < |r|
      ensures r[a] != r[b]
    {
      if r[a] == r[b] {
        RayInjective(p, v, v, |r| - a, |r| - b);
      }
    }
    forall q | q in r
      ensures OnRay(p, v, q)
    {
      var a :| 0 <= a < |r| && r[a] == q;
      assert q == Ray(p, v, |r| - a);
    }
  }

  /** Distinct rays from one start share no cell. */
  lemma OnRayExcludes(p: Pos, k: int, q: Pos)
    requires 0 < k <= 8 && OnRayWithin(p, k - 1, q)
    ensures !OnRay(p, Directions[k - 1], q)
  {
    DirectionsAreUnit();
    var i :| 0 <= i < k - 1 && OnRay(p, Directions[i], q);
    var j :| 1 <= j && q == Ray(p, Directions[i], j);
    if OnRay(p, Directions[k - 1], q) {
      var j' :| 1 <= j' && q == Ray(p, Directions[k - 1], j');
      RayInjective(p, Directions[i], Directions[k - 1], j, j');
      DirectionIndexUnique(i, k - 1);
    }
  }

  lemma DistinctAppend(s: seq<Pos>, t: seq<Pos>)
    requires Distinct(s) && Distinct(t)
    requires forall q :: q in s ==> q !in t
    ensures Distinct(s + t)
  {
    var st := s + t;
    forall a, b | 0 <= a < b < |st|
      ensures st[a] != st[b]
    {
      if b < |s| {
        assert st[a] == s[a] && st[b] == s[b];
      } else if a < |s| {
        assert st[a] == s[a] && st[b] == t[b - |s|] && s[a] in s;
      } else {
        assert st[a] == t[a - |s|] && st[b] == t[b - |s|];
      }
    }
  }

  lemma {:induction false} FlipsUpToOnRays(g: Grid, tile: Cell, p: Pos, k: int)
    requires OnBoard(p) && 0 <= k <= 8
    ensures forall q :: q in FlipsUpTo(g, tile, p, k) ==> OnRayWithin(p, k, q)
  {
    if k > 0 {
      DirectionsAreUnit();
      FlipsUpToOnRays(g, tile, p, k - 1);
      var v := Directions[k - 1];
      RayFlipsDistinct(g, tile, p, v);
      var prev := FlipsUpTo(g, tile, p, k - 1);
      forall q | q in FlipsUpTo(g, tile, p, k)
        ensures OnRayWithin(p, k, q)
      {
        if q in prev {
          var i :| 0 <= i < k - 1 && OnRay(p, Directions[i], q);
        } else {
          assert OnRay(p, Directions[k - 1], q);
        }
      }
    }
  }

  lemma {:induction false} FlipsUpToDistinct(g: Grid, tile: Cell, p: Pos, k: int)
    requires OnBoard(p) && 0 <= k <= 8
    ensures Distinct(FlipsUpTo(g, tile, p, k))
  {
    if k > 0 {
      DirectionsAreUnit();
      FlipsUpToDistinct(g, tile, p, k - 1);
      FlipsUpToOnRays(g, tile, p, k - 1);
      var v := Directions[k - 1];
      var prev := FlipsUpTo(g, tile, p, k - 1);
      var r := RayFlips(g, tile, p, v);
      RayFlipsDistinct(g, tile, p, v);
      forall q | q in prev
        ensures q !in r
      {
        OnRayExcludes(p, k, q);
      }
      DistinctAppend(prev, r);
    }
  }

  /** A captured cell is on the board, holds an opponent's piece, and is not the start. */
  lemma CapturedCell(g: Grid, tile: Cell, p: Pos, q: Pos)
    requires OnBoard(p) && Captured(g, tile, p, q)
    ensures OnBoard(q) && Get(g, q) == Other(tile) && q != p
  {
    DirectionsAreUnit();
    var i :| 0 <= i < 8 && CapturedOn(g, tile, p, Directions[i], q);
    var j, m :| 1 <= j < m && Bracketed(g, tile, p, Directions[i], m) && q == Ray(p, Directions[i], j);
    assert LineOf(g, Other(tile), p, Directions[i], m);
    RayLeavesStart(p, Directions[i], j);
  }

  /** Some cell is captured exactly when some direction brackets a line. */
  lemma CapturedIffBracket(g: Grid, tile: Cell, p: Pos)
    requires OnBoard(p)
    ensures (exists q :: Captured(g, tile, p, q)) <==> !NoBracket(g, tile, p)
  {
    if !NoBracket(g, tile, p) {
      var i, m :| 0 <= i < 8 && Bracketed(g, tile, p, Directions[i], m);
      assert CapturedOn(g, tile, p, Directions[i], Ray(p, Directions[i], 1));
      assert Captured(g, tile, p, Ray(p, Directions[i], 1));
    }
    if exists q :: Captured(g, tile, p, q) {
      var q :| Captured(g, tile, p, q);
      var i :| 0 <= i < 8 && CapturedOn(g, tile, p, Directions[i], q);
      var j, m :| 1 <= j < m && Bracketed(g, tile, p, Directions[i], m) && q == Ray(p, Directions[i], j);
    }
  }

  /** Each flipped cell is on the board, holds an opponent's piece, and is not
      the move's own cell. */
  lemma FlipsCells(g: Grid, tile: Cell, p: Pos)
    requires OnBoard(p)
    ensures forall q :: q in Flips(g, tile, p) ==> OnBoard(q) && Get(g, q) == Other(tile) && q != p
  {
    FlipsUpToMembers(g, tile, p, 8);
    forall q | q in Flips(g, tile, p)
      ensures OnBoard(q) && Get(g, q) == Other(tile) && q != p
    {
      CapturedCell(g, tile, p, q);
    }
  }

  /** Nothing flips exactly when no direction brackets a line. */
  lemma FlipsEmpty(g: Grid, tile: Cell, p: Pos)
    requires OnBoard(p)
    ensures Flips(g, tile, p) == [] <==> NoBracket(g, tile, p)
  {
    FlipsUpToMembers(g, tile, p, 8);
    CapturedIffBracket(g, tile, p);
    var f := Flips(g, tile, p);
    if f != [] {
      assert f[0] in f;
    }
  }

  /** The flip list is exactly the set of captured cells, with no repeats; each
      holds an opponent's piece, and none is the move's own cell.  It is empty
      exactly when no direction brackets a line. */
  lemma FlipsSpec(g: Grid, tile: Cell, p: Pos)
    requires OnBoard(p)
    ensures var f := Flips(g, tile, p);
      && (forall q :: q in f <==> Captured(g, tile, p, q))
      && Distinct(f)
      && (forall q :: q in f ==> OnBoard(q) && Get(g, q) == Other(tile) && q != p)
      && (f == [] <==> NoBracket(g, tile, p))
  {
    FlipsUpToMembers(g, tile, p, 8);
    FlipsUpToDistinct(g, tile, p, 8);
    FlipsCells(g, tile, p);
    FlipsEmpty(g, tile, p);
  }

  // ---------------------------------------------------------------------------
  // Legality

  /** The result of validating a move: no value ("False") when the target is not
      blank or nothing would flip, otherwise the flip list. */
  function Evaluate(g: Grid, tile: Cell, p: Pos): Option<seq<Pos>>
    requires OnBoard(p)
  {
    if Get(g, p) != Empty then None
    else
      var f := Flips(g, tile, p);
      if f == [] then None else Some(f)
  }

  /** A move is rejected exactly when its cell is occupied or no direction
      brackets a line; an accepted move lists the captured cells, each once,
      each holding an opponent's piece. */
  lemma EvaluateSpec(g: Grid, tile: Cell, p: Pos)
    requires OnBoard(p)
    ensures Evaluate(g, tile, p) == None <==> Get(g, p) != Empty || NoBracket(g, tile, p)
    ensures Evaluate(g, tile, p).Some? ==>
      var f := Evaluate(g, tile, p).value;
      && f != [] && Distinct(f) && AllOnBoard(f)
      && (forall q :: q in f <==> Captured(g, tile, p, q))
      && (forall q :: q in f ==> Get(g, q) == Other(tile) && q != p)
  {
    FlipsSpec(g, tile, p);
  }

  /** A position with no opponent's piece next to it flips nothing. */
  lemma {:induction false} IsolatedFlipsNothing(g: Grid, tile: Cell, p: Pos)
    requires OnBoard(p)
    requires forall i :: 0 <= i < 8 ==> Get(g, Ray(p, Directions[i], 1)) != Other(tile)
    ensures Flips(g, tile, p) == []
  {
    FlipsSpec(g, tile, p);
    DirectionsAreUnit();
    forall i, m | 0 <= i < 8
      ensures !Bracketed(g, tile, p, Directions[i], m)
    {
    }
  }

  /** The legal moves of `tile` in column x below row y, in row order. */
  function ColumnMoves(g: Grid, tile: Cell, x: int, y: int): (ms: seq<Pos>)
    requires 0 <= x < 8 && 0 <= y <= 8
    ensures AllOnBoard(ms)
  {
    if y == 0 then []
    else ColumnMoves(g, tile, x, y - 1) + (if Evaluate(g, tile, Pos(x, y - 1)).Some? then [Pos(x, y - 1)] else [])
  }

  /** The legal moves of `tile` in the columns before x, column by column. */
  function MovesBefore(g: Grid, tile: Cell, x: int): (ms: seq<Pos>)
    requires 0 <= x <= 8
    ensures AllOnBoard(ms)
  {
    if x == 0 then [] else MovesBefore(g, tile, x - 1) + ColumnMoves(g, tile, x - 1, 8)
  }

  /** One more cell of the column scan, appended to the moves found before it. */
  lemma ColumnMovesNext(g: Grid, tile: Cell, x: int, y: int, found: seq<Pos>, r: Option<seq<Pos>>)
    requires IsOnBoard(x, y) && r == Evaluate(g, tile, Pos(x, y))
    requires found == MovesBefore(g, tile, x) + ColumnMoves(g, tile, x, y)
    ensures found + (if r.Some? then [Pos(x, y)] else [])
      == MovesBefore(g, tile, x) + ColumnMoves(g, tile, x, y + 1)
  {
  }

  /** All legal moves of `tile`, x in the outer order and y in the inner. */
  function LegalMoves(g: Grid, tile: Cell): (ms: seq<Pos>)
    ensures AllOnBoard(ms)
  {
    MovesBefore(g, tile, 8)
  }

  /** A scan that has passed all eight columns has found the legal moves. */
  lemma MovesBeforeAll(g: Grid, tile: Cell, ms: seq<Pos>)
    requires ms == MovesBefore(g, tile, 8)
    ensures ms == LegalMoves(g, tile)
  {
  }

  /** Strictly increasing in the x-major numbering of the cells. */
  predicate IncreasingIndex(ms: seq<Pos>)
  {
    forall a, b :: 0 <= a < b < |ms| ==> Index(ms[a]) < Index(ms[b])
  }

  /** An increasing list repeats no cell. */
  lemma IncreasingDistinct(ms: seq<Pos>)
    requires IncreasingIndex(ms)
    ensures Distinct(ms)
  {
    forall i, j | 0 <= i < j < |ms|
      ensures ms[i] != ms[j]
    {
      assert Index(ms[i]) < Index(ms[j]);
    }
  }

  /** Two increasing lists, every cell of the first numbered below every cell of
      the second, make an increasing list. */
  lemma IncreasingAppend(a: seq<Pos>, b: seq<Pos>, n: int)
    requires IncreasingIndex(a) && IncreasingIndex(b)
    requires forall i :: 0 <= i < |a| ==> Index(a[i]) < n
    requires forall j :: 0 <= j < |b| ==> n <= Index(b[j])
    ensures IncreasingIndex(a + b)
  {
    var c := a + b;
    forall i, j | 0 <= i < j < |c|
      ensures Index(c[i]) < Index(c[j])
    {
      if j < |a| {
        assert c[i] == a[i] && c[j] == a[j];
      } else if i < |a| {
        assert c[i] == a[i] && c[j] == b[j - |a|];
      } else {
        assert c[i] == b[i - |a|] && c[j] == b[j - |a|];
      }
    }
  }

  /** Column x's scan below row y holds exactly the legal cells there. */
  lemma {:induction false} ColumnMovesMembers(g: Grid, tile: Cell, x: int, y: int)
    requires 0 <= x < 8 && 0 <= y <= 8
    ensures forall q :: q in ColumnMoves(g, tile, x, y) <==>
      (OnBoard(q) && q.x == x && q.y < y && Evaluate(g, tile, q).Some?)
  {
    if y > 0 {
      ColumnMovesMembers(g, tile, x, y - 1);
      var p := Pos(x, y - 1);
      var ms := ColumnMoves(g, tile, x, y - 1);
      var e: seq<Pos> := if Evaluate(g, tile, p).Some? then [p] else [];
      assert ColumnMoves(g, tile, x, y) == ms + e;
      forall q
        ensures q in ms + e <==> (OnBoard(q) && q.x == x && q.y < y && Evaluate(g, tile, q).Some?)
      {
        if q != p {
          assert q in e <==> false;
        }
      }
    }
  }

  /** Column x's scan below row y lies in that column, in row order. */
  lemma {:induction false} ColumnMovesOrder(g: Grid, tile: Cell, x: int, y: int)
    requires 0 <= x < 8 && 0 <= y <= 8
    ensures var ms := ColumnMoves(g, tile, x, y);
      && (forall i :: 0 <= i < |ms| ==> ms[i].x == x && ms[i].y < y)
      && IncreasingIndex(ms)
  {
    if y > 0 {
      ColumnMovesOrder(g, tile, x, y - 1);
      var p := Pos(x, y - 1);
      var ms := ColumnMoves(g, tile, x, y - 1);
      var e: seq<Pos> := if Evaluate(g, tile, p).Some? then [p] else [];
      assert ColumnMoves(g, tile, x, y) == ms + e;
      IncreasingAppend(ms, e, 8 * x + y - 1);
    }
  }

  /** The scan of the columns before x holds exactly the legal cells there, in
      x-major order. */
  lemma {:induction false} MovesBeforeSpec(g: Grid, tile: Cell, x: int)
    requires 0 <= x <= 8
    ensures var ms := MovesBefore(g, tile, x);
      && (forall q :: q in ms <==> OnBoard(q) && q.x < x && Evaluate(g, tile, q).Some?)
      && (forall i :: 0 <= i < |ms| ==> ms[i].x < x)
      && IncreasingIndex(ms)
  {
    if x > 0 {
      MovesBeforeSpec(g, tile, x - 1);
      ColumnMovesMembers(g, tile, x - 1, 8);
      ColumnMovesOrder(g, tile, x - 1, 8);
      var ms := MovesBefore(g, tile, x - 1);
      var col := ColumnMoves(g, tile, x - 1, 8);
      IncreasingAppend(ms, col, 8 * (x - 1));
    }
  }

  /** The legal-move list holds exactly the cells where the move is accepted,
      each once, in x-major order. */
  lemma LegalMovesSpec(g: Grid, tile: Cell)
    ensures forall q :: q in LegalMoves(g, tile) <==> OnBoard(q) && Evaluate(g, tile, q).Some?
    ensures IncreasingIndex(LegalMoves(g, tile)) && Distinct(LegalMoves(g, tile))
    ensures AllOnBoard(LegalMoves(g, tile))
  {
    var ms := LegalMoves(g, tile);
    MovesBeforeSpec(g, tile, 8);
    IncreasingDistinct(ms);
  }

  /** The hint board: every legal move of `tile` marked, every other cell as it was. */
  lemma HintsSpec(g: Grid, tile: Cell)
    ensures forall q :: OnBoard(q) ==>
      Get(Paint(g, LegalMoves(g, tile), Hint), q) == if Evaluate(g, tile, q).Some? then Hint else Get(g, q)
  {
    LegalMovesSpec(g, tile);
    forall q | OnBoard(q)
      ensures Get(Paint(g, LegalMoves(g, tile), Hint), q) == if Evaluate(g, tile, q).Some? then Hint else Get(g, q)
    {
      PaintGet(g, LegalMoves(g, tile), Hint, q);
    }
  }

  /** `tile` has a legal move somewhere. */
  ghost predicate HasMove(g: Grid, tile: Cell)
  {
    exists q :: OnBoard(q) && Evaluate(g, tile, q).Some?
  }

  lemma NoMovesSpec(g: Grid, tile: Cell)
    ensures LegalMoves(g, tile) == [] <==> !HasMove(g, tile)
  {
    LegalMovesSpec(g, tile);
    if LegalMoves(g, tile) != [] {
      assert LegalMoves(g, tile)[0] in LegalMoves(g, tile);
    }
  }

  // ---------------------------------------------------------------------------
  // Applying a move

  /** The board after `tile` moves to `p`: the start cell, then each flipped
      cell, takes the mover's colour.  No value for a rejected move. */
  function Play(g: Grid, tile: Cell, p: Pos): Option<Grid>
    requires OnBoard(p)
  {
    match Evaluate(g, tile, p)
    case None => None
    case Some(f) =>
      EvaluateSpec(g, tile, p);
      Some(Paint(Set(g, p, tile), f, tile))
  }

  /** A move changes the placed cell and the flipped cells to the mover's colour
      and no other cell. */
  lemma PlayCells(g: Grid, tile: Cell, p: Pos, q: Pos)
    requires OnBoard(p) && Evaluate(g, tile, p).Some?
    ensures var f := Evaluate(g, tile, p).value;
      Get(Play(g, tile, p).value, q) == if q == p || q in f then tile else Get(g, q)
  {
    EvaluateSpec(g, tile, p);
    var f := Evaluate(g, tile, p).value;
    PaintGet(Set(g, p, tile), f, tile, q);
  }

  /** After a move that flips k pieces the mover has 1 + k more pieces and the
      opponent k fewer. */
  lemma PlayScore(g: Grid, tile: Cell, p: Pos)
    requires OnBoard(p) && Evaluate(g, tile, p).Some?
    requires tile == X || tile == O
    ensures var k := |Evaluate(g, tile, p).value|;
      && Count(Play(g, tile, p).value, tile) == Count(g, tile) + 1 + k
      && Count(Play(g, tile, p).value, Other(tile)) == Count(g, Other(tile)) - k
  {
    EvaluateSpec(g, tile, p);
    var f := Evaluate(g, tile, p).value;
    var h := Set(g, p, tile);
    CountSet(g, p, tile, tile);
    CountSet(g, p, tile, Other(tile));
    assert forall i :: 0 <= i < |f| ==> f[i] in f;
    PaintCount(h, f, tile, Other(tile), Empty);
  }

  /** A rejected move leaves nothing to apply; validation alone never changes the board. */
  lemma PlayRejected(g: Grid, tile: Cell, p: Pos)
    requires OnBoard(p)
    ensures Play(g, tile, p).None? <==> Evaluate(g, tile, p).None?
    ensures Get(g, p) != Empty ==> Play(g, tile, p).None?
  {
  }
}
