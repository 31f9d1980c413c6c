/** The mutable board: a class whose one field is the grid `board`, with the
    engine's board operations as methods proved against the value-level rules. */
module BoardState {
  import opened Wrappers
  import opened Geometry
  import opened Grids
  import opened Moves

  /** The two piece counts that `GetScore` returns, keyed by tile. */
  datatype Score = Score(x: nat, o: nat)
  {
    function Of(tile: Cell): nat
      requires tile == X || tile == O
    {
      if tile == X then x else o
    }
  }

  /** One outward step over an opponent's piece at (x, y), k steps out, read
      from `b`, the board with the mover's tile on the start. */
  lemma WalkStep(b: Grid, g: Grid, tile: Cell, other: Cell, p: Pos, d: Vec, k: int, x: int, y: int)
    requires OnBoard(p) && IsDirection(d) && 1 <= k && b == Set(g, p, tile)
    requires LineOf(g, other, p, d, k) && Pos(x, y) == Ray(p, d, k)
    requires IsOnBoard(x, y) && b[x][y] == other
    ensures LineOf(g, other, p, d, k + 1)
    ensures Pos(x + d.dx, y + d.dy) == Ray(p, d, k + 1)
    ensures IsOnBoard(x + d.dx, y + d.dy) ==> Room(Pos(x + d.dx, y + d.dy), d) < Room(Pos(x, y), d)
  {
    RayLeavesStart(p, d, k);
    RayNext(p, d, k);
    assert Get(b, Pos(x, y)) == Get(g, Pos(x, y));
  }

  /** Where the outward walk stops, at (x, y) k steps out, the opponent's run
      has ended. */
  lemma WalkEnd(b: Grid, g: Grid, tile: Cell, other: Cell, p: Pos, d: Vec, k: int, x: int, y: int)
    requires OnBoard(p) && IsDirection(d) && 1 <= k && b == Set(g, p, tile)
    requires LineOf(g, other, p, d, k) && Pos(x, y) == Ray(p, d, k)
    requires IsOnBoard(x, y) ==> b[x][y] != other
    ensures RunLength(g, other, p, d) == k - 1
  {
    if IsOnBoard(x, y) {
      RayLeavesStart(p, d, k);
      assert Get(b, Pos(x, y)) == Get(g, Pos(x, y));
    }
    RunLengthExact(g, other, p, d, k);
  }

  /** The walk past the opponent's piece next to the start begins two steps out. */
  lemma WalkOutStart(g: Grid, other: Cell, p: Pos, d: Vec)
    requires IsDirection(d)
    requires OnBoard(Ray(p, d, 1)) && Get(g, Ray(p, d, 1)) == other
    ensures LineOf(g, other, p, d, 2)
    ensures Pos(p.x + 2 * d.dx, p.y + 2 * d.dy) == Ray(p, d, 2)
  {
    RayNext(p, d, 0);
    RayNext(p, d, 1);
    LineOfFirst(g, other, p, d);
  }

  /** The first step of a scan direction: the neighbour of the start, and what
      the scan knows when it is not the opponent's. */
  lemma ScanStart(b: Grid, g: Grid, tile: Cell, p: Pos, d: Vec)
    requires OnBoard(p) && IsDirection(d) && b == Set(g, p, tile)
    ensures Pos(p.x + d.dx, p.y + d.dy) == Ray(p, d, 1)
    ensures var x, y := p.x + d.dx, p.y + d.dy;
      IsOnBoard(x, y) && b[x][y] == Other(tile) ==>
        Get(g, Ray(p, d, 1)) == Other(tile) && RunLength(g, Other(tile), p, d) >= 1
    ensures var x, y := p.x + d.dx, p.y + d.dy;
      !(IsOnBoard(x, y) && b[x][y] == Other(tile)) ==> RayFlips(g, tile, p, d) == []
  {
    RayNext(p, d, 0);
    RayLeavesStart(p, d, 1);
    var x, y := p.x + d.dx, p.y + d.dy;
    if IsOnBoard(x, y) {
      assert Get(b, Pos(x, y)) == Get(g, Pos(x, y));
    }
    if !(IsOnBoard(x, y) && b[x][y] == Other(tile)) {
      WalkEnd(b, g, tile, Other(tile), p, d, 1, x, y);
    }
  }

  class Board {
    var board: Grid

    /** A new board: eight blank columns, then the start layout. */
    constructor ()
      ensures board == StartGrid()
    {
      board := Blank();
      new;
      Reset();
    }

    /** Blank every cell, then put down the four starting pieces. */
    method Reset()
      modifies this
      ensures board == StartGrid()
    {
      for x := 0 to 8
        invariant forall q :: OnBoard(q) && q.x < x ==> Get(board, q) == Empty
      {
        for y := 0 to 8
          invariant forall q :: OnBoard(q) && (q.x < x || (q.x == x && q.y < y)) ==> Get(board, q) == Empty
        {
          board := Set(board, Pos(x, y), Empty);
        }
      }
      board := Set(board, Pos(3, 3), X);
      board := Set(board, Pos(3, 4), O);
      board := Set(board, Pos(4, 3), O);
      board := Set(board, Pos(4, 4), X);
      GridExt(board, StartGrid());
    }

    /** Validate `tile` moving to (xStart, yStart): no value when the move is
        illegal, otherwise the cells it would flip.  The tile is put down for the
        scan and taken up again, so the board ends as it began. */
    method IsValidMove(tile: Cell, xStart: int, yStart: int) returns (r: Option<seq<Pos>>)
      requires IsOnBoard(xStart, yStart)
      modifies this
      ensures board == old(board)
      ensures r == Evaluate(old(board), tile, Pos(xStart, yStart))
    {
      var start := Pos(xStart, yStart);
      if board[xStart][yStart] != Empty || !IsOnBoard(xStart, yStart) {
        return None;
      }
      ghost var g := board;
      board := Set(board, start, tile);
      var other := if tile == X then O else X;
      var tilesToFlip: seq<Pos> := [];
      DirectionsAreUnit();
      for i := 0 to 8
        invariant board == Set(g, start, tile)
        invariant tilesToFlip == FlipsUpTo(g, tile, start, i)
      {
        var flips := ScanDirection(tile, other, xStart, yStart, Directions[i], g);
        tilesToFlip := tilesToFlip + flips;
      }
      board := Set(board, start, Empty);
      GridExt(board, g);
      if |tilesToFlip| == 0 {
        return None;
      }
      return Some(tilesToFlip);
    }

    /** One pass of the scan in `IsValidMove`, with the mover's tile already on
        (xStart, yStart): when the neighbour along `d` is the opponent's, walk out
        over the opponent's pieces; when the mover's piece closes the line, walk
        back and note every cell passed. */
    method ScanDirection(tile: Cell, other: Cell, xStart: int, yStart: int, d: Vec, ghost g: Grid)
      returns (flips: seq<Pos>)
      requires IsOnBoard(xStart, yStart) && IsDirection(d) && other == Other(tile)
      requires board == Set(g, Pos(xStart, yStart), tile)
      ensures flips == RayFlips(g, tile, Pos(xStart, yStart), d)
    {
      ScanStart(board, g, tile, Pos(xStart, yStart), d);
      var x, y := xStart + d.dx, yStart + d.dy;
      if !(IsOnBoard(x, y) && board[x][y] == other) {
        return [];
      }
      x, y := WalkOut(other, xStart, yStart, d, g, tile);
      flips := CloseLine(tile, xStart, yStart, d, x, y, g);
    }

    /** The end of `ScanDirection`, at the first cell (x, y) past a run of the
        opponent's pieces: the line is captured when the mover's piece is there. */
    method CloseLine(tile: Cell, xStart: int, yStart: int, d: Vec, x: int, y: int, ghost g: Grid)
      returns (flips: seq<Pos>)
      requires IsOnBoard(xStart, yStart) && IsDirection(d)
      requires board == Set(g, Pos(xStart, yStart), tile)
      requires RunLength(g, Other(tile), Pos(xStart, yStart), d) >= 1
      requires Pos(x, y) == Ray(Pos(xStart, yStart), d, RunLength(g, Other(tile), Pos(xStart, yStart), d) + 1)
      ensures flips == RayFlips(g, tile, Pos(xStart, yStart), d)
    {
      ghost var start := Pos(xStart, yStart);
      ghost var k := RunLength(g, Other(tile), start, d) + 1;
      if !IsOnBoard(x, y) {
        return [];
      }
      RayLeavesStart(start, d, k);
      assert Get(g, Pos(x, y)) == board[x][y];
      if board[x][y] != tile {
        return [];
      }
      flips := WalkBack(xStart, yStart, d, x, y, k);
    }

    /** The outward walk of `ScanDirection`, entered with the opponent's piece
        next to the start: it stops at the first cell past the opponent's run,
        which may be off the board. */
    method WalkOut(other: Cell, xStart: int, yStart: int, d: Vec, ghost g: Grid, ghost tile: Cell)
      returns (x: int, y: int)
      requires IsOnBoard(xStart, yStart) && IsDirection(d)
      requires board == Set(g, Pos(xStart, yStart), tile)
      requires OnBoard(Ray(Pos(xStart, yStart), d, 1)) && Get(g, Ray(Pos(xStart, yStart), d, 1)) == other
      ensures Pos(x, y) == Ray(Pos(xStart, yStart), d, RunLength(g, other, Pos(xStart, yStart), d) + 1)
    {
      ghost var start := Pos(xStart, yStart);
      WalkOutStart(g, other, start, d);
      x, y := xStart + 2 * d.dx, yStart + 2 * d.dy;
      if !IsOnBoard(x, y) {
        WalkEnd(board, g, tile, other, start, d, 2, x, y);
        return;
      }
      ghost var k := 2;
      while board[x][y] == other
        invariant 2 <= k && Pos(x, y) == Ray(start, d, k) && IsOnBoard(x, y)
        invariant LineOf(g, other, start, d, k)
        decreases Room(Pos(x, y), d)
      {
        WalkStep(board, g, tile, other, start, d, k, x, y);
        x, y := x + d.dx, y + d.dy;
        k := k + 1;
        if !IsOnBoard(x, y) {
          WalkEnd(board, g, tile, other, start, d, k, x, y);
          return;
        }
      }
      WalkEnd(board, g, tile, other, start, d, k, x, y);
    }

    /** The return walk of `ScanDirection`, from the cell k steps out along `d`
        back to the start: the cells passed, nearest the closing piece first. */
    method WalkBack(xStart: int, yStart: int, d: Vec, x0: int, y0: int, ghost k: int)
      returns (flips: seq<Pos>)
      requires IsDirection(d) && 1 <= k && Pos(x0, y0) == Ray(Pos(xStart, yStart), d, k)
      ensures flips == seq(k - 1, a => Ray(Pos(xStart, yStart), d, k - 1 - a))
    {
      var start := Pos(xStart, yStart);
      var x, y := x0, y0;
      flips := [];
      ghost var j := k;
      while true
        invariant 1 <= j <= k && Pos(x, y) == Ray(start, d, j)
        invariant flips == seq(k - j, a => Ray(start, d, k - 1 - a))
        decreases j
      {
        RayNext(start, d, j - 1);
        x, y := x - d.dx, y - d.dy;
        j := j - 1;
        if j != 0 {
          RayLeavesStart(start, d, j);
        }
        if x == xStart && y == yStart {
          break;
        }
        flips := flips + [Pos(x, y)];
      }
    }

    /** Every legal move of `tile`, x in the outer loop and y in the inner. */
    method GetValidMoves(tile: Cell) returns (validMoves: seq<Pos>)
      modifies this
      ensures board == old(board)
      ensures validMoves == LegalMoves(board, tile)
    {
      ghost var g := board;
      validMoves := [];
      for x := 0 to 8
        invariant board == g
        invariant validMoves == MovesBefore(g, tile, x)
      {
        for y := 0 to 8
          invariant board == g
          invariant validMoves == MovesBefore(g, tile, x) + ColumnMoves(g, tile, x, y)
        {
          validMoves := ScanCell(tile, x, y, validMoves, g);
        }
      }
      MovesBeforeAll(g, tile, validMoves);
    }

    /** One cell of the scan in `GetValidMoves`: (x, y) is appended when the
        move there is legal. */
    method ScanCell(tile: Cell, x: int, y: int, found: seq<Pos>, ghost g: Grid) returns (validMoves: seq<Pos>)
      requires IsOnBoard(x, y) && board == g
      requires found == MovesBefore(g, tile, x) + ColumnMoves(g, tile, x, y)
      modifies this
      ensures board == g
      ensures validMoves == MovesBefore(g, tile, x) + ColumnMoves(g, tile, x, y + 1)
    {
      var r := IsValidMove(tile, x, y);
      ColumnMovesNext(g, tile, x, y, found, r);
      validMoves := found;
      if r.Some? {
        validMoves := validMoves + [Pos(x, y)];
      }
    }

    /** The number of X and of O pieces; together never more than 64. */
    method GetScore() returns (score: Score)
      ensures score.x == Count(board, X) && score.o == Count(board, O)
      ensures score.x + score.o <= 64
    {
      var xScore, oScore := 0, 0;
      for x := 0 to 8
        invariant xScore == CountCols(board[..x], X) && oScore == CountCols(board[..x], O)
      {
        for y := 0 to 8
          invariant xScore == CountCols(board[..x], X) + CountIn(board[x][..y], X)
          invariant oScore == CountCols(board[..x], O) + CountIn(board[x][..y], O)
        {
          assert board[x][..y + 1][..y] == board[x][..y];
          if board[x][y] == X {
            xScore := xScore + 1;
          } else if board[x][y] == O {
            oScore := oScore + 1;
          }
        }
        assert board[..x + 1][..x] == board[..x];
        assert board[x][..8] == board[x];
      }
      assert board[..8] == board;
      CountTotal(board);
      score := Score(xScore, oScore);
    }

    /** Play `tile` at (xStart, yStart): an illegal move returns false and changes
        nothing; a legal one puts down the tile, flips the captured cells and
        returns true. */
    method MakeMove(tile: Cell, xStart: int, yStart: int) returns (ok: bool)
      requires IsOnBoard(xStart, yStart)
      modifies this
      ensures ok == Evaluate(old(board), tile, Pos(xStart, yStart)).Some?
      ensures ok ==> board == Play(old(board), tile, Pos(xStart, yStart)).value
      ensures !ok ==> board == old(board)
    {
      var start := Pos(xStart, yStart);
      var tilesToFlip := IsValidMove(tile, xStart, yStart);
      if tilesToFlip.None? {
        return false;
      }
      ghost var g := board;
      EvaluateSpec(g, tile, start);
      var flips := tilesToFlip.value;
      board := Set(board, start, tile);
      for i := 0 to |flips|
        invariant board == Paint(Set(g, start, tile), flips[..i], tile)
      {
        assert flips[..i + 1][..i] == flips[..i];
        board := Set(board, flips[i], tile);
      }
      assert flips[..|flips|] == flips;
      return true;
    }

    /** A fresh board holding the same cells, copied one by one. */
    method Copy() returns (dupe: Board)
      ensures fresh(dupe) && dupe.board == board
    {
      dupe := new Board();
      for x := 0 to 8
        invariant forall q :: OnBoard(q) && q.x < x ==> Get(dupe.board, q) == Get(board, q)
      {
        for y := 0 to 8
          invariant forall q :: OnBoard(q) && (q.x < x || (q.x == x && q.y < y)) ==>
            Get(dupe.board, q) == Get(board, q)
        {
          dupe.board := Set(dupe.board, Pos(x, y), board[x][y]);
        }
      }
      GridExt(dupe.board, board);
    }

    /** A fresh copy with every legal move of `tile` marked by a hint; this
        board is left alone. */
    method CopyWithValidMoves(tile: Cell) returns (dupe: Board)
      ensures fresh(dupe)
      ensures dupe.board == Paint(board, LegalMoves(board, tile), Hint)
    {
      dupe := Copy();
      var moves := dupe.GetValidMoves(tile);
      dupe.MarkHints(moves);
    }

    /** Write a hint into each listed cell, first to last. */
    method MarkHints(moves: seq<Pos>)
      requires AllOnBoard(moves)
      modifies this
      ensures board == Paint(old(board), moves, Hint)
    {
      ghost var g := board;
      for i := 0 to |moves|
        invariant board == Paint(g, moves[..i], Hint)
      {
        assert moves[..i + 1][..i] == moves[..i];
        board := Set(board, moves[i], Hint);
      }
      assert moves[..|moves|] == moves;
    }

    /** The observation matrix: entry (i, j) is +1, -1 or 0 for the cell at
        column j, row i. */
    method ListToArray() returns (state: Matrix)
      ensures state == ToMatrix(board)
    {
      state := seq(8, _ => seq(8, _ => 0));
      for i := 0 to 8
        invariant forall a, b :: 0 <= a < i && 0 <= b < 8 ==> state[a][b] == Encode(board[b][a])
      {
        for j := 0 to 8
          invariant forall a, b :: 0 <= a < i && 0 <= b < 8 ==> state[a][b] == Encode(board[b][a])
          invariant forall b :: 0 <= b < j ==> state[i][b] == Encode(board[b][i])
        {
          if board[j][i] == X {
            state := state[i := state[i][j := 1]];
          } else if board[j][i] == O {
            state := state[i := state[i][j := -1]];
          } else {
            state := state[i := state[i][j := 0]];
          }
        }
      }
      var m := ToMatrix(board);
      forall a | 0 <= a < 8
        ensures state[a] == m[a]
      {
        assert forall b :: 0 <= b < 8 ==> state[a][b] == m[a][b];
      }
    }

    /** Overwrite the board from an observation matrix and return it: +1 gives X,
        -1 gives O, anything else a blank. */
    method ArrayToList(state: Matrix) returns (b: Grid)
      modifies this
      ensures board == FromMatrix(state) && b == board
    {
      for i := 0 to 8
        invariant forall q :: OnBoard(q) && q.y < i ==> Get(board, q) == Decode(state[q.y][q.x])
      {
        for j := 0 to 8
          invariant forall q :: OnBoard(q) && (q.y < i || (q.y == i && q.x < j)) ==>
            Get(board, q) == Decode(state[q.y][q.x])
        {
          if state[i][j] == 1 {
            board := Set(board, Pos(j, i), X);
          } else if state[i][j] == -1 {
            board := Set(board, Pos(j, i), O);
          } else {
            board := Set(board, Pos(j, i), Empty);
          }
        }
      }
      GridExt(board, FromMatrix(state));
      b := board;
    }
  }
}
