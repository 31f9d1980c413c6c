/** The opening position worked through: from the start layout the first
    player, X, has exactly four moves, listed in the scan's x-major order. */
module Opening {
  import opened Geometry
  import opened Grids
  import opened Moves

  /** X's moves from the start layout, in the order the move list gives them. */
  const XOpenings: seq<Pos> := [Pos(2, 4), Pos(3, 5), Pos(4, 2), Pos(5, 3)]

  /** The tail of a strictly increasing list is the list without its head. */
  lemma IncreasingTail(a: seq<Pos>)
    requires IncreasingIndex(a) && a != []
    ensures forall r :: r in a[1..] <==> r in a && r != a[0]
  {
    forall r
      ensures r in a[1..] <==> r in a && r != a[0]
    {
      if r in a[1..] {
        var t :| 0 <= t < |a| - 1 && a[1..][t] == r;
        assert a[t + 1] == r && Index(a[0]) < Index(a[t + 1]);
      }
      if r in a && r != a[0] {
        var t :| 0 <= t < |a| && a[t] == r;
        assert a[1..][t - 1] == r;
      }
    }
  }

  /** Lists with the same members are empty together. */
  lemma EmptyTogether(a: seq<Pos>, b: seq<Pos>)
    requires forall q :: q in a <==> q in b
    ensures a == [] <==> b == []
  {
    if a != [] {
      assert a[0] in b;
    }
    if b != [] {
      assert b[0] in a;
    }
  }

  /** Two lists in strictly increasing x-major order with the same members are
      the same list. */
  lemma {:induction false} IncreasingUnique(a: seq<Pos>, b: seq<Pos>)
    requires IncreasingIndex(a) && IncreasingIndex(b)
    requires forall q :: q in a <==> q in b
    ensures a == b
    decreases |a| + |b|
  {
    EmptyTogether(a, b);
    if a != [] {
      assert a[0] in b && b[0] in a;
      var j :| 0 <= j < |a| && a[j] == b[0];
      var k :| 0 <= k < |b| && b[k] == a[0];
      assert Index(a[0]) <= Index(a[j]) && Index(b[0]) <= Index(b[k]);
      assert a[0] == b[0];
      IncreasingTail(a);
      IncreasingTail(b);
      assert IncreasingIndex(a[1..]) && IncreasingIndex(b[1..]);
      IncreasingUnique(a[1..], b[1..]);
      assert a == [a[0]] + a[1..] && b == [b[0]] + b[1..];
    }
  }

  /** Where the start layout holds each colour. */
  lemma StartPieces(q: Pos)
    ensures Get(StartGrid(), q) == O <==> q == Pos(3, 4) || q == Pos(4, 3)
    ensures Get(StartGrid(), q) == X <==> q == Pos(3, 3) || q == Pos(4, 4)
  {
  }

  /** On the start layout the only line X can bracket is a single O piece, and
      the cells it is bracketed from are the four openings. */
  lemma StartBracketed(p: Pos, d: Vec, m: int)
    requires OnBoard(p) && IsDirection(d) && Bracketed(StartGrid(), X, p, d, m)
    ensures m == 2 && p in XOpenings
  {
    BracketedStart(StartGrid(), X, p, d, m);
    RayNext(p, d, 0);
    RayNext(p, d, 1);
    RayNext(p, d, 2);
    StartPieces(Ray(p, d, 1));
    StartPieces(Ray(p, d, 2));
    StartPieces(Ray(p, d, 3));
    if m >= 3 {
      assert false;
    }
  }

  /** X at `p` brackets the O piece next to it along `Directions[i]`. */
  lemma OpeningBracket(p: Pos, i: int)
    requires 0 <= i < 8 && IsDirection(Directions[i])
    requires Get(StartGrid(), Ray(p, Directions[i], 1)) == O
    requires Get(StartGrid(), Ray(p, Directions[i], 2)) == X
    ensures exists k :: 0 <= k < 8 && Bracketed(StartGrid(), X, p, Directions[k], 2)
  {
    StartPieces(Ray(p, Directions[i], 1));
    StartPieces(Ray(p, Directions[i], 2));
    BracketOfOne(StartGrid(), X, p, Directions[i]);
  }

  /** Each opening is blank and brackets an O piece along one of the scan
      directions. */
  lemma OpeningBrackets(p: Pos)
    requires p in XOpenings
    ensures OnBoard(p) && Get(StartGrid(), p) == Empty
    ensures exists i :: 0 <= i < 8 && Bracketed(StartGrid(), X, p, Directions[i], 2)
  {
    StartPieces(p);
    StartPieces(Pos(3, 4));
    StartPieces(Pos(4, 3));
    StartPieces(Pos(3, 3));
    StartPieces(Pos(4, 4));
    if p == Pos(2, 4) {
      OpeningBracket(p, 2);
    } else if p == Pos(3, 5) {
      OpeningBracket(p, 4);
    } else if p == Pos(4, 2) {
      OpeningBracket(p, 0);
    } else {
      OpeningBracket(p, 6);
    }
  }

  /** From the start layout X may move exactly to the four openings. */
  lemma StartLegal(p: Pos)
    requires OnBoard(p)
    ensures Evaluate(StartGrid(), X, p).Some? <==> p in XOpenings
  {
    EvaluateSpec(StartGrid(), X, p);
    DirectionsAreUnit();
    if Evaluate(StartGrid(), X, p).Some? {
      var i, m :| 0 <= i < 8 && Bracketed(StartGrid(), X, p, Directions[i], m);
      StartBracketed(p, Directions[i], m);
    }
    if p in XOpenings {
      OpeningBrackets(p);
    }
  }

  /** From the reset board X's move list is [2,4], [3,5], [4,2], [5,3]. */
  lemma StartMovesX(g: Grid)
    requires g == StartGrid()
    ensures LegalMoves(g, X) == XOpenings
  {
    LegalMovesSpec(g, X);
    var ms := LegalMoves(g, X);
    forall q
      ensures q in ms <==> q in XOpenings
    {
      if OnBoard(q) {
        StartLegal(q);
      }
    }
    assert IncreasingIndex(XOpenings);
    IncreasingUnique(ms, XOpenings);
  }
}
