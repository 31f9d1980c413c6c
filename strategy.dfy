/** The greedy opponent as a value-level specification: a corner first, and
    otherwise the first move whose one-ply simulation leaves the mover the most
    pieces.  The random shuffle of the candidate moves is an input. */
module Strategy {
  import opened Wrappers
  import opened Geometry
  import opened Grids
  import opened Moves

  // ---------------------------------------------------------------------------
  // The shuffle

  /** `perm` lists each of 0 .. n-1 exactly once: a shuffle of n items. */
  predicate IsShuffle(perm: seq<int>, n: nat)
  {
    multiset(perm) == multiset(seq(n, i => i))
  }

  /** A shuffle of n items has n entries, each an index below n, and uses every
      index below n. */
  lemma ShuffleIndices(perm: seq<int>, n: nat)
    requires IsShuffle(perm, n)
    ensures |perm| == n
    ensures forall i :: 0 <= i < |perm| ==> 0 <= perm[i] < n
    ensures forall k :: 0 <= k < n ==> k in perm
  {
    var r := seq(n, i => i);
    assert |perm| == |multiset(perm)| == |multiset(r)| == n;
    forall i | 0 <= i < |perm|
      ensures 0 <= perm[i] < n
    {
      assert perm[i] in multiset(perm);
      assert perm[i] in multiset(r);
    }
    forall k | 0 <= k < n
      ensures k in perm
    {
      assert r[k] in multiset(r);
    }
  }

  /** `ms` rearranged: entry i of the result is entry `perm[i]` of `ms`. */
  function Shuffled(ms: seq<Pos>, perm: seq<int>): (r: seq<Pos>)
    requires IsShuffle(perm, |ms|)
    ensures |r| == |ms|
    ensures AllOnBoard(ms) ==> AllOnBoard(r)
  {
    ShuffleIndices(perm, |ms|);
    seq(|perm|, i requires 0 <= i < |perm| => ms[perm[i]])
  }

  /** Shuffling keeps exactly the same moves. */
  lemma ShuffledMembers(ms: seq<Pos>, perm: seq<int>)
    requires IsShuffle(perm, |ms|)
    ensures forall q :: q in Shuffled(ms, perm) <==> q in ms
  {
    ShuffleIndices(perm, |ms|);
    var r := Shuffled(ms, perm);
    forall q | q in ms
      ensures q in r
    {
      var k :| 0 <= k < |ms| && ms[k] == q;
      assert k in perm;
      var i :| 0 <= i < |perm| && perm[i] == k;
      assert r[i] == q;
    }
  }

  // ---------------------------------------------------------------------------
  // Corners first

  /** The first corner in `order`, if there is one. */
  function FirstCorner(order: seq<Pos>): (r: Option<Pos>)
    ensures r.None? <==> forall i :: 0 <= i < |order| ==> !IsOnCorner(order[i].x, order[i].y)
    ensures r.Some? ==> exists i :: (0 <= i < |order| && order[i] == r.value
      && IsOnCorner(r.value.x, r.value.y)
      && forall j :: 0 <= j < i ==> !IsOnCorner(order[j].x, order[j].y))
  {
    if |order| == 0 then None
    else if IsOnCorner(order[0].x, order[0].y) then Some(order[0])
    else
      var r := FirstCorner(order[1..]);
      assert forall i :: 1 <= i < |order| ==> order[i] == order[1..][i - 1];
      r
  }

  // ---------------------------------------------------------------------------
  // The greedy choice

  /** The board after `tile` plays `p` on a copy: the move applied when legal,
      the board as it was otherwise. */
  function AfterMove(g: Grid, tile: Cell, p: Pos): (h: Grid)
    requires OnBoard(p)
  {
    match Play(g, tile, p)
    case Some(h) => h
    case None => g
  }

  /** The mover's piece count after the one-ply simulation of `p`. */
  function AfterScore(g: Grid, tile: Cell, p: Pos): nat
    requires OnBoard(p)
  {
    Count(AfterMove(g, tile, p), tile)
  }

  /** The score of each move of `order`, in order. */
  function Scores(g: Grid, tile: Cell, order: seq<Pos>): (s: seq<int>)
    requires AllOnBoard(order)
    ensures |s| == |order| && forall i :: 0 <= i < |order| ==> s[i] == AfterScore(g, tile, order[i])
  {
    seq(|order|, i requires 0 <= i < |order| => AfterScore(g, tile, order[i]))
  }

  /** The running best of the greedy scan: its score and its move. */
  datatype Best = Best(score: int, move: Option<Pos>)

  /** The greedy scan over `moves` with their `scores`, one move after another:
      a move replaces the best so far only when it scores strictly more; the
      scan starts at -1 with no move. */
  function BestOf(moves: seq<Pos>, scores: seq<int>): Best
    requires |moves| == |scores|
  {
    if |moves| == 0 then Best(-1, None)
    else
      var b := BestOf(moves[..|moves| - 1], scores[..|moves| - 1]);
      var s := scores[|moves| - 1];
      if s > b.score then Best(s, Some(moves[|moves| - 1])) else b
  }

  /** The greedy scan over one more move. */
  lemma BestOfNext(moves: seq<Pos>, scores: seq<int>, i: int)
    requires |moves| == |scores| && 0 <= i < |moves|
    ensures var b := BestOf(moves[..i], scores[..i]);
      BestOf(moves[..i + 1], scores[..i + 1])
        == if scores[i] > b.score then Best(scores[i], Some(moves[i])) else b
  {
    assert moves[..i + 1][..i] == moves[..i];
    assert scores[..i + 1][..i] == scores[..i];
  }

  /** Entry i of `scores` is at least every entry, and more than every entry
      before it. */
  ghost predicate FirstMax(scores: seq<int>, i: int)
  {
    && 0 <= i < |scores|
    && (forall j :: 0 <= j < |scores| ==> scores[j] <= scores[i])
    && (forall j :: 0 <= j < i ==> scores[j] < scores[i])
  }

  /** A new last entry that does not beat the first maximum leaves it in place. */
  lemma FirstMaxKeep(scores: seq<int>, i: int)
    requires 1 <= |scores| && FirstMax(scores[..|scores| - 1], i)
    requires scores[|scores| - 1] <= scores[i]
    ensures FirstMax(scores, i)
  {
    var n := |scores|;
    assert forall j :: 0 <= j < n - 1 ==> scores[..n - 1][j] == scores[j];
  }

  /** A new last entry that beats the first maximum becomes it. */
  lemma FirstMaxNew(scores: seq<int>, i: int)
    requires 1 <= |scores| && FirstMax(scores[..|scores| - 1], i)
    requires scores[|scores| - 1] > scores[i]
    ensures FirstMax(scores, |scores| - 1)
  {
    var n := |scores|;
    assert forall j :: 0 <= j < n - 1 ==> scores[..n - 1][j] == scores[j];
  }

  /** Over scores that are never negative, the greedy scan returns no move only
      for an empty list; otherwise it returns the first move of maximal score,
      with that score. */
  lemma {:induction false} BestOfSpec(moves: seq<Pos>, scores: seq<int>)
    requires |moves| == |scores|
    requires forall i :: 0 <= i < |scores| ==> 0 <= scores[i]
    ensures moves == [] ==> BestOf(moves, scores) == Best(-1, None)
    ensures moves != [] ==> exists i :: (FirstMax(scores, i)
      && BestOf(moves, scores) == Best(scores[i], Some(moves[i])))
  {
    if moves != [] {
      var n := |moves|;
      var pm, ps := moves[..n - 1], scores[..n - 1];
      BestOfSpec(pm, ps);
      if pm == [] {
        assert FirstMax(scores, 0);
      } else {
        var i :| FirstMax(ps, i) && BestOf(pm, ps) == Best(ps[i], Some(pm[i]));
        assert ps[i] == scores[i] && pm[i] == moves[i];
        if scores[n - 1] > scores[i] {
          FirstMaxNew(scores, i);
        } else {
          FirstMaxKeep(scores, i);
        }
      }
    }
  }

  /** The computer's move over a given order of its legal moves: the first
      corner if there is one, otherwise the greedy choice. */
  function ComputerChoice(g: Grid, tile: Cell, order: seq<Pos>): Option<Pos>
    requires AllOnBoard(order)
  {
    match FirstCorner(order)
    case Some(c) => Some(c)
    case None => BestOf(order, Scores(g, tile, order)).move
  }

  /** A corner preceded by no corner is the choice. */
  lemma CornerChoice(g: Grid, tile: Cell, order: seq<Pos>, i: int)
    requires AllOnBoard(order) && 0 <= i < |order| && IsOnCorner(order[i].x, order[i].y)
    requires forall j :: 0 <= j < i ==> !IsOnCorner(order[j].x, order[j].y)
    ensures ComputerChoice(g, tile, order) == Some(order[i])
  {
  }

  /** With no corner on offer the choice is the first move of maximal score,
      and there is none only when there is no move. */
  lemma GreedyChoice(g: Grid, tile: Cell, order: seq<Pos>)
    requires AllOnBoard(order)
    requires forall j :: 0 <= j < |order| ==> !IsOnCorner(order[j].x, order[j].y)
    ensures order == [] ==> ComputerChoice(g, tile, order).None?
    ensures order != [] ==> exists i :: (FirstMax(Scores(g, tile, order), i)
      && ComputerChoice(g, tile, order) == Some(order[i]))
  {
    BestOfSpec(order, Scores(g, tile, order));
  }

  /** There is a choice exactly when there is a move to choose from, and it is
      one of them: the first corner in the order when the order holds a corner,
      else the first move of maximal score. */
  lemma ComputerChoiceSpec(g: Grid, tile: Cell, order: seq<Pos>)
    requires AllOnBoard(order)
    ensures ComputerChoice(g, tile, order).None? <==> order == []
    ensures ComputerChoice(g, tile, order).Some? ==> ComputerChoice(g, tile, order).value in order
    ensures FirstCorner(order).Some? ==> ComputerChoice(g, tile, order) == FirstCorner(order)
    ensures FirstCorner(order).None? && order != [] ==>
      exists i :: FirstMax(Scores(g, tile, order), i) && ComputerChoice(g, tile, order) == Some(order[i])
  {
    BestOfSpec(order, Scores(g, tile, order));
  }
}
