/** What a traced ring looks like, said of the region alone (traceRing in internal/site/geom.go). */
module RingShape {
  import opened Grid
  import opened Boundary
  import opened Shoelace
  import opened Corners

  /** The boundary turns at `p`: one boundary edge into it is vertical and one out of it horizontal, or the other way
      round. */
  ghost predicate TurnsAt(k: Region, p: Pt) { exists a, b :: Turning(k, a, p, b) }

  ghost predicate Turning(k: Region, a: Pt, p: Pt, b: Pt) {
    Arc(k, a, p) && Arc(k, p, b) && (a.x == p.x) != (p.x == b.x)
  }

  /** `n` boundary edges in direction `d` lead from `p` to `q`. */
  ghost predicate StraightBy(k: Region, p: Pt, q: Pt, n: int, d: Pt) {
    n > 0 && q == Ahead(p, n, d) && forall t :: 0 <= t < n ==> Arc(k, Ahead(p, t, d), Ahead(p, t + 1, d))
  }

  ghost predicate StraightEdge(k: Region, p: Pt, q: Pt) { exists n, d :: StraightBy(k, p, q, n, d) }

  /** Horizontal or vertical, and not both. */
  predicate Axial(p: Pt, q: Pt) { (p.x == q.x) != (p.y == q.y) }

  /** Horizontal and vertical edges alternate, so no three consecutive vertices lie on a line. */
  predicate AlternatesAt(r: seq<Pt>, i: int)
    requires 0 <= i < |r|
  {
    Axial(r[i], After(r, i)) && (Prior(r, i).x == r[i].x) != (r[i].x == After(r, i).x)
  }

  /** The ring starts at the raster-first boundary vertex; its vertices are exactly the points where the region's
      boundary turns, each once; straight runs of boundary edges lead from each to the next, region on the left. */
  ghost predicate Outlines(k: Region, r: seq<Pt>) {
    && r != [] && Distinct(r) && (forall p :: p in r <==> TurnsAt(k, p))
    && (forall i :: 0 <= i < |r| ==> StraightEdge(k, r[i], After(r, i)) && AlternatesAt(r, i))
    && (forall i :: 0 < i < |r| ==> VertexLess(r[0], r[i]))
  }

  // ----- where the corners are in the walk ---------------------------------------------------------------------------

  ghost function Indices(v: seq<Pt>, n: int): seq<int>
    requires 0 <= n <= |v|
  {
    if n == 0 then [] else Indices(v, n - 1) + (if IsCorner(v, n - 1) then [n - 1] else [])
  }

  /** The walk's corners among its first `n` vertices, in order. */
  ghost predicate CornersAt(v: seq<Pt>, n: int, r: seq<Pt>, ix: seq<int>) {
    && 0 <= n <= |v| && |r| == |ix|
    && (forall j :: 0 <= j < |ix| ==> 0 <= ix[j] < n && IsCorner(v, ix[j]) && r[j] == v[ix[j]])
    && (forall i, j :: 0 <= i < j < |ix| ==> ix[i] < ix[j])
    && (forall i :: 0 <= i < n && IsCorner(v, i) ==> exists j :: 0 <= j < |ix| && ix[j] == i)
  }

  lemma {:induction false} IndicesMeaning(v: seq<Pt>, n: int)
    requires 0 <= n <= |v|
    ensures CornersAt(v, n, CornersUpto(v, n), Indices(v, n))
  {
    if n > 0 {
      hide CornersAt, IsCorner;
      IndicesMeaning(v, n - 1);
      var r, ix := CornersUpto(v, n - 1), Indices(v, n - 1);
      if IsCorner(v, n - 1) {
        CornerFound(v, n, r, ix);
      } else {
        CornerPassed(v, n, r, ix);
        assert r + [] == r && ix + [] == ix;
      }
    }
  }

  lemma CornerFound(v: seq<Pt>, n: int, r: seq<Pt>, ix: seq<int>)
    requires 0 < n <= |v| && CornersAt(v, n - 1, r, ix) && IsCorner(v, n - 1)
    ensures CornersAt(v, n, r + [v[n - 1]], ix + [n - 1])
  {
    hide IsCorner;
    var all := ix + [n - 1];
    forall i | 0 <= i < n && IsCorner(v, i) ensures exists j :: 0 <= j < |all| && all[j] == i {
      if i < n - 1 {
        var j :| 0 <= j < |ix| && ix[j] == i;
        assert all[j] == i;
      } else {
        assert all[|ix|] == i;
      }
    }
  }

  lemma CornerPassed(v: seq<Pt>, n: int, r: seq<Pt>, ix: seq<int>)
    requires 0 < n <= |v| && CornersAt(v, n - 1, r, ix) && !IsCorner(v, n - 1)
    ensures CornersAt(v, n, r, ix)
  {
    hide IsCorner;
  }

  /** The walk's `i`-th vertex, where the one after the last is the first. */
  function At(v: seq<Pt>, i: int): Pt
    requires 0 <= i <= |v| && v != []
  {
    if i < |v| then v[i] else v[0]
  }

  /** Between corners the walk runs straight on. */
  lemma {:induction false} RunsStraight(k: Region, v: seq<Pt>, a: int, b: int)
    requires Rounds(k, v) && 0 <= a < b <= |v| && forall i :: a < i < b ==> !IsCorner(v, i)
    ensures var d := Minus(After(v, a), v[a]);
            && (forall t :: 0 <= t <= b - a ==> At(v, a + t) == Ahead(v[a], t, d))
            && Minus(At(v, b), v[b - 1]) == d
    decreases b
  {
    hide Rounds, IsCorner;
    var d := Minus(After(v, a), v[a]);
    AheadOne(v[a], b - 1 - a, d);
    AheadOne(v[a], 0, d);
    if b > a + 1 {
      RunsStraight(k, v, a, b - 1);
      StraightOn(k, v, b - 1);
      assert At(v, a + (b - 1 - a)) == v[b - 1];
    }
    hide Ahead;
    forall t | 0 <= t <= b - a ensures At(v, a + t) == Ahead(v[a], t, d) { if t == b - a { assert a + t == b; } }
  }

  /** From one corner to the next, or to the walk's end. */
  lemma CornerToCorner(k: Region, v: seq<Pt>, a: int, b: int)
    requires Rounds(k, v) && 0 <= a < b <= |v| && forall i :: a < i < b ==> !IsCorner(v, i)
    ensures var d := Minus(After(v, a), v[a]);
            && StraightBy(k, v[a], At(v, b), b - a, d) && Axial(v[a], At(v, b))
            && (v[a].x == At(v, b).x <==> v[b - 1].x == At(v, b).x)
               && (v[a].x == At(v, b).x <==> v[a].x == After(v, a).x)
  {
    var d := Minus(After(v, a), v[a]);
    RunsStraight(k, v, a, b);
    forall t | 0 <= t < b - a ensures Arc(k, Ahead(v[a], t, d), Ahead(v[a], t + 1, d)) {
      assert At(v, a + t) == Ahead(v[a], t, d) && At(v, a + (t + 1)) == Ahead(v[a], t + 1, d);
      WalkArc(k, v, a + t);
    }
    WalkArc(k, v, a);
    hide Rounds, IsCorner, Arc;
    AxisOf(v[a], b - a, d);
  }

  lemma WalkArc(k: Region, v: seq<Pt>, i: int)
    requires Rounds(k, v) && 0 <= i < |v|
    ensures Arc(k, v[i], At(v, i + 1)) && Unit(v[i], At(v, i + 1)) && At(v, i + 1) == After(v, i)
  {
    hide Bounds, SideOf;
  }

  lemma AxisOf(p: Pt, n: int, d: Pt)
    requires n > 0 && Unit(p, Pt(p.x + d.x, p.y + d.y))
    ensures var q := Ahead(p, n, d);
            Axial(p, q) && (p.x == q.x <==> d.x == 0)
  {
  }

  // ----- the ring ----------------------------------------------------------------------------------------------------

  /** Where the ring's edge that starts at its `j`-th corner ends in the walk. */
  function Next(v: seq<Pt>, ix: seq<int>, j: int): int
    requires 0 <= j < |ix|
  {
    if j + 1 < |ix| then ix[j + 1] else |v|
  }

  lemma NoneBetween(v: seq<Pt>, r: seq<Pt>, ix: seq<int>, j: int)
    requires CornersAt(v, |v|, r, ix) && 0 <= j < |ix|
    ensures 0 <= ix[j] < Next(v, ix, j) <= |v| && forall i :: ix[j] < i < Next(v, ix, j) ==> !IsCorner(v, i)
  {
    hide IsCorner;
    forall i | ix[j] < i < Next(v, ix, j) ensures !IsCorner(v, i) {
      forall m | 0 <= m < |ix| ensures ix[m] != i {
        if m <= j { assert ix[m] <= ix[j]; } else { assert ix[j + 1] <= ix[m]; }
      }
    }
  }

  lemma FirstAt(v: seq<Pt>, r: seq<Pt>, ix: seq<int>)
    requires CornersAt(v, |v|, r, ix) && v != [] && IsCorner(v, 0)
    ensures ix != [] && ix[0] == 0 && |r| == |ix| && r[0] == v[0]
  {
    hide IsCorner;
    var j :| 0 <= j < |ix| && ix[j] == 0;
  }

  lemma EdgeRuns(k: Region, v: seq<Pt>, r: seq<Pt>, ix: seq<int>, j: int)
    requires Rounds(k, v) && v != [] && IsCorner(v, 0) && CornersAt(v, |v|, r, ix) && 0 <= j < |r|
    ensures 0 <= ix[j] < Next(v, ix, j) <= |v| && At(v, Next(v, ix, j)) == After(r, j)
    ensures StraightEdge(k, r[j], After(r, j)) && Axial(r[j], After(r, j))
    ensures r[j].x == After(r, j).x <==> r[j].x == After(v, ix[j]).x
    ensures r[j].x == After(r, j).x <==> v[Next(v, ix, j) - 1].x == After(r, j).x
  {
    hide Rounds, IsCorner, StraightBy;
    NoneBetween(v, r, ix, j);
    FirstAt(v, r, ix);
    CornerToCorner(k, v, ix[j], Next(v, ix, j));
  }

  /** A corner is a point where the boundary turns. */
  lemma CornerTurns(k: Region, v: seq<Pt>, i: int)
    requires Rounds(k, v) && 0 <= i < |v|
    ensures Arc(k, Prior(v, i), v[i]) && Arc(k, v[i], After(v, i))
    ensures IsCorner(v, i) <==> (Prior(v, i).x == v[i].x) != (v[i].x == After(v, i).x)
  {
    var b := if i > 0 then i - 1 else |v| - 1;
    WalkArc(k, v, i);
    WalkArc(k, v, b);
    hide Arc, Rounds;
    Square(Prior(v, i), v[i], After(v, i));
  }

  lemma Square(p: Pt, q: Pt, r: Pt)
    requires Unit(p, q) && Unit(q, r)
    ensures Cross(p, q, r) != 0 <==> (p.x == q.x) != (q.x == r.x)
  {
    var dx, dy, ex, ey := q.x - p.x, q.y - p.y, r.x - q.x, r.y - q.y;
    assert Cross(p, q, r) == dx * ey - dy * ex by {
      assert Cross(p, q, r) == dx * (dy + ey) - dy * (dx + ex);
    }
  }

  lemma TurnIsCorner(k: Region, v: seq<Pt>, p: Pt) returns (i: int)
    requires Circuit(k, v) && Rounds(k, v) && TurnsAt(k, p)
    ensures 0 <= i < |v| && v[i] == p && IsCorner(v, i)
  {
    hide Arc, IsCorner, Rounds;
    var a, b :| Turning(k, a, p, b);
    var h :| 0 <= h < |v| && v[h] == a && After(v, h) == p;
    i :| 0 <= i < |v| && v[i] == p && After(v, i) == b;
    assert Prior(v, i) == a;
    CornerTurns(k, v, i);
  }

  lemma RingAlternates(k: Region, v: seq<Pt>, r: seq<Pt>, ix: seq<int>, j: int)
    requires Rounds(k, v) && v != [] && IsCorner(v, 0) && CornersAt(v, |v|, r, ix) && 0 <= j < |r|
    ensures AlternatesAt(r, j)
  {
    hide Rounds, IsCorner, StraightEdge;
    FirstAt(v, r, ix);
    var b := if j > 0 then j - 1 else |r| - 1;
    EdgeRuns(k, v, r, ix, j);
    EdgeRuns(k, v, r, ix, b);
    assert v[Next(v, ix, b) - 1] == Prior(v, ix[j]);
    CornerTurns(k, v, ix[j]);
  }

  /** The corners of a circuit outline its region. */
  lemma CornersOutline(k: Region, v: seq<Pt>)
    requires Circuit(k, v) && forall i :: 0 < i < |v| ==> VertexLess(v[0], v[i])
    ensures Outlines(k, CornersOf(v))
  {
    hide *;
    var r, ix := CornersOf(v), Indices(v, |v|);
    CircuitRounds(k, v);
    FirstIsCorner(k, v);
    IndicesMeaning(v, |v|);
    AllCorners(v);
    FirstAt(v, r, ix);
    RingOutlines(k, v, r, ix);
  }

  lemma CircuitRounds(k: Region, v: seq<Pt>)
    requires Circuit(k, v)
    ensures Rounds(k, v) && v != []
  {
    hide Arc;
  }

  lemma AllCorners(v: seq<Pt>)
    ensures CornersOf(v) == CornersUpto(v, |v|)
  {
  }

  lemma RingOutlines(k: Region, v: seq<Pt>, r: seq<Pt>, ix: seq<int>)
    requires Circuit(k, v) && Rounds(k, v) && v != [] && IsCorner(v, 0) && CornersAt(v, |v|, r, ix)
    requires r != [] && r[0] == v[0] && forall i :: 0 < i < |v| ==> VertexLess(v[0], v[i])
    ensures Outlines(k, r)
  {
    hide IsCorner, Rounds, StraightEdge, AlternatesAt, TurnsAt, Circuit, Turning, Distinct, CornersAt;
    forall i | 0 <= i < |r| ensures StraightEdge(k, r[i], After(r, i)) && AlternatesAt(r, i) {
      EdgeRuns(k, v, r, ix, i);
      RingAlternates(k, v, r, ix, i);
    }
    RingDistinct(k, v, r, ix);
    forall p ensures p in r <==> TurnsAt(k, p) { RingMember(k, v, r, ix, p); }
    forall i | 0 < i < |r| ensures VertexLess(r[0], r[i]) { RingLater(v, r, ix, i); }
  }

  lemma RingLater(v: seq<Pt>, r: seq<Pt>, ix: seq<int>, i: int)
    requires v != [] && CornersAt(v, |v|, r, ix) && 0 < i < |r| && r[0] == v[0]
    requires forall i :: 0 < i < |v| ==> VertexLess(v[0], v[i])
    ensures VertexLess(r[0], r[i])
  {
    hide IsCorner, VertexLess;
    assert ix[0] < ix[i];
  }

  lemma RingDistinct(k: Region, v: seq<Pt>, r: seq<Pt>, ix: seq<int>)
    requires Rounds(k, v) && CornersAt(v, |v|, r, ix)
    ensures Distinct(r)
  {
    hide Arc, IsCorner;
    forall a, b | 0 <= a < b < |r| ensures r[a] != r[b] { assert ix[a] < ix[b]; }
  }

  lemma RingMember(k: Region, v: seq<Pt>, r: seq<Pt>, ix: seq<int>, p: Pt)
    requires Circuit(k, v) && Rounds(k, v) && CornersAt(v, |v|, r, ix)
    ensures p in r <==> TurnsAt(k, p)
  {
    hide Arc, IsCorner, Rounds, Circuit;
    if p in r {
      var j :| 0 <= j < |r| && r[j] == p;
      CornerTurns(k, v, ix[j]);
      assert Turning(k, Prior(v, ix[j]), p, After(v, ix[j]));
    }
    if TurnsAt(k, p) {
      var i := TurnIsCorner(k, v, p);
      var j :| 0 <= j < |ix| && ix[j] == i;
      assert r[j] == p;
    }
  }
}
