/** Keeping only the corners of a traced boundary (traceRing in internal/site/geom.go). */
module Corners {
  import opened Grid
  import opened Boundary
  import opened Shoelace

  function Prior(v: seq<Pt>, i: int): Pt
    requires 0 <= i < |v|
  {
    if i > 0 then v[i - 1] else v[|v| - 1]
  }

  predicate IsCorner(v: seq<Pt>, i: int)
    requires 0 <= i < |v|
  {
    Cross(Prior(v, i), v[i], After(v, i)) != 0
  }

  ghost function CornersUpto(v: seq<Pt>, n: int): seq<Pt>
    requires 0 <= n <= |v|
  {
    if n == 0 then [] else CornersUpto(v, n - 1) + (if IsCorner(v, n - 1) then [v[n - 1]] else [])
  }

  /** The vertices where the boundary turns, in walking order. */
  ghost function CornersOf(v: seq<Pt>): seq<Pt> { CornersUpto(v, |v|) }

  method KeepCorners(v: seq<Pt>) returns (ring: seq<Pt>)
    ensures ring == CornersOf(v)
  {
    var n := |v|;
    ring := [];
    for k := 0 to n
      invariant ring == CornersUpto(v, k)
    {
      if Cross(v[Wrap(k + n - 1, n)], v[k], v[Wrap(k + 1, n)]) != 0 {
        ring := ring + [v[k]];
      }
    }
  }

  function Ahead(p: Pt, t: int, d: Pt): Pt { Pt(p.x + t * d.x, p.y + t * d.y) }

  function Minus(p: Pt, q: Pt): Pt { Pt(p.x - q.x, p.y - q.y) }

  lemma DetLine(p: Pt, t: int, d: Pt)
    ensures Det(p, Ahead(p, t + 1, d)) == Det(p, Ahead(p, t, d)) + Det(Ahead(p, t, d), Ahead(p, t + 1, d))
  {
    var a, b := p.x, p.y;
    var u, w := t * d.x, t * d.y;
    assert (t + 1) * d.x == u + d.x && (t + 1) * d.y == w + d.y;
    assert u * d.y == w * d.x by { assert t * d.x * d.y == t * d.y * d.x; }
    assert a * (b + w + d.y) - (a + u + d.x) * b
        == (a * (b + w) - (a + u) * b) + ((a + u) * (b + w + d.y) - (a + u + d.x) * (b + w)) by {
      assert (a + u) * (b + w + d.y) - (a + u + d.x) * (b + w) == (a + u) * d.y - d.x * (b + w);
      assert (a + u) * d.y == a * d.y + u * d.y;
      assert d.x * (b + w) == d.x * b + d.x * w;
    }
  }

  lemma AheadOne(p: Pt, t: int, d: Pt)
    ensures Ahead(p, 0, d) == p && Ahead(p, t + 1, d) == Pt(Ahead(p, t, d).x + d.x, Ahead(p, t, d).y + d.y)
  {
  }

  /** Where the boundary does not turn it runs straight on: it never folds back on itself. */
  lemma StraightOn(k: Region, v: seq<Pt>, i: int)
    requires Rounds(k, v) && 0 < i < |v| && !IsCorner(v, i)
    ensures Minus(After(v, i), v[i]) == Minus(v[i], v[i - 1])
  {
    var p, q, r := v[i - 1], v[i], After(v, i);
    ArcPair(k, v, i);
    Collinear(p, q, r);
  }

  lemma ArcPair(k: Region, v: seq<Pt>, i: int)
    requires Rounds(k, v) && 0 < i < |v|
    ensures Unit(v[i - 1], v[i]) && Unit(v[i], After(v, i)) && After(v, i) != v[i - 1]
  {
    hide Bounds, SideOf, Distinct;
    assert Arc(k, v[i - 1], After(v, i - 1)) && Arc(k, v[i], After(v, i));
    NotBothWays(k, v[i - 1], v[i]);
  }

  lemma Collinear(p: Pt, q: Pt, r: Pt)
    requires Unit(p, q) && Unit(q, r) && r != p && Cross(p, q, r) == 0
    ensures Minus(r, q) == Minus(q, p)
  {
    var dx, dy, ex, ey := q.x - p.x, q.y - p.y, r.x - q.x, r.y - q.y;
    if dx == 0 {
      assert Cross(p, q, r) == -dy * ex;
    } else {
      assert Cross(p, q, r) == dx * ey;
    }
  }

  /** The ring so far, closed by the straight piece from its last corner, sums to the walk so far. */
  ghost predicate OnTrack(v: seq<Pt>, n: int, t: int)
    requires 0 < n <= |v|
  {
    var r := CornersUpto(v, n);
    r != [] && r[0] == v[0]
    && v[n - 1] == Ahead(r[|r| - 1], t, Minus(After(v, n - 1), v[n - 1]))
    && Along(v[..n]) == Along(r) + Det(r[|r| - 1], v[n - 1])
  }

  lemma AlongNext(v: seq<Pt>, n: int)
    requires 0 < n < |v|
    ensures Along(v[..n + 1]) == Along(v[..n]) + Det(v[n - 1], v[n])
  {
    hide Det;
    assert v[..n + 1] == v[..n] + [v[n]];
    AlongSnoc(v[..n], v[n]);
  }

  lemma {:induction false} KeepsTrack(k: Region, v: seq<Pt>, n: int) returns (t: int)
    requires Rounds(k, v) && 0 < n <= |v| && IsCorner(v, 0)
    ensures OnTrack(v, n, t)
  {
    hide Rounds, Det, Along, IsCorner, Ahead, Minus;
    if n == 1 {
      t := 0;
      FirstTrack(v);
    } else {
      var t0 := KeepsTrack(k, v, n - 1);
      t := TrackOn(k, v, n, t0);
    }
  }

  lemma FirstTrack(v: seq<Pt>)
    requires v != [] && IsCorner(v, 0)
    ensures OnTrack(v, 1, 0)
  {
    assert CornersUpto(v, 1) == CornersUpto(v, 0) + [v[0]];
    AheadOne(v[0], 0, Minus(After(v, 0), v[0]));
  }

  lemma TrackOn(k: Region, v: seq<Pt>, n: int, t0: int) returns (t: int)
    requires Rounds(k, v) && 1 < n <= |v| && OnTrack(v, n - 1, t0)
    ensures OnTrack(v, n, t)
  {
    hide Along, Rounds, IsCorner, Det, Ahead;
    var r := CornersUpto(v, n - 1);
    var last, q := r[|r| - 1], v[n - 1];
    LineOn(last, v[n - 2], q, t0);
    AlongNext(v, n - 1);
    if IsCorner(v, n - 1) {
      t := 0;
      assert CornersUpto(v, n) == r + [q];
      AlongSnoc(r, q);
      DetSelf(q);
      AheadOne(q, 0, Minus(After(v, n - 1), q));
    } else {
      t := t0 + 1;
      assert CornersUpto(v, n) == r;
      StraightOn(k, v, n - 1);
    }
  }

  lemma LineOn(last: Pt, p: Pt, q: Pt, t: int)
    requires p == Ahead(last, t, Minus(q, p))
    ensures q == Ahead(last, t + 1, Minus(q, p)) && Det(last, q) == Det(last, p) + Det(p, q)
  {
    AheadOne(last, t, Minus(q, p));
    DetLine(last, t, Minus(q, p));
  }

  lemma DetSelf(p: Pt)
    ensures Det(p, p) == 0
  {
  }

  /** Dropping the vertices where the boundary runs straight keeps the area. */
  lemma CornersArea(k: Region, v: seq<Pt>)
    requires Rounds(k, v) && v != [] && IsCorner(v, 0)
    ensures CornersOf(v) != [] && CornersOf(v)[0] == v[0] && Twice(CornersOf(v)) == Twice(v)
  {
    var n := |v|;
    var t := KeepsTrack(k, v, n);
    var r := CornersOf(v);
    assert v[..n] == v;
    LineOn(r[|r| - 1], v[n - 1], After(v, n - 1), t);
    hide Along, Det, Ahead, IsCorner, Rounds;
  }

  /** The raster-first boundary vertex is a corner. */
  lemma FirstIsCorner(k: Region, v: seq<Pt>)
    requires Rounds(k, v) && v != [] && forall i :: 0 < i < |v| ==> VertexLess(v[0], v[i])
    ensures IsCorner(v, 0)
  {
    var n := |v|;
    FirstArcs(k, v);
    Turns(v[n - 1], v[0], v[1]);
  }

  lemma FirstArcs(k: Region, v: seq<Pt>)
    requires Rounds(k, v) && v != []
    ensures |v| > 1 && Unit(v[0], v[1]) && Unit(v[|v| - 1], v[0]) && v[1] != v[|v| - 1]
  {
    hide Bounds, SideOf, Distinct;
    assert Arc(k, v[0], After(v, 0)) && Arc(k, v[|v| - 1], After(v, |v| - 1));
    NotBothWays(k, v[0], v[1]);
  }

  lemma Turns(p: Pt, q: Pt, r: Pt)
    requires Unit(p, q) && Unit(q, r) && p != r && VertexLess(q, p) && VertexLess(q, r)
    ensures Cross(p, q, r) != 0
  {
    assert p == Pt(q.x + 1, q.y) || p == Pt(q.x, q.y + 1);
    assert r == Pt(q.x + 1, q.y) || r == Pt(q.x, q.y + 1);
  }
}
