/** Boundary tracing in place (traceRing and its use in internal/site/geom.go). */
module Trace {
  import opened Grid
  import opened Components
  import opened Holes
  import opened Boundary
  import opened Jordan
  import opened Circuits
  import opened Shoelace
  import opened Corners
  import opened RingShape

  datatype Link = NoLink | Link(p: Pt)

  datatype Traced = Ring(corners: seq<Pt>) | SaddleVertex | EmptyRegion | NotSingleLoop

  predicate VertexIn(p: Pt, next: array2<Link>) { 0 <= p.x < next.Length0 && 0 <= p.y < next.Length1 }

  /** The array of links holds the map `m`. */
  ghost predicate Holds(next: array2<Link>, m: map<Pt, Pt>)
    reads next
  {
    && (forall p <- m :: VertexIn(p, next))
    && (forall p :: VertexIn(p, next) ==> next[p.x, p.y] == if p in m then Link(m[p]) else NoLink)
  }

  /** `m` keeps one of the recorded sides out of each vertex; `saddle` tells whether it lost any. */
  ghost predicate Recorded(m: map<Pt, Pt>, saddle: bool, edges: int, done: set<Side>) {
    Heads(m, done) && |done| == edges && (saddle <==> Twin(done)) && (!saddle ==> |m| == edges)
  }

  ghost predicate Heads(m: map<Pt, Pt>, done: set<Side>) {
    (forall e <- done :: From(e) in m) && (forall p <- m :: exists e :: e in done && From(e) == p && To(e) == m[p])
  }

  /** Two sides start at one vertex. */
  ghost predicate Twin(done: set<Side>) { exists e, f :: e in done && f in done && e != f && From(e) == From(f) }

  lemma HeadsOn(m: map<Pt, Pt>, done: set<Side>, e: Side)
    requires Heads(m, done)
    ensures Heads(m[From(e) := To(e)], done + {e})
  {
    hide From, To;
    var m', done' := m[From(e) := To(e)], done + {e};
    forall p <- m' ensures exists x :: x in done' && From(x) == p && To(x) == m'[p] {
      if p == From(e) {
        assert e in done';
      } else {
        var x :| x in done && From(x) == p && To(x) == m[p];
        assert x in done';
      }
    }
  }

  lemma TwinOn(m: map<Pt, Pt>, done: set<Side>, e: Side)
    requires Heads(m, done) && e !in done
    ensures Twin(done + {e}) <==> Twin(done) || From(e) in m
  {
    hide From, To;
    var done' := done + {e};
    if From(e) in m {
      var x :| x in done && From(x) == From(e) && To(x) == m[From(e)];
      assert x in done' && e in done' && x != e;
    }
    if Twin(done) {
      var x, y :| x in done && y in done && x != y && From(x) == From(y);
      assert x in done' && y in done';
    }
  }

  lemma RecordSide(m: map<Pt, Pt>, saddle: bool, edges: int, done: set<Side>, e: Side)
    requires Recorded(m, saddle, edges, done) && e !in done
    ensures Recorded(m[From(e) := To(e)], saddle || From(e) in m, edges + 1, done + {e})
  {
    HeadsOn(m, done, e);
    TwinOn(m, done, e);
    hide Heads, Twin, From, To;
    if From(e) !in m { OneMore(m, From(e), To(e)); }
  }

  lemma OneMore<K, V>(m: map<K, V>, k: K, v: V)
    requires k !in m
    ensures |m[k := v]| == |m| + 1
  {
    assert m[k := v].Keys == m.Keys + {k};
    assert |m[k := v]| == |m[k := v].Keys| && |m| == |m.Keys|;
  }

  /** Links `p` to `q`; true if `p` had a link before. */
  method SetLink(next: array2<Link>, p: Pt, q: Pt, ghost m: map<Pt, Pt>) returns (twice: bool)
    requires Holds(next, m) && VertexIn(p, next)
    modifies next
    ensures Holds(next, m[p := q]) && (twice <==> p in m)
  {
    twice := next[p.x, p.y].Link?;
    next[p.x, p.y] := Link(q);
  }

  predicate At(keep: array2<bool>, c: Cell)
    reads keep
  {
    InGrid(c, keep.Length0, keep.Length1) && keep[c.i, c.j]
  }

  /** Sides of the cells raster-before `c`, and of `c` itself those before `d`. */
  ghost predicate DoneTo(k: Region, done: set<Side>, c: Cell, d: int) {
    forall e :: e in done <==> Bounds(k, e) && (RasterLess(e.c, c) || (e.c == c && e.d < d))
  }

  lemma DoneSide(k: Region, done: set<Side>, c: Cell, d: int)
    requires DoneTo(k, done, c, d) && 0 <= d < 4
    ensures Side(c, d) !in done && DoneTo(k, if Bounds(k, Side(c, d)) then done + {Side(c, d)} else done, c, d + 1)
  {
    hide Across;
    var e := Side(c, d);
    var done' := if Bounds(k, e) then done + {e} else done;
    forall x ensures x in done' <==> Bounds(k, x) && (RasterLess(x.c, c) || (x.c == c && x.d < d + 1)) {
      if x.c == c && x.d == d { assert x == e; }
    }
  }

  lemma DoneCell(k: Region, done: set<Side>, c: Cell)
    requires if c in k then DoneTo(k, done, c, 4) else DoneTo(k, done, c, 0)
    ensures DoneTo(k, done, Cell(c.i + 1, c.j), 0)
  {
    hide Across;
    forall x ensures x in done <==>
        Bounds(k, x) && (RasterLess(x.c, Cell(c.i + 1, c.j)) || (x.c == Cell(c.i + 1, c.j) && x.d < 0)) {
      assert RasterLess(x.c, Cell(c.i + 1, c.j)) <==> RasterLess(x.c, c) || x.c == c;
    }
  }

  lemma DoneRow(k: Region, done: set<Side>, w: int, h: int, j: int)
    requires k <= Window(w, h) && DoneTo(k, done, Cell(w, j), 0)
    ensures DoneTo(k, done, Cell(0, j + 1), 0)
  {
    hide Across;
    forall x ensures x in done <==>
        Bounds(k, x) && (RasterLess(x.c, Cell(0, j + 1)) || (x.c == Cell(0, j + 1) && x.d < 0)) {
      WindowCell(w, h, x.c);
    }
  }

  lemma DoneAll(k: Region, done: set<Side>, w: int, h: int)
    requires k <= Window(w, h) && DoneTo(k, done, Cell(0, h), 0)
    ensures done == Sides(k)
  {
    hide Across, Sides;
    forall x ensures x in done <==> x in Sides(k) { SidesMeaning(k, x); WindowCell(w, h, x.c); }
  }

  /** All sides before side `d` of cell `c` are recorded. */
  ghost predicate Progress(keep: array2<bool>, next: array2<Link>, saddle: bool, edges: int, m: map<Pt, Pt>,
                           done: set<Side>, c: Cell, d: int)
    reads keep, next
  {
    && next.Length0 == keep.Length0 + 1 && next.Length1 == keep.Length1 + 1
    && Holds(next, m) && Recorded(m, saddle, edges, done) && DoneTo(Marked(keep), done, c, d)
  }

  /** Records side `d` of a kept cell if it bounds the region. */
  method TrySide(keep: array2<bool>, next: array2<Link>, c: Cell, d: int, saddle: bool, edges: int,
                 ghost m: map<Pt, Pt>, ghost done: set<Side>)
      returns (saddle': bool, edges': int, ghost m': map<Pt, Pt>, ghost done': set<Side>)
    requires Progress(keep, next, saddle, edges, m, done, c, d) && 0 <= d < 4 && At(keep, c)
    modifies next
    ensures Progress(keep, next, saddle', edges', m', done', c, d + 1)
  {
    hide *;
    var e := Side(c, d);
    SideFacts(keep, next, saddle, edges, m, done, e);
    if !At(keep, Across(e)) {
      RecordSide(m, saddle, edges, done, e);
      var twice := SetLink(next, From(e), To(e), m);
      saddle', edges', m', done' := saddle || twice, edges + 1, m[From(e) := To(e)], done + {e};
    } else {
      saddle', edges', m', done' := saddle, edges, m, done;
    }
    MakeProgress(keep, next, saddle', edges', m', done', c, d + 1);
  }

  lemma SideFacts(keep: array2<bool>, next: array2<Link>, saddle: bool, edges: int, m: map<Pt, Pt>, done: set<Side>,
                  e: Side)
    requires Progress(keep, next, saddle, edges, m, done, e.c, e.d) && 0 <= e.d < 4 && At(keep, e.c)
    ensures next.Length0 == keep.Length0 + 1 && next.Length1 == keep.Length1 + 1
    ensures Holds(next, m) && Recorded(m, saddle, edges, done) && VertexIn(From(e), next) && e !in done
    ensures DoneTo(Marked(keep), if At(keep, Across(e)) then done else done + {e}, e.c, e.d + 1)
  {
    MarkedCell(keep, Across(e));
    MarkedCell(keep, e.c);
    DoneSide(Marked(keep), done, e.c, e.d);
    FromIn(e, next, keep);
    hide Marked, Recorded, Holds, DoneTo, From, Across;
  }

  lemma MakeProgress(keep: array2<bool>, next: array2<Link>, saddle: bool, edges: int, m: map<Pt, Pt>, done: set<Side>,
                     c: Cell, d: int)
    requires next.Length0 == keep.Length0 + 1 && next.Length1 == keep.Length1 + 1
    requires Holds(next, m) && Recorded(m, saddle, edges, done) && DoneTo(Marked(keep), done, c, d)
    ensures Progress(keep, next, saddle, edges, m, done, c, d)
  {
  }

  lemma FromIn(e: Side, next: array2<Link>, keep: array2<bool>)
    requires next.Length0 == keep.Length0 + 1 && next.Length1 == keep.Length1 + 1 && At(keep, e.c)
    ensures VertexIn(From(e), next)
  {
  }

  /** Records the four sides of one cell. */
  method RecordCell(keep: array2<bool>, next: array2<Link>, c: Cell, saddle: bool, edges: int, ghost m: map<Pt, Pt>,
                    ghost done: set<Side>)
      returns (saddle': bool, edges': int, ghost m': map<Pt, Pt>, ghost done': set<Side>)
    requires Progress(keep, next, saddle, edges, m, done, c, 0) && InGrid(c, keep.Length0, keep.Length1)
    modifies next
    ensures Progress(keep, next, saddle', edges', m', done', Cell(c.i + 1, c.j), 0)
  {
    MarkedCell(keep, c);
    hide Progress, Marked;
    saddle', edges', m', done' := saddle, edges, m, done;
    if keep[c.i, c.j] {
      saddle', edges', m', done' := TrySide(keep, next, c, 0, saddle', edges', m', done');
      saddle', edges', m', done' := TrySide(keep, next, c, 1, saddle', edges', m', done');
      saddle', edges', m', done' := TrySide(keep, next, c, 2, saddle', edges', m', done');
      saddle', edges', m', done' := TrySide(keep, next, c, 3, saddle', edges', m', done');
    }
    NextCell(keep, next, saddle', edges', m', done', c);
  }

  lemma NextCell(keep: array2<bool>, next: array2<Link>, saddle: bool, edges: int, m: map<Pt, Pt>, done: set<Side>,
                 c: Cell)
    requires Progress(keep, next, saddle, edges, m, done, c, if c in Marked(keep) then 4 else 0)
    ensures Progress(keep, next, saddle, edges, m, done, Cell(c.i + 1, c.j), 0)
  {
    hide Marked, Recorded, Holds, DoneTo;
    DoneCell(Marked(keep), done, c);
  }

  lemma NextRow(keep: array2<bool>, next: array2<Link>, saddle: bool, edges: int, m: map<Pt, Pt>, done: set<Side>,
                j: int)
    requires Progress(keep, next, saddle, edges, m, done, Cell(keep.Length0, j), 0)
    ensures Progress(keep, next, saddle, edges, m, done, Cell(0, j + 1), 0)
  {
    UnkeptIs(keep, keep.Length0, keep.Length1);
    hide Marked, Recorded, Holds, DoneTo, Window;
    DoneRow(Marked(keep), done, keep.Length0, keep.Length1, j);
  }

  lemma LastRow(keep: array2<bool>, next: array2<Link>, saddle: bool, edges: int, m: map<Pt, Pt>, done: set<Side>)
    requires Progress(keep, next, saddle, edges, m, done, Cell(0, keep.Length1), 0)
    ensures next.Length0 == keep.Length0 + 1 && next.Length1 == keep.Length1 + 1
    ensures Holds(next, m) && Recorded(m, saddle, edges, Sides(Marked(keep)))
  {
    UnkeptIs(keep, keep.Length0, keep.Length1);
    hide Marked, Recorded, Holds, DoneTo, Window, Sides;
    DoneAll(Marked(keep), done, keep.Length0, keep.Length1);
  }

  /** Records every boundary side, cell by cell in raster order. */
  method RecordAll(keep: array2<bool>) returns (next: array2<Link>, saddle: bool, edges: int, ghost m: map<Pt, Pt>)
    ensures fresh(next) && next.Length0 == keep.Length0 + 1 && next.Length1 == keep.Length1 + 1
    ensures Holds(next, m) && Recorded(m, saddle, edges, Sides(Marked(keep)))
  {
    hide *;
    var w, h := keep.Length0, keep.Length1;
    next := NoLinks(w, h);
    saddle, edges, m := false, 0, map[];
    ghost var done: set<Side> := {};
    RecordStart(keep, next);
    for j := 0 to h
      invariant fresh(next) && Progress(keep, next, saddle, edges, m, done, Cell(0, j), 0)
    {
      for i := 0 to w
        invariant Progress(keep, next, saddle, edges, m, done, Cell(i, j), 0)
      {
        CellIn(i, j, w, h);
        saddle, edges, m, done := RecordCell(keep, next, Cell(i, j), saddle, edges, m, done);
      }
      NextRow(keep, next, saddle, edges, m, done, j);
    }
    LastRow(keep, next, saddle, edges, m, done);
  }

  lemma CellIn(i: int, j: int, w: int, h: int)
    requires 0 <= i < w && 0 <= j < h
    ensures InGrid(Cell(i, j), w, h)
  {
  }

  method NoLinks(w: nat, h: nat) returns (next: array2<Link>)
    ensures fresh(next) && next.Length0 == w + 1 && next.Length1 == h + 1 && Holds(next, map[])
  {
    next := new Link[w + 1, h + 1]((_, _) => NoLink);
  }

  lemma RecordStart(keep: array2<bool>, next: array2<Link>)
    requires next.Length0 == keep.Length0 + 1 && next.Length1 == keep.Length1 + 1 && Holds(next, map[])
    ensures Progress(keep, next, false, 0, map[], {}, Cell(0, 0), 0)
  {
    var k, w, h := Marked(keep), keep.Length0, keep.Length1;
    UnkeptIs(keep, w, h);
    hide Window, Marked;
    assert DoneTo(k, {}, Cell(0, 0), 0) by {
      forall x: Side ensures !(Bounds(k, x) && (RasterLess(x.c, Cell(0, 0)) || (x.c == Cell(0, 0) && x.d < 0))) {
        WindowCell(w, h, x.c);
      }
    }
  }

  // ----- what was recorded -----------------------------------------------------------------------------

  lemma RecordedChooses(k: Region, m: map<Pt, Pt>, saddle: bool, edges: int)
    requires Recorded(m, saddle, edges, Sides(k))
    ensures Chooses(k, m)
  {
    hide Arc, Sides, From, To;
    forall p <- m ensures Arc(k, p, m[p]) {
      var e :| e in Sides(k) && From(e) == p && To(e) == m[p];
      SidesMeaning(k, e);
      SideInRange(k, e);
      SideArc(k, e);
    }
    forall p, q | Arc(k, p, q) ensures p in m {
      ArcSide(k, p, q);
      UnitArc(k, p, q);
      EndsSide(p, q);
    }
  }

  lemma UnitArc(k: Region, p: Pt, q: Pt)
    requires Arc(k, p, q)
    ensures Unit(p, q)
  {
  }

  lemma SideInRange(k: Region, e: Side)
    requires Bounds(k, e)
    ensures 0 <= e.d < 4
  {
  }

  lemma RecordedSaddle(k: Region, m: map<Pt, Pt>, saddle: bool, edges: int)
    requires Recorded(m, saddle, edges, Sides(k))
    ensures saddle <==> HasSaddle(k)
  {
    hide Arc, Sides, From, To, SideOf;
    if saddle {
      var e, f :| e in Sides(k) && f in Sides(k) && e != f && From(e) == From(f);
      SidesMeaning(k, e);
      SidesMeaning(k, f);
      SideInRange(k, e);
      SideInRange(k, f);
      SideArc(k, e);
      SideArc(k, f);
      SideEnds(e);
      SideEnds(f);
      assert Arc(k, From(e), To(e)) && Arc(k, From(e), To(f)) && To(e) != To(f);
    }
    if p, q, r :| q != r && Arc(k, p, q) && Arc(k, p, r) {
      ArcSide(k, p, q);
      ArcSide(k, p, r);
      UnitArc(k, p, q);
      UnitArc(k, p, r);
      EndsSide(p, q);
      EndsSide(p, r);
      assert SideOf(p, q) != SideOf(p, r);
    }
  }

  // ----- the walk ----------------------------------------------------------------------------------------

  /** A walk along the links from `s` that has not come back to it. */
  ghost predicate Chain(m: map<Pt, Pt>, s: Pt, v: seq<Pt>) {
    && v != [] && v[0] == s && (forall i :: 0 <= i < |v| ==> v[i] in m)
    && (forall i :: 0 < i < |v| ==> v[i] == m[v[i - 1]] && v[i] != s)
  }

  /** A walk that first comes back at its end met no vertex twice. */
  lemma FirstReturn(m: map<Pt, Pt>, s: Pt, v: seq<Pt>)
    requires Chain(m, s, v) && m[v[|v| - 1]] == s
    ensures Trail(m, v)
  {
    forall a, b | 0 <= a < b < |v| ensures v[a] != v[b] {
      if v[a] == v[b] { Shifted(m, s, v, a, b); }
    }
  }

  /** If two vertices of a walk along the links are the same, the walk comes to its end's successor that much sooner. */
  lemma {:induction false} Shifted(m: map<Pt, Pt>, s: Pt, v: seq<Pt>, a: int, b: int)
    requires forall i :: 0 <= i < |v| ==> v[i] in m
    requires forall i :: 0 < i < |v| ==> v[i] == m[v[i - 1]]
    requires 0 <= a < b < |v| && v[a] == v[b] && m[v[|v| - 1]] == s
    ensures v[a + |v| - b] == s
    decreases |v| - b
  {
    assert v[a + 1] == m[v[a]] == m[v[b]];
    if b + 1 < |v| { Shifted(m, s, v, a + 1, b + 1); }
  }

  /** A closed trail through as many vertices as there are edges. */
  ghost predicate Closes(m: map<Pt, Pt>, s: Pt, edges: int, u: seq<Pt>) {
    Trail(m, u) && u[0] == s && m[u[|u| - 1]] == s && |u| == edges
  }

  lemma {:induction false} ChainPrefix(m: map<Pt, Pt>, s: Pt, edges: int, u: seq<Pt>, v: seq<Pt>)
    requires Closes(m, s, edges, u) && Chain(m, s, v)
    ensures v <= u
  {
    if |v| == 1 {
      assert v == [u[0]];
    } else {
      var n := |v| - 1;
      ChainPrefix(m, s, edges, u, v[..n]);
      assert v[n - 1] == u[n - 1];
      assert v[n] == m[v[n - 1]];
      assert v[n] == u[n];
      assert v == v[..n] + [v[n]] && v[..n] == u[..n];
    }
  }

  lemma ChainOn(m: map<Pt, Pt>, s: Pt, v: seq<Pt>)
    requires Chain(m, s, v) && m[v[|v| - 1]] in m && m[v[|v| - 1]] != s
    ensures Chain(m, s, v + [m[v[|v| - 1]]])
  {
  }

  /** Follows the links until they come back to the start or there were too many steps. */
  method WalkRound(next: array2<Link>, ghost m: map<Pt, Pt>, s: Pt, edges: int) returns (ok: bool, verts: seq<Pt>)
    requires Holds(next, m) && s in m && edges >= 0 && forall p <- m :: m[p] in m
    ensures ok <==> exists u :: Closes(m, s, edges, u)
    ensures ok ==> Closes(m, s, edges, verts)
  {
    hide Trail;
    verts := [s];
    var v, steps := next[s.x, s.y], 1;
    while v.Link? && v.p != s && steps <= edges
      invariant Chain(m, s, verts) && |verts| == steps && v == Link(m[verts[|verts| - 1]])
      decreases edges + 1 - steps
    {
      ChainOn(m, s, verts);
      verts := verts + [v.p];
      v := next[v.p.x, v.p.y];
      steps := steps + 1;
    }
    ok := v == Link(s) && steps == edges;
    if ok {
      FirstReturn(m, s, verts);
      assert Closes(m, s, edges, verts);
    } else {
      NeverCloses(m, s, edges, verts);
    }
  }

  lemma NeverCloses(m: map<Pt, Pt>, s: Pt, edges: int, v: seq<Pt>)
    requires Chain(m, s, v) && (if m[v[|v| - 1]] == s then |v| != edges else |v| > edges)
    ensures !exists u :: Closes(m, s, edges, u)
  {
    hide Closes, Chain;
    if u :| Closes(m, s, edges, u) { NotYet(m, s, edges, u, v); }
  }

  /** If the links close after `edges` steps, a walk comes back then and not before. */
  lemma NotYet(m: map<Pt, Pt>, s: Pt, edges: int, u: seq<Pt>, v: seq<Pt>)
    requires Closes(m, s, edges, u) && Chain(m, s, v)
    ensures |v| <= edges && (|v| == edges <==> m[v[|v| - 1]] == s)
  {
    ChainPrefix(m, s, edges, u, v);
    if |v| < |u| { assert u[|v|] == m[u[|v| - 1]]; }
  }

  /** The first vertex in raster order that has a link. */
  method FirstLinked(next: array2<Link>, ghost m: map<Pt, Pt>) returns (s: Link)
    requires Holds(next, m)
    ensures s == NoLink ==> m == map[]
    ensures s.Link? ==> s.p in m && forall p <- m :: p == s.p || VertexLess(s.p, p)
  {
    for y := 0 to next.Length1
      invariant forall p <- m :: p.y >= y
    {
      for x := 0 to next.Length0
        invariant forall p <- m :: p.y > y || (p.y == y && p.x >= x)
      {
        if next[x, y].Link? {
          assert VertexIn(Pt(x, y), next);
          return Link(Pt(x, y));
        }
        assert VertexIn(Pt(x, y), next) && Pt(x, y) !in m;
        forall p <- m ensures p.y > y || (p.y == y && p.x >= x + 1) { assert p != Pt(x, y); }
      }
    }
    assert m == map[] by { NoneLeft(next, m); }
    s := NoLink;
  }

  lemma NoneLeft(next: array2<Link>, m: map<Pt, Pt>)
    requires Holds(next, m) && forall p <- m :: p.y >= next.Length1
    ensures m == map[]
  {
    assert m.Keys == {};
  }

  /** A closing walk along the recorded links is the region's circuit. */
  lemma ClosesIsCircuit(k: Region, m: map<Pt, Pt>, edges: int, s: Pt, u: seq<Pt>)
    requires Recorded(m, false, edges, Sides(k)) && Closes(m, s, edges, u)
    ensures Circuit(k, u)
  {
    RecordedChooses(k, m, false, edges);
    RecordedSaddle(k, m, false, edges);
    TrailBounded(m, u);
    assert |m| == edges && !HasSaddle(k);
    hide Arc, Sides, Recorded;
    forall i | 0 <= i < |u| ensures Arc(k, u[i], After(u, i)) && After(u, i) == m[u[i]] {}
    forall p, q | Arc(k, p, q) ensures exists i :: 0 <= i < |u| && u[i] == p && After(u, i) == q {
      assert p in m && m[p] == q;
      var i :| 0 <= i < |u| && u[i] == p;
    }
  }

  /** If the region is connected and has no holes, the walk from any vertex closes after all edges. */
  lemma CircuitCloses(k: Region, w: int, h: int, m: map<Pt, Pt>, edges: int, s: Pt)
    requires Recorded(m, false, edges, Sides(k)) && s in m && k <= Window(w, h) && Connected(k) && HoleFree(k, w, h)
    ensures exists u :: Closes(m, s, edges, u)
  {
    hide Connected, HoleFree, Arc, Sides, Circuit;
    RecordedChooses(k, m, false, edges);
    var u := TrailCloses(k, w, h, m, s);
    CircuitArea(k, u);
    assert Closes(m, s, edges, u);
  }

  /** The ring found from the raster-first vertex: corners of the circuit, round every cell once. */
  lemma RingArea(k: Region, m: map<Pt, Pt>, s: Pt, edges: int, u: seq<Pt>)
    requires Circuit(k, u) && Closes(m, s, edges, u) && forall p <- m :: p == s || VertexLess(s, p)
    ensures Twice(CornersOf(u)) == 2 * |k| && Outlines(k, CornersOf(u))
  {
    hide Arc, Outlines;
    CircuitArea(k, u);
    assert Rounds(k, u);
    forall i | 0 < i < |u| ensures VertexLess(u[0], u[i]) { assert u[0] != u[i]; }
    CornersOutline(k, u);
    FirstIsCorner(k, u);
    CornersArea(k, u);
  }

  lemma NothingRecorded(k: Region, m: map<Pt, Pt>, saddle: bool, edges: int)
    requires Recorded(m, saddle, edges, Sides(k))
    ensures m == map[] <==> k == {}
  {
    hide Arc;
    RecordedChooses(k, m, saddle, edges);
    if k != {} { var p, q := NonEmptyBounded(k); }
    if p :| p in m { ArcInside(k, p, m[p]); }
  }

  /** What the tracer returns for the region `k`. */
  ghost predicate TracedAs(k: Region, w: int, h: int, r: Traced) {
    && (r == SaddleVertex <==> HasSaddle(k))
    && (r == EmptyRegion <==> k == {})
    && (r.Ring? <==> k != {} && Connected(k) && HoleFree(k, w, h))
    && (r.Ring? ==> Twice(r.corners) == 2 * |k| && Outlines(k, r.corners))
  }

  /** A ring is the corners of `walk`, which goes once along every boundary edge. */
  ghost predicate RingOf(k: Region, r: Traced, walk: seq<Pt>) {
    r.Ring? ==> Circuit(k, walk) && r.corners == CornersOf(walk)
  }

  ghost predicate TracedRight(k: Region, w: int, h: int, r: Traced, walk: seq<Pt>) {
    TracedAs(k, w, h, r) && RingOf(k, r, walk)
  }

  /** Walks the boundary once round, region on the left, and keeps the corners. */
  method TraceRing(keep: array2<bool>) returns (r: Traced, ghost walk: seq<Pt>)
    ensures TracedAs(Marked(keep), keep.Length0, keep.Length1, r)
    ensures RingOf(Marked(keep), r, walk)
  {
    ghost var k, w, h := Marked(keep), keep.Length0, keep.Length1;
    UnkeptIs(keep, w, h);
    r, walk := TraceFrom(keep, k);
    hide TracedAs, RingOf;
  }

  method TraceFrom(keep: array2<bool>, ghost k: Region) returns (r: Traced, ghost walk: seq<Pt>)
    requires k == Marked(keep) && k <= Window(keep.Length0, keep.Length1)
    ensures TracedRight(k, keep.Length0, keep.Length1, r, walk)
  {
    hide *;
    ghost var w, h := keep.Length0, keep.Length1;
    var next, saddle, edges; ghost var m;
    next, saddle, edges, m := RecordAll(keep);
    if saddle {
      SaddleRight(k, w, h, m, edges);
      return SaddleVertex, [];
    }
    var s := FirstLinked(next, m);
    NothingRecorded(k, m, false, edges);
    if s == NoLink {
      EmptyRight(k, w, h);
      return EmptyRegion, [];
    }
    RecordedCount(m, false, edges, Sides(k));
    RecordedClosed(k, m, edges);
    var ok, verts := WalkRound(next, m, s.p, edges);
    if !ok {
      OpenRight(k, w, h, m, edges, s.p);
      return NotSingleLoop, [];
    }
    RingRight(k, w, h, m, edges, s.p, verts);
    var ring := KeepCorners(verts);
    return Ring(ring), verts;
  }

  lemma RecordedClosed(k: Region, m: map<Pt, Pt>, edges: int)
    requires Recorded(m, false, edges, Sides(k))
    ensures forall p <- m :: m[p] in m
  {
    RecordedChooses(k, m, false, edges);
    hide Chooses, Recorded;
    forall p <- m ensures m[p] in m { ChoiceClosed(k, m, p); }
  }

  lemma SaddleRight(k: Region, w: int, h: int, m: map<Pt, Pt>, edges: int)
    requires k <= Window(w, h) && Recorded(m, true, edges, Sides(k))
    ensures TracedRight(k, w, h, SaddleVertex, [])
  {
    RecordedSaddle(k, m, true, edges);
    CircuitExactly(k, w, h);
    SaddleEdge(k);
    hide Circuit, HasSaddle, Connected, HoleFree;
    if v :| Circuit(k, v) { CircuitNoSaddle(k, v); }
  }

  lemma EmptyRight(k: Region, w: int, h: int)
    requires k == {}
    ensures TracedRight(k, w, h, EmptyRegion, [])
  {
    if HasSaddle(k) { SaddleEdge(k); }
    hide HasSaddle, HoleFree, Connected;
  }

  lemma OpenRight(k: Region, w: int, h: int, m: map<Pt, Pt>, edges: int, s: Pt)
    requires k != {} && k <= Window(w, h) && Recorded(m, false, edges, Sides(k)) && s in m
    requires !exists u :: Closes(m, s, edges, u)
    ensures TracedRight(k, w, h, NotSingleLoop, [])
  {
    RecordedSaddle(k, m, false, edges);
    hide Circuit, HasSaddle, Connected, HoleFree, Closes;
    if Connected(k) && HoleFree(k, w, h) { CircuitCloses(k, w, h, m, edges, s); }
  }

  lemma RingRight(k: Region, w: int, h: int, m: map<Pt, Pt>, edges: int, s: Pt, u: seq<Pt>)
    requires k != {} && k <= Window(w, h) && Recorded(m, false, edges, Sides(k)) && Closes(m, s, edges, u)
    requires forall p <- m :: p == s || VertexLess(s, p)
    ensures TracedRight(k, w, h, Ring(CornersOf(u)), u)
  {
    hide Circuit, HasSaddle, Connected, HoleFree;
    RecordedSaddle(k, m, false, edges);
    ClosesIsCircuit(k, m, edges, s, u);
    RingArea(k, m, s, edges, u);
    CircuitExactly(k, w, h);
  }

  lemma RecordedCount(m: map<Pt, Pt>, saddle: bool, edges: int, done: set<Side>)
    requires Recorded(m, saddle, edges, done)
    ensures edges >= 0
  {
  }

  lemma SaddleEdge(k: Region)
    requires HasSaddle(k)
    ensures k != {}
  {
    var p, q, r :| q != r && Arc(k, p, q) && Arc(k, p, r);
    ArcInside(k, p, q);
  }

  // ----- from raw cells to a ring ------------------------------------------------------------------------

  /** Keep the largest piece, fill its holes, trace it: the ring always exists and encloses what was kept. */
  method Outline(cells: array2<bool>) returns (r: Traced, ghost kept: Region)
    requires cells.Length0 > 0 && cells.Length1 > 0
    ensures Marked(cells) == {} <==> r == EmptyRegion
    ensures Marked(cells) != {} ==>
              (exists s ::
                 Largest(Marked(cells), s)
                 && kept == Filled(Component(Marked(cells), s), cells.Length0, cells.Length1))
    ensures Marked(cells) != {} ==> r.Ring? && Twice(r.corners) == 2 * |kept| > 0 && Outlines(kept, r.corners)
  {
    var w, h := cells.Length0, cells.Length1;
    ghost var k := Marked(cells);
    var keep := LargestComponent(cells);
    ghost var piece := Marked(keep);
    UnkeptIs(keep, w, h);
    FillHoles(keep);
    kept := Marked(keep);
    ghost var walk;
    r, walk := TraceRing(keep);
    hide Marked, Filled, Connected, HoleFree, Component, Circuit;
    if k != {} {
      ghost var s :| Largest(k, s) && piece == Component(k, s);
      PieceConnected(k, s);
      FilledConnected(piece, w, h);
      FilledKeeps(piece, w, h);
      FilledHoleFree(piece, w, h);
    } else {
      FilledEmpty(w, h);
    }
  }

  lemma PieceConnected(k: Region, s: Cell)
    requires Largest(k, s)
    ensures Connected(Component(k, s)) && s in Component(k, s)
  {
    hide Reach;
    ReachSelf(k, s);
    ComponentConnected(k, s);
  }

  lemma FilledHoleFree(k: Region, w: int, h: int)
    ensures HoleFree(Filled(k, w, h), w, h)
  {
    hide Filled, FromBorder, Window;
    forall c <- Window(w, h) - Filled(k, w, h) ensures FromBorder(Window(w, h) - Filled(k, w, h), w, h, c) {
      FilledOutside(k, w, h, c);
    }
  }

  /** Inside an empty region everything is outside. */
  lemma FilledEmpty(w: int, h: int)
    ensures Filled({}, w, h) == {}
  {
    hide Window, FromBorder;
    forall c ensures c !in Filled({}, w, h) {
      if c in Filled({}, w, h) { var a := HoleTouches({}, w, h, c); }
    }
  }

  /** Components are connected through their own cells. */
  lemma ComponentConnected(k: Region, s: Cell)
    requires s in k
    ensures Connected(Component(k, s))
  {
    hide Reach, Component;
    var c := Component(k, s);
    forall a, b | a in c && b in c ensures Reach(c, a, b) {
      ReachWithin(k, s, a);
      ReachWithin(k, s, b);
      ReachSym(c, s, a);
      ReachTrans(c, a, s, b);
    }
  }

  lemma ReachWithin(k: Region, s: Cell, a: Cell)
    requires s in k && a in Component(k, s)
    ensures Reach(Component(k, s), s, a)
  {
    var p :| Path(k, p) && p[0] == s && p[|p| - 1] == a;
    var c := Component(k, s);
    forall x | 0 <= x < |p| ensures p[x] in c {
      assert Path(k, p[..x + 1]);
      assert Reach(k, s, p[x]);
    }
    assert Path(c, p);
  }
}
