/** Which regions have a boundary that is a single circuit (traceRing in internal/site/geom.go). */
module Circuits {
  import opened Grid
  import opened Holes
  import opened Boundary
  import opened Jordan

  /** One arc chosen out of every boundary vertex. */
  ghost predicate Chooses(k: Region, m: map<Pt, Pt>) {
    (forall p <- m :: Arc(k, p, m[p])) && (forall p, q :: Arc(k, p, q) ==> p in m)
  }

  lemma ChoiceClosed(k: Region, m: map<Pt, Pt>, p: Pt)
    requires Chooses(k, m) && p in m
    ensures m[p] in m
  {
    hide Arc;
    var r := ArcGoesOn(k, p, m[p]);
  }

  /** A walk along the choices that has not met itself yet. */
  ghost predicate Trail(m: map<Pt, Pt>, v: seq<Pt>) {
    && v != [] && Distinct(v) && (forall i :: 0 <= i < |v| ==> v[i] in m)
    && (forall i :: 0 < i < |v| ==> v[i] == m[v[i - 1]])
  }

  function Points(v: seq<Pt>): set<Pt> { set p | p in v }

  lemma {:induction false} DistinctSize(v: seq<Pt>)
    requires Distinct(v)
    ensures |Points(v)| == |v|
  {
    if v != [] {
      var n := |v| - 1;
      DistinctSize(v[..n]);
      assert v == v[..n] + [v[n]];
      assert Points(v) == Points(v[..n]) + {v[n]};
    }
  }

  lemma SubsetFull<T>(a: set<T>, b: set<T>)
    requires a <= b
    ensures |a| <= |b| && (|a| == |b| ==> a == b)
  {
    assert b == a + (b - a);
  }

  lemma TrailBounded(m: map<Pt, Pt>, v: seq<Pt>)
    requires Trail(m, v)
    ensures |v| <= |m| && (|v| == |m| ==> forall p <- m :: p in v)
  {
    DistinctSize(v);
    assert Points(v) <= m.Keys;
    SubsetFull(Points(v), m.Keys);
    assert |m| == |m.Keys|;
  }

  lemma TrailOn(m: map<Pt, Pt>, v: seq<Pt>)
    requires Trail(m, v) && m[v[|v| - 1]] in m && m[v[|v| - 1]] !in v
    ensures Trail(m, v + [m[v[|v| - 1]]])
  {
  }

  /** Following choices ends in a lasso: a trail whose last step leads back into it. */
  lemma {:induction false} Lasso(k: Region, m: map<Pt, Pt>, v: seq<Pt>) returns (u: seq<Pt>, t: nat)
    requires Chooses(k, m) && Trail(m, v)
    ensures Trail(m, u) && v <= u && t < |u| && m[u[|u| - 1]] == u[t]
    decreases |m| - |v|
  {
    hide Distinct, Chooses;
    var q := m[v[|v| - 1]];
    ChoiceClosed(k, m, v[|v| - 1]);
    if q in v {
      t :| 0 <= t < |v| && v[t] == q;
      u := v;
    } else {
      TrailOn(m, v);
      TrailBounded(m, v + [q]);
      u, t := Lasso(k, m, v + [q]);
    }
  }

  /** The successor map of a closed walk. */
  ghost function Around(v: seq<Pt>): map<Pt, Pt>
    requires Distinct(v)
  {
    map i | 0 <= i < |v| :: v[i] := After(v, i)
  }

  lemma AroundAt(v: seq<Pt>, i: int)
    requires Distinct(v) && 0 <= i < |v|
    ensures v[i] in Around(v) && Around(v)[v[i]] == After(v, i)
  {
  }

  lemma AroundKey(v: seq<Pt>, p: Pt) returns (i: int)
    requires Distinct(v) && p in Around(v)
    ensures 0 <= i < |v| && v[i] == p && Around(v)[p] == After(v, i)
  {
    i :| 0 <= i < |v| && v[i] == p;
  }

  lemma AroundLoops(v: seq<Pt>)
    requires Distinct(v)
    ensures Loop(Around(v))
  {
    hide Around, Distinct;
    var nx := Around(v);
    forall p <- nx ensures nx[p] in nx {
      var i := AroundKey(v, p);
      AroundAt(v, if i + 1 < |v| then i + 1 else 0);
    }
    forall q <- nx ensures exists p :: Steps(nx, p, q) {
      var i := AroundKey(v, q);
      var b := if i > 0 then i - 1 else |v| - 1;
      AroundAt(v, b);
      assert Steps(nx, v[b], q);
    }
    forall p, r, q | Steps(nx, p, q) && Steps(nx, r, q) ensures p == r {
      var i := AroundKey(v, p);
      var j := AroundKey(v, r);
      SameAfter(v, i, j);
    }
  }

  lemma SameAfter(v: seq<Pt>, i: int, j: int)
    requires Distinct(v) && 0 <= i < |v| && 0 <= j < |v| && After(v, i) == After(v, j)
    ensures i == j
  {
  }

  lemma ArcInFrame(k: Region, w: int, h: int, p: Pt, q: Pt)
    requires k <= Window(w, h) && Arc(k, p, q)
    ensures 0 <= p.x <= w && 0 <= p.y <= h
  {
    var c := SideOf(p, q).c;
    WindowCell(w, h, c);
  }

  /** A closed trail round a connected region without holes is its circuit. */
  lemma ClosedIsCircuit(k: Region, w: int, h: int, m: map<Pt, Pt>, u: seq<Pt>)
    requires k <= Window(w, h) && Connected(k) && HoleFree(k, w, h)
    requires Chooses(k, m) && Trail(m, u) && m[u[|u| - 1]] == u[0]
    ensures Circuit(k, u)
  {
    hide Arc, Window, Connected, HoleFree, Distinct, Around, Loop;
    var nx := Around(u);
    AroundLoops(u);
    AroundAt(u, 0);
    forall i | 0 <= i < |u| ensures Arc(k, u[i], After(u, i)) { assert Arc(k, u[i], m[u[i]]); }
    forall p <- nx ensures Arc(k, p, nx[p]) && 0 <= p.x <= w && 0 <= p.y <= h {
      var i := AroundKey(u, p);
      ArcInFrame(k, w, h, p, nx[p]);
    }
    forall p, q | Arc(k, p, q) ensures exists i :: 0 <= i < |u| && u[i] == p && After(u, i) == q {
      LoopIsAll(k, nx, w, h, p, q);
      var i := AroundKey(u, p);
    }
  }

  lemma TailTrail(m: map<Pt, Pt>, u: seq<Pt>, t: nat)
    requires Trail(m, u) && t < |u|
    ensures Trail(m, u[t..])
  {
  }

  /** From any boundary vertex of a connected region without holes, following choices closes a circuit. */
  lemma TrailCloses(k: Region, w: int, h: int, m: map<Pt, Pt>, s: Pt) returns (u: seq<Pt>)
    requires k <= Window(w, h) && Connected(k) && HoleFree(k, w, h) && Chooses(k, m) && s in m
    ensures Trail(m, u) && u[0] == s && m[u[|u| - 1]] == s && Circuit(k, u)
  {
    hide Arc, Window, Connected, HoleFree, Chooses;
    assert Trail(m, [s]);
    var t;
    u, t := Lasso(k, m, [s]);
    TailTrail(m, u, t);
    ClosedIsCircuit(k, w, h, m, u[t..]);
    assert Arc(k, s, m[s]) by { ChosenArc(k, m, s); }
    var i :| 0 <= i < |u[t..]| && u[t..][i] == s;
    assert u[t + i] == u[0];
    assert u[t..] == u;
  }

  lemma ChosenArc(k: Region, m: map<Pt, Pt>, p: Pt)
    requires Chooses(k, m) && p in m
    ensures Arc(k, p, m[p])
  {
  }

  ghost function Leaving(k: Region, p: Pt): Pt
    requires exists q :: Arc(k, p, q)
  {
    var q :| Arc(k, p, q); q
  }

  lemma SomeChoice(k: Region) returns (m: map<Pt, Pt>)
    ensures Chooses(k, m)
  {
    hide Arc;
    var heads := set e <- Sides(k) :: From(e);
    forall p ensures p in heads <==> exists q :: Arc(k, p, q) {
      if p in heads {
        var e :| e in Sides(k) && From(e) == p;
        SidesMeaning(k, e);
        SideArc(k, e);
        assert Arc(k, p, To(e));
      }
      if q :| Arc(k, p, q) { HeadOf(k, p, q); }
    }
    m := map p | p in heads :: Leaving(k, p);
  }

  lemma HeadOf(k: Region, p: Pt, q: Pt)
    requires Arc(k, p, q)
    ensures p in (set e <- Sides(k) :: From(e))
  {
    EndsSide(p, q);
    SidesMeaning(k, SideOf(p, q));
  }

  // ----- and conversely --------------------------------------------------------------------------------

  /** A region whose boundary lies in a single circuit has that whole circuit as boundary. */
  lemma SubBoundary(k: Region, r: Region, v: seq<Pt>, p: Pt, q: Pt)
    requires Circuit(k, v) && r != {} && (forall a, b :: Arc(r, a, b) ==> Arc(k, a, b)) && Arc(k, p, q)
    ensures Arc(r, p, q)
  {
    hide Arc;
    var a, b := NonEmptyBounded(r);
    var i :| 0 <= i < |v| && v[i] == a && After(v, i) == b;
    var j :| 0 <= j < |v| && v[j] == p && After(v, j) == q;
    FollowAlong(k, r, v, i, j);
  }

  lemma {:induction false} FollowAlong(k: Region, r: Region, v: seq<Pt>, i: int, j: int)
    requires Circuit(k, v) && (forall a, b :: Arc(r, a, b) ==> Arc(k, a, b))
    requires 0 <= i < |v| && 0 <= j < |v| && Arc(r, v[i], After(v, i))
    ensures Arc(r, v[j], After(v, j))
    decreases if i <= j then j - i else j - i + |v|
  {
    if i != j {
      hide Arc;
      var n := if i + 1 < |v| then i + 1 else 0;
      var b := ArcGoesOn(r, v[i], v[n]);
      assert Arc(k, v[n], b);
      var x :| 0 <= x < |v| && v[x] == v[n] && After(v, x) == b;
      assert x == n;
      FollowAlong(k, r, v, n, j);
    }
  }

  /** The boundary of a union of components is part of the whole boundary. */
  lemma PartBoundary(k: Region, r: Region, p: Pt, q: Pt)
    requires r <= k && (forall a, b :: a in r && b in k && Adjacent(a, b) ==> b in r) && Arc(r, p, q)
    ensures Arc(k, p, q)
  {
    SideEnds(SideOf(p, q));
  }

  lemma CircuitConnected(k: Region, v: seq<Pt>)
    requires Circuit(k, v)
    ensures Connected(k)
  {
    hide Reach, Arc, Circuit;
    forall a, b | a in k && b in k ensures Reach(k, a, b) {
      if !Reach(k, a, b) {
        var r := Component(k, a);
        var o := k - r;
        ReachSelf(k, a);
        forall x, y | x in r && y in k && Adjacent(x, y) ensures y in r { ReachStep(k, a, x, y); }
        forall x, y | x in o && y in k && Adjacent(x, y) ensures y in o { assert Adjacent(y, x); }
        forall x, y | Arc(r, x, y) ensures Arc(k, x, y) { PartBoundary(k, r, x, y); }
        assert b in o;
        var p, q := NonEmptyBounded(o);
        PartBoundary(k, o, p, q);
        SubBoundary(k, r, v, p, q);
        DisjointBoundary(r, o, p, q);
      }
    }
  }

  lemma DisjointBoundary(r: Region, o: Region, p: Pt, q: Pt)
    requires r !! o && Arc(r, p, q)
    ensures !Arc(o, p, q)
  {
  }

  lemma FilledBoundary(k: Region, w: int, h: int, p: Pt, q: Pt)
    requires k <= Window(w, h) && Arc(Filled(k, w, h), p, q)
    ensures Arc(k, p, q)
  {
    hide FromBorder, Window;
    var e := SideOf(p, q);
    SideEnds(e);
    FilledKeeps(k, w, h);
    var c, o, u := e.c, Across(e), Window(w, h) - k;
    WindowCell(w, h, c);
    WindowCell(w, h, o);
    if c !in k {
      if InGrid(o, w, h) { BorderStep(u, w, h, o, c); } else { BorderItself(u, w, h, c); }
    }
  }

  lemma BorderItself(u: Region, w: int, h: int, c: Cell)
    requires c in u && OnBorder(c, w, h)
    ensures FromBorder(u, w, h, c)
  {
    ReachSelf(u, c);
  }

  /** Left of a hole, some side of the region faces into it. */
  lemma {:induction false} HoleSide(k: Region, w: int, h: int, c: Cell) returns (e: Side)
    requires k <= Window(w, h) && c in Filled(k, w, h) && c !in k
    ensures Bounds(k, e) && Across(e) in Filled(k, w, h)
    decreases c.i
  {
    hide FromBorder, Window;
    var l, u := Cell(c.i - 1, c.j), Window(w, h) - k;
    WindowCell(w, h, c);
    WindowCell(w, h, l);
    if c.i == 0 { BorderItself(u, w, h, c); }
    if l in k {
      e := Side(l, 1);
    } else {
      if FromBorder(u, w, h, l) { BorderStep(u, w, h, l, c); }
      e := HoleSide(k, w, h, l);
    }
  }

  lemma CircuitHoleFree(k: Region, w: int, h: int, v: seq<Pt>)
    requires Circuit(k, v) && k <= Window(w, h)
    ensures HoleFree(k, w, h)
  {
    hide Arc, Circuit, FromBorder, Window, Bounds;
    var f := Filled(k, w, h);
    FilledKeeps(k, w, h);
    forall c <- Window(w, h) - k ensures FromBorder(Window(w, h) - k, w, h, c) {
      if c in f {
        var e := HoleSide(k, w, h, c);
        SideArc(k, e) by { assert 0 <= e.d < 4 by { SideRange(k, e); } }
        forall x, y | Arc(f, x, y) ensures Arc(k, x, y) { FilledBoundary(k, w, h, x, y); }
        SubBoundary(k, f, v, From(e), To(e));
        SideRange(k, e);
        SideArc(f, e);
        SideRange(f, e);
      }
    }
  }

  lemma SideRange(k: Region, e: Side)
    requires Bounds(k, e)
    ensures 0 <= e.d < 4 && e.c in k && Across(e) !in k
  {
  }

  /** The boundary is one circuit exactly if the region is not empty, 4-connected and has no holes. */
  lemma CircuitExactly(k: Region, w: int, h: int)
    requires k <= Window(w, h)
    ensures (exists v :: Circuit(k, v)) <==> k != {} && Connected(k) && HoleFree(k, w, h)
  {
    hide Arc, Connected, HoleFree, Window;
    if v :| Circuit(k, v) {
      CircuitConnected(k, v);
      CircuitHoleFree(k, w, h, v);
      assert Arc(k, v[0], After(v, 0));
      ArcInside(k, v[0], After(v, 0));
    }
    if k != {} && Connected(k) && HoleFree(k, w, h) {
      var m := SomeChoice(k);
      var p, q := NonEmptyBounded(k);
      var u := TrailCloses(k, w, h, m, p);
    }
  }

  lemma ArcInside(k: Region, p: Pt, q: Pt)
    requires Arc(k, p, q)
    ensures k != {}
  {
    assert SideOf(p, q).c in k;
  }
}
