/** When a region's boundary is one closed circuit: exactly when the region is not empty, 4-connected and
    without holes. The comment before traceRing in internal/site/geom.go claims the difficult half. */
module Jordan {
  import opened Grid
  import opened Holes
  import opened Boundary

  /** A set of disjoint closed walks: each vertex steps to another, and each is stepped to. */
  ghost predicate Loop(nx: map<Pt, Pt>) {
    && (forall p <- nx :: nx[p] in nx)
    && (forall q <- nx :: exists p :: Steps(nx, p, q))
    && (forall p, r, q :: Steps(nx, p, q) && Steps(nx, r, q) ==> p == r)
  }

  predicate Steps(nx: map<Pt, Pt>, p: Pt, q: Pt) { p in nx && nx[p] == q }

  ghost predicate Along(k: Region, nx: map<Pt, Pt>) { forall p <- nx :: Arc(k, p, nx[p]) }

  function Goes(nx: map<Pt, Pt>, p: Pt, q: Pt): int { if Steps(nx, p, q) then 1 else 0 }

  function Net(nx: map<Pt, Pt>, p: Pt, q: Pt): int { Goes(nx, p, q) - Goes(nx, q, p) }

  /** As much flows out of a vertex as in. */
  lemma Balanced(k: Region, nx: map<Pt, Pt>, p: Pt)
    requires Loop(nx) && Along(k, nx)
    ensures Net(nx, p, Pt(p.x + 1, p.y)) + Net(nx, p, Pt(p.x, p.y + 1)) + Net(nx, p, Pt(p.x - 1, p.y))
            + Net(nx, p, Pt(p.x, p.y - 1)) == 0
  {
    hide Loop, Along, Arc, Bounds, Unit;
    var e, n, w, s := Pt(p.x + 1, p.y), Pt(p.x, p.y + 1), Pt(p.x - 1, p.y), Pt(p.x, p.y - 1);
    if p in nx {
      var q := Before(nx, p);
      UnitStep(k, nx, q, p);
      UnitStep(k, nx, p, nx[p]);
      OneIn(nx, p, q, e, n, w, s);
      OneOut(nx, p, nx[p], e, n, w, s);
    } else {
      StepsInside(nx, e, p);
      StepsInside(nx, n, p);
      StepsInside(nx, w, p);
      StepsInside(nx, s, p);
    }
  }

  lemma UnitStep(k: Region, nx: map<Pt, Pt>, p: Pt, q: Pt)
    requires Along(k, nx) && Steps(nx, p, q)
    ensures q in {Pt(p.x + 1, p.y), Pt(p.x, p.y + 1), Pt(p.x - 1, p.y), Pt(p.x, p.y - 1)}
    ensures p in {Pt(q.x + 1, q.y), Pt(q.x, q.y + 1), Pt(q.x - 1, q.y), Pt(q.x, q.y - 1)}
  {
    hide Bounds;
    assert Unit(p, q);
  }

  lemma OneOut(nx: map<Pt, Pt>, p: Pt, q: Pt, e: Pt, n: Pt, w: Pt, s: Pt)
    requires Steps(nx, p, q) && q in {e, n, w, s} && e != n && e != w && e != s && n != w && n != s && w != s
    ensures Goes(nx, p, e) + Goes(nx, p, n) + Goes(nx, p, w) + Goes(nx, p, s) == 1
  {
  }

  lemma OneIn(nx: map<Pt, Pt>, p: Pt, q: Pt, e: Pt, n: Pt, w: Pt, s: Pt)
    requires Loop(nx) && Steps(nx, q, p) && q in {e, n, w, s} && e != n && e != w && e != s && n != w && n != s
             && w != s
    ensures Goes(nx, e, p) + Goes(nx, n, p) + Goes(nx, w, p) + Goes(nx, s, p) == 1
  {
    hide Steps;
  }

  lemma Before(nx: map<Pt, Pt>, p: Pt) returns (q: Pt)
    requires Loop(nx) && p in nx
    ensures Steps(nx, q, p)
  {
    q :| Steps(nx, q, p);
  }

  lemma StepsInside(nx: map<Pt, Pt>, p: Pt, q: Pt)
    requires Loop(nx)
    ensures Steps(nx, p, q) ==> p in nx && q in nx
  {
  }

  /** How often the loops wind round a cell: the net steps crossed coming in from the left. */
  function Winding(nx: map<Pt, Pt>, c: Cell): int
    decreases c.i + 1
  {
    if c.i < 0 then 0 else Winding(nx, Cell(c.i - 1, c.j)) - Net(nx, Pt(c.i, c.j), Pt(c.i, c.j + 1))
  }

  ghost predicate InFrame(nx: map<Pt, Pt>, w: int, h: int) { forall p <- nx :: 0 <= p.x <= w && 0 <= p.y <= h }

  /** Crossing upwards changes the winding by the net step crossed, too. */
  lemma {:induction false} WindingUp(k: Region, nx: map<Pt, Pt>, w: int, h: int, c: Cell)
    requires Loop(nx) && Along(k, nx) && InFrame(nx, w, h)
    ensures Winding(nx, c) == Winding(nx, Cell(c.i, c.j - 1)) + Net(nx, Pt(c.i, c.j), Pt(c.i + 1, c.j))
    decreases c.i + 1
  {
    hide Along, Loop, Net;
    if c.i >= 0 {
      WindingUp(k, nx, w, h, Cell(c.i - 1, c.j));
      Balanced(k, nx, Pt(c.i, c.j));
      NetBack(nx, Pt(c.i, c.j), Pt(c.i - 1, c.j));
      NetBack(nx, Pt(c.i, c.j), Pt(c.i, c.j - 1));
    } else {
      NetOutside(nx, w, h, Pt(c.i, c.j), Pt(c.i + 1, c.j));
    }
  }

  lemma NetBack(nx: map<Pt, Pt>, p: Pt, q: Pt)
    ensures Net(nx, p, q) == -Net(nx, q, p)
  {
  }

  lemma NetOutside(nx: map<Pt, Pt>, w: int, h: int, p: Pt, q: Pt)
    requires Loop(nx) && InFrame(nx, w, h) && !(0 <= p.x <= w && 0 <= p.y <= h)
    ensures Net(nx, p, q) == 0 && Net(nx, q, p) == 0
  {
    StepsInside(nx, p, q);
    StepsInside(nx, q, p);
    hide Loop;
    assert p !in nx;
  }

  /** Crossing a side from the cell across it to its own cell adds the net step along it. */
  lemma WindingAcross(k: Region, nx: map<Pt, Pt>, w: int, h: int, e: Side)
    requires Loop(nx) && Along(k, nx) && InFrame(nx, w, h) && 0 <= e.d < 4
    ensures Winding(nx, e.c) == Winding(nx, Across(e)) + Net(nx, From(e), To(e))
  {
    hide Along, Loop, Net, InFrame;
    var c := e.c;
    if e.d == 0 {
      WindingUp(k, nx, w, h, c);
    } else if e.d == 1 {
      NetAtLeft(k, nx, w, h, Across(e));
    } else if e.d == 2 {
      WindingUp(k, nx, w, h, Across(e));
      NetBack(nx, From(e), To(e));
    } else {
      NetAtLeft(k, nx, w, h, c);
      NetBack(nx, From(e), To(e));
    }
  }

  lemma NetAtLeft(k: Region, nx: map<Pt, Pt>, w: int, h: int, c: Cell)
    requires Loop(nx) && InFrame(nx, w, h)
    ensures Winding(nx, c) == Winding(nx, Cell(c.i - 1, c.j)) - Net(nx, Pt(c.i, c.j), Pt(c.i, c.j + 1))
  {
    hide Loop, InFrame, Net;
    if c.i < 0 { NetOutside(nx, w, h, Pt(c.i, c.j), Pt(c.i, c.j + 1)); }
  }

  /** Nothing winds round a cell outside the window. */
  lemma {:induction false} WindingOutside(k: Region, nx: map<Pt, Pt>, w: int, h: int, c: Cell)
    requires Loop(nx) && Along(k, nx) && InFrame(nx, w, h) && !InGrid(c, w, h)
    ensures Winding(nx, c) == 0
    decreases if c.i < 0 then 0 else if 0 <= c.j < h then 1 else 0, if 0 <= c.j < h then c.j else c.i + 1
  {
    hide Along, Loop, Net, InFrame;
    if c.i >= 0 {
      if 0 <= c.j < h {
        WindingUp(k, nx, w, h, c);
        NetOutside(nx, w, h, Pt(c.i + 1, c.j), Pt(c.i, c.j));
        WindingOutside(k, nx, w, h, Cell(c.i, c.j - 1));
      } else {
        WindingOutside(k, nx, w, h, Cell(c.i - 1, c.j));
        if c.j < 0 { NetOutside(nx, w, h, Pt(c.i, c.j), Pt(c.i, c.j + 1)); }
        else { NetOutside(nx, w, h, Pt(c.i, c.j + 1), Pt(c.i, c.j)); }
      }
    }
  }

  /** Cells on the same side of the boundary have the same winding. */
  lemma WindingSame(k: Region, nx: map<Pt, Pt>, w: int, h: int, a: Cell, b: Cell)
    requires Loop(nx) && Along(k, nx) && InFrame(nx, w, h) && Adjacent(a, b) && (a in k <==> b in k)
    ensures Winding(nx, a) == Winding(nx, b)
  {
    hide Winding, Loop, InFrame;
    var e := Between(a, b);
    WindingAcross(k, nx, w, h, e);
    SideEnds(e);
    SideArc(k, e);
    SideArc(k, Reverse(e));
    SideEnds(Reverse(e));
    hide Arc, From, To, Reverse, SideOf;
  }

  /** Every unkept cell can be reached from the window border through unkept cells. */
  ghost predicate HoleFree(k: Region, w: int, h: int) {
    forall c <- Window(w, h) - k :: FromBorder(Window(w, h) - k, w, h, c)
  }

  lemma BesideBorder(w: int, h: int, b: Cell) returns (o: Cell)
    requires OnBorder(b, w, h)
    ensures Adjacent(b, o) && !InGrid(o, w, h)
  {
    o := if b.i == 0 then Cell(-1, b.j) else if b.j == 0 then Cell(b.i, -1) else if b.i == w - 1 then Cell(w, b.j)
      else Cell(b.i, h);
  }

  /** Without holes nothing winds round an unkept cell. */
  lemma UnkeptZero(k: Region, nx: map<Pt, Pt>, w: int, h: int, c: Cell)
    requires Loop(nx) && Along(k, nx) && InFrame(nx, w, h) && HoleFree(k, w, h) && k <= Window(w, h) && c !in k
    ensures Winding(nx, c) == 0
  {
    hide Winding, Loop, InFrame, Reach, Along, Adjacent;
    WindowCell(w, h, c);
    var u := Window(w, h) - k;
    if c !in u {
      WindingOutside(k, nx, w, h, c);
    } else {
      assert FromBorder(u, w, h, c);
      var b :| OnBorder(b, w, h) && Reach(u, b, c);
      ReachEnds(u, b, c);
      var o := BesideBorder(w, h, b);
      WindowCell(w, h, o);
      WindingOutside(k, nx, w, h, o);
      WindingSame(k, nx, w, h, b, o);
      var z := set x <- u | Winding(nx, x) == 0;
      forall x, y | x in z && y in u && Adjacent(x, y) ensures y in z { WindingSame(k, nx, w, h, x, y); }
      ReachClosed(u, z, b, c);
    }
  }

  /** In a connected region every cell has the same winding. */
  lemma KeptSame(k: Region, nx: map<Pt, Pt>, w: int, h: int, a: Cell, b: Cell)
    requires Loop(nx) && Along(k, nx) && InFrame(nx, w, h) && Connected(k) && a in k && b in k
    ensures Winding(nx, a) == Winding(nx, b)
  {
    hide Winding, Loop, InFrame, Reach, Along, Adjacent;
    var z := set x <- k | Winding(nx, x) == Winding(nx, a);
    forall x, y | x in z && y in k && Adjacent(x, y) ensures y in z { WindingSame(k, nx, w, h, x, y); }
    ReachClosed(k, z, a, b);
  }

  /** Across a boundary edge the winding drops by one exactly if the loops take that edge. */
  lemma WindingAtArc(k: Region, nx: map<Pt, Pt>, w: int, h: int, p: Pt, q: Pt)
    requires Loop(nx) && Along(k, nx) && InFrame(nx, w, h) && Arc(k, p, q)
    ensures Winding(nx, SideOf(p, q).c) == Winding(nx, Across(SideOf(p, q))) + Goes(nx, p, q)
  {
    EndsSide(p, q);
    WindingAcross(k, nx, w, h, SideOf(p, q));
    NotBothWays(k, p, q);
    hide Arc, Winding, InFrame, Loop;
  }

  /** Round a connected region without holes, any closed walks along boundary edges take all of them. */
  lemma LoopIsAll(k: Region, nx: map<Pt, Pt>, w: int, h: int, p: Pt, q: Pt)
    requires Loop(nx) && Along(k, nx) && InFrame(nx, w, h) && nx.Keys != {}
    requires k <= Window(w, h) && Connected(k) && HoleFree(k, w, h) && Arc(k, p, q)
    ensures p in nx && nx[p] == q
  {
    hide Winding, Loop, InFrame, Connected, HoleFree, Window;
    var s :| s in nx.Keys;
    var t := nx[s];
    assert Arc(k, s, t);
    WindingAtArc(k, nx, w, h, s, t);
    WindingAtArc(k, nx, w, h, p, q);
    var e, f := SideOf(s, t), SideOf(p, q);
    UnkeptZero(k, nx, w, h, Across(e));
    UnkeptZero(k, nx, w, h, Across(f));
    KeptSame(k, nx, w, h, e.c, f.c);
  }
}
