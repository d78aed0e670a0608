/** The boundary of a raster region: its directed sides, region on the left (traceRing in internal/site/geom.go). */
module Boundary {
  import opened Grid

  datatype Pt = Pt(x: int, y: int)

  /** Side `d` of cell `c`: 0 bottom, 1 right, 2 top, 3 left. */
  datatype Side = Side(c: Cell, d: int)

  function From(e: Side): Pt {
    var Side(c, d) := e;
    if d == 0 then Pt(c.i, c.j) else if d == 1 then Pt(c.i + 1, c.j) else if d == 2 then Pt(c.i + 1, c.j + 1)
    else Pt(c.i, c.j + 1)
  }

  function To(e: Side): Pt {
    var Side(c, d) := e;
    if d == 0 then Pt(c.i + 1, c.j) else if d == 1 then Pt(c.i + 1, c.j + 1) else if d == 2 then Pt(c.i, c.j + 1)
    else Pt(c.i, c.j)
  }

  /** The cell on the other side. */
  function Across(e: Side): Cell {
    var Side(c, d) := e;
    if d == 0 then Cell(c.i, c.j - 1) else if d == 1 then Cell(c.i + 1, c.j) else if d == 2 then Cell(c.i, c.j + 1)
    else Cell(c.i - 1, c.j)
  }

  function Reverse(e: Side): Side { Side(Across(e), if e.d < 2 then e.d + 2 else e.d - 2) }

  predicate Bounds(k: Region, e: Side) { 0 <= e.d < 4 && e.c in k && Across(e) !in k }

  predicate Unit(p: Pt, q: Pt) {
    (p.y == q.y && (q.x == p.x + 1 || q.x == p.x - 1)) || (p.x == q.x && (q.y == p.y + 1 || q.y == p.y - 1))
  }

  /** The side whose cell lies to the left of the step from `p` to `q`. */
  function SideOf(p: Pt, q: Pt): Side {
    if q.x > p.x then Side(Cell(p.x, p.y), 0) else if q.y > p.y then Side(Cell(p.x - 1, p.y), 1)
    else if q.x < p.x then Side(Cell(p.x - 1, p.y - 1), 2) else Side(Cell(p.x, p.y - 1), 3)
  }

  /** A directed boundary edge: the region on its left, not on its right. */
  predicate Arc(k: Region, p: Pt, q: Pt) { Unit(p, q) && Bounds(k, SideOf(p, q)) }

  lemma SideEnds(e: Side)
    requires 0 <= e.d < 4
    ensures Unit(From(e), To(e)) && SideOf(From(e), To(e)) == e
    ensures From(Reverse(e)) == To(e) && To(Reverse(e)) == From(e) && Reverse(Reverse(e)) == e
    ensures Adjacent(e.c, Across(e))
  {
  }

  lemma EndsSide(p: Pt, q: Pt)
    requires Unit(p, q)
    ensures From(SideOf(p, q)) == p && To(SideOf(p, q)) == q && 0 <= SideOf(p, q).d < 4
  {
  }

  lemma SideArc(k: Region, e: Side)
    requires 0 <= e.d < 4
    ensures Bounds(k, e) <==> Arc(k, From(e), To(e))
  {
    SideEnds(e);
  }

  /** The side between two adjacent cells. */
  function Between(a: Cell, b: Cell): (e: Side)
    requires Adjacent(a, b)
    ensures e.c == a && Across(e) == b && 0 <= e.d < 4
  {
    Side(a, if b.j < a.j then 0 else if b.i > a.i then 1 else if b.j > a.j then 2 else 3)
  }

  ghost function Sides(k: Region): set<Side> {
    set c <- k, d | 0 <= d < 4 && Across(Side(c, d)) !in k :: Side(c, d)
  }

  lemma SidesMeaning(k: Region, e: Side)
    ensures e in Sides(k) <==> Bounds(k, e)
  {
    if Bounds(k, e) { assert e == Side(e.c, e.d); }
  }

  /** The next arc out of a vertex that an arc leads into. */
  lemma ArcGoesOn(k: Region, p: Pt, q: Pt) returns (r: Pt)
    requires Arc(k, p, q)
    ensures Arc(k, q, r)
  {
    var e, n, w, s := Pt(q.x + 1, q.y), Pt(q.x, q.y + 1), Pt(q.x - 1, q.y), Pt(q.x, q.y - 1);
    r := if Arc(k, q, e) then e else if Arc(k, q, n) then n else if Arc(k, q, w) then w else s;
  }

  lemma NotBothWays(k: Region, p: Pt, q: Pt)
    requires Arc(k, p, q)
    ensures !Arc(k, q, p)
  {
  }

  /** Raster order of vertices: by y, then x. */
  predicate VertexLess(p: Pt, q: Pt) { p.y < q.y || (p.y == q.y && p.x < q.x) }

  ghost predicate HasSaddle(k: Region) {
    exists p, q, r :: q != r && Arc(k, p, q) && Arc(k, p, r)
  }

  // ----- circuits -------------------------------------------------------------------------------------

  /** No vertex comes twice. */
  ghost predicate Distinct(v: seq<Pt>) { forall a, b :: 0 <= a < b < |v| ==> v[a] != v[b] }

  function After(v: seq<Pt>, i: int): Pt
    requires 0 <= i < |v|
  {
    if i + 1 < |v| then v[i + 1] else v[0]
  }

  /** A closed walk along boundary edges that uses every one of them, and no vertex twice. */
  ghost predicate Circuit(k: Region, v: seq<Pt>) {
    && v != [] && Distinct(v)
    && (forall i :: 0 <= i < |v| ==> Arc(k, v[i], After(v, i)))
    && (forall p, q :: Arc(k, p, q) ==> exists i :: 0 <= i < |v| && v[i] == p && After(v, i) == q)
  }

  lemma CircuitNoSaddle(k: Region, v: seq<Pt>)
    requires Circuit(k, v)
    ensures !HasSaddle(k)
  {
    hide Arc;
    forall p, q, r | Arc(k, p, q) && Arc(k, p, r) ensures q == r {
      var i :| 0 <= i < |v| && v[i] == p && After(v, i) == q;
      var j :| 0 <= j < |v| && v[j] == p && After(v, j) == r;
    }
  }

  /** A non-empty region has a lowest row, and so a bottom side. */
  lemma {:induction false} LowestCell(k: Region) returns (c: Cell)
    requires k != {}
    ensures c in k && forall a <- k :: c.j <= a.j
    decreases |k|
  {
    var c0 :| c0 in k;
    var below := set b <- k | b.j < c0.j;
    if below == {} {
      forall a <- k ensures c0.j <= a.j { assert a !in below; }
      c := c0;
    } else {
      assert c0 !in below;
      ProperSmaller(below, k);
      c := LowestCell(below);
      forall a <- k ensures c.j <= a.j { assert a in below || c0.j <= a.j; }
    }
  }

  lemma ProperSmaller<T>(a: set<T>, b: set<T>)
    requires a < b
    ensures |a| < |b|
  {
    var x :| x in b && x !in a;
    assert a <= b - {x};
    assert b - {x} == a + (b - {x} - a);
  }

  lemma NonEmptyBounded(k: Region) returns (p: Pt, q: Pt)
    requires k != {}
    ensures Arc(k, p, q)
  {
    var c := LowestCell(k);
    var e := Side(c, 0);
    SideArc(k, e);
    return From(e), To(e);
  }
}
