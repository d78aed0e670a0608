/** Cells of a raster window, their 4-neighbourhood and 4-connectivity (internal/site/geom.go). */
module Grid {

  datatype Cell = Cell(i: int, j: int)

  type Region = set<Cell>

  predicate Adjacent(a: Cell, b: Cell) {
    (a.i == b.i && (a.j == b.j + 1 || b.j == a.j + 1)) || (a.j == b.j && (a.i == b.i + 1 || b.i == a.i + 1))
  }

  function Neighbour(c: Cell, d: int): Cell
    requires 0 <= d < 4
  {
    if d == 0 then Cell(c.i + 1, c.j) else if d == 1 then Cell(c.i - 1, c.j)
    else if d == 2 then Cell(c.i, c.j + 1) else Cell(c.i, c.j - 1)
  }

  lemma NeighbourMeaning(a: Cell, b: Cell)
    ensures Adjacent(a, b) <==> exists d :: 0 <= d < 4 && Neighbour(a, d) == b
  {
    if Adjacent(a, b) {
      var d := if b.i == a.i + 1 then 0 else if b.i == a.i - 1 then 1 else if b.j == a.j + 1 then 2 else 3;
      assert Neighbour(a, d) == b;
    }
  }

  ghost predicate Path(k: Region, p: seq<Cell>) {
    && p != [] && (forall x :: 0 <= x < |p| ==> p[x] in k)
    && (forall x :: 0 < x < |p| ==> Adjacent(p[x - 1], p[x]))
  }

  /** `b` can be reached from `a` through adjacent cells of the region. */
  ghost predicate Reach(k: Region, a: Cell, b: Cell) {
    exists p :: Path(k, p) && p[0] == a && p[|p| - 1] == b
  }

  lemma ReachSelf(k: Region, a: Cell)
    requires a in k
    ensures Reach(k, a, a)
  {
    assert Path(k, [a]);
  }

  lemma ReachStep(k: Region, a: Cell, b: Cell, c: Cell)
    requires Reach(k, a, b) && c in k && Adjacent(b, c)
    ensures Reach(k, a, c)
  {
    var p :| Path(k, p) && p[0] == a && p[|p| - 1] == b;
    assert Path(k, p + [c]);
  }

  lemma ReachEnds(k: Region, a: Cell, b: Cell)
    requires Reach(k, a, b)
    ensures a in k && b in k
  {
  }

  lemma {:induction false} ReachTrans(k: Region, a: Cell, b: Cell, c: Cell)
    requires Reach(k, a, b) && Reach(k, b, c)
    ensures Reach(k, a, c)
  {
    var p :| Path(k, p) && p[0] == a && p[|p| - 1] == b;
    var q :| Path(k, q) && q[0] == b && q[|q| - 1] == c;
    var r := p + q[1..];
    forall x | 0 < x < |r| ensures Adjacent(r[x - 1], r[x]) {
      if x >= |p| { assert r[x] == q[x - |p| + 1] && r[x - 1] == q[x - |p|]; }
    }
    assert Path(k, r);
  }

  lemma ReachSym(k: Region, a: Cell, b: Cell)
    requires Reach(k, a, b)
    ensures Reach(k, b, a)
  {
    var p :| Path(k, p) && p[0] == a && p[|p| - 1] == b;
    var r := seq(|p|, x requires 0 <= x < |p| => p[|p| - 1 - x]);
    forall x | 0 < x < |r| ensures Adjacent(r[x - 1], r[x]) {
      assert Adjacent(p[|p| - 1 - x], p[|p| - x]);
    }
    assert Path(k, r);
  }

  lemma ReachGrows(k: Region, k': Region, a: Cell, b: Cell)
    requires Reach(k, a, b) && k <= k'
    ensures Reach(k', a, b)
  {
    var p :| Path(k, p) && p[0] == a && p[|p| - 1] == b;
    assert Path(k', p);
  }

  /** A set that holds a start and is closed under adjacency in the region holds all it reaches. */
  lemma {:induction false} ReachClosed(k: Region, s: Region, a: Cell, b: Cell)
    requires Reach(k, a, b) && a in s
    requires forall x, y :: x in s && y in k && Adjacent(x, y) ==> y in s
    ensures b in s
  {
    var p :| Path(k, p) && p[0] == a && p[|p| - 1] == b;
    PathClosed(k, s, p);
  }

  lemma {:induction false} PathClosed(k: Region, s: Region, p: seq<Cell>)
    requires Path(k, p) && p[0] in s
    requires forall x, y :: x in s && y in k && Adjacent(x, y) ==> y in s
    ensures p[|p| - 1] in s
  {
    if |p| > 1 {
      var n := |p| - 1;
      assert Path(k, p[..n]);
      PathClosed(k, s, p[..n]);
      assert Adjacent(p[n - 1], p[n]);
    }
  }

  ghost function Component(k: Region, a: Cell): Region { set c <- k | Reach(k, a, c) }

  ghost predicate Connected(k: Region) { forall a, b :: a in k && b in k ==> Reach(k, a, b) }

  /** The cells an array of flags marks. */
  ghost function Marked(f: array2<bool>): Region
    reads f
  {
    set i, j | 0 <= i < f.Length0 && 0 <= j < f.Length1 && f[i, j] :: Cell(i, j)
  }

  predicate InGrid(c: Cell, w: int, h: int) { 0 <= c.i < w && 0 <= c.j < h }

  /** Raster order: by row, then column. */
  predicate RasterLess(a: Cell, b: Cell) { a.j < b.j || (a.j == b.j && a.i < b.i) }
}
