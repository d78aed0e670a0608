/** Hole filling on a raster window (fillHoles in internal/site/geom.go). */
module Holes {
  import opened Grid
  import opened Components

  ghost function Window(w: int, h: int): Region { set i, j | 0 <= i < w && 0 <= j < h :: Cell(i, j) }

  lemma WindowCell(w: int, h: int, c: Cell)
    ensures c in Window(w, h) <==> InGrid(c, w, h)
  {
  }

  predicate OnBorder(c: Cell, w: int, h: int) {
    InGrid(c, w, h) && (c.i == 0 || c.j == 0 || c.i == w - 1 || c.j == h - 1)
  }

  /** The border is where a step can leave the window. */
  lemma BorderExactly(c: Cell, w: int, h: int)
    requires InGrid(c, w, h)
    ensures OnBorder(c, w, h) <==> exists d :: Adjacent(c, d) && !InGrid(d, w, h)
  {
    if OnBorder(c, w, h) {
      var d := if c.i == 0 then Cell(-1, c.j) else if c.j == 0 then Cell(c.i, -1)
               else if c.i == w - 1 then Cell(w, c.j) else Cell(c.i, h);
      assert Adjacent(c, d);
    }
  }

  /** `c` can be reached from the window border through cells of `u`. */
  ghost predicate FromBorder(u: Region, w: int, h: int, c: Cell) {
    exists b :: OnBorder(b, w, h) && Reach(u, b, c)
  }

  /** `seen` is reached from the border; only cells on the stack may have unseen neighbours in `u`. */
  ghost predicate Spreading(u: Region, w: int, h: int, seen: Region, stack: seq<Cell>) {
    && seen <= u
    && (forall c <- seen :: FromBorder(u, w, h, c))
    && (forall c <- stack :: c in seen)
    && (forall a, b :: a in seen && a !in stack && b in u && Adjacent(a, b) ==> b in seen)
  }

  /** Everything but the popped cell `c` obeys `Spreading`; its first `d` neighbours are in. */
  ghost predicate Widening(u: Region, w: int, h: int, seen: Region, stack: seq<Cell>, c: Cell, d: int) {
    && seen <= u && c in seen
    && (forall x <- seen :: FromBorder(u, w, h, x))
    && (forall x <- stack :: x in seen)
    && (forall a, b :: a in seen && a !in stack && a != c && b in u && Adjacent(a, b) ==> b in seen)
    && (forall e :: 0 <= e < d <= 4 && Neighbour(c, e) in u ==> Neighbour(c, e) in seen)
  }

  lemma SpreadStart(u: Region, w: int, h: int)
    ensures Spreading(u, w, h, {}, [])
  {
  }

  lemma BorderPush(u: Region, w: int, h: int, seen: Region, stack: seq<Cell>, c: Cell)
    requires Spreading(u, w, h, seen, stack) && OnBorder(c, w, h) && c in u
    ensures Spreading(u, w, h, seen + {c}, stack + [c])
  {
    hide Adjacent;
    ReachSelf(u, c);
    assert forall x :: x in stack + [c] <==> x in stack || x == c;
  }

  lemma PopWidens(u: Region, w: int, h: int, seen: Region, stack: seq<Cell>)
    requires Spreading(u, w, h, seen, stack) && stack != []
    ensures Widening(u, w, h, seen, stack[..|stack| - 1], stack[|stack| - 1], 0)
  {
    hide Adjacent, FromBorder;
    assert stack == stack[..|stack| - 1] + [stack[|stack| - 1]];
  }

  lemma PushWidens(u: Region, w: int, h: int, seen: Region, stack: seq<Cell>, c: Cell, d: int)
    requires 0 <= d < 4 && Widening(u, w, h, seen, stack, c, d)
    ensures var n := Neighbour(c, d);
            && (n in u ==> Widening(u, w, h, seen + {n}, stack + [n], c, d + 1))
            && (n !in u || n in seen ==> Widening(u, w, h, seen, stack, c, d + 1))
  {
    var n := Neighbour(c, d);
    NeighbourMeaning(c, n);
    hide Adjacent, Neighbour;
    if n in u {
      BorderStep(u, w, h, c, n);
      hide FromBorder;
      assert forall x :: x in stack + [n] <==> x in stack || x == n;
    }
  }

  lemma BorderStep(u: Region, w: int, h: int, c: Cell, n: Cell)
    requires FromBorder(u, w, h, c) && n in u && Adjacent(c, n)
    ensures FromBorder(u, w, h, n)
  {
    var b :| OnBorder(b, w, h) && Reach(u, b, c);
    ReachStep(u, b, c, n);
  }

  lemma WidenDone(u: Region, w: int, h: int, seen: Region, stack: seq<Cell>, c: Cell)
    requires Widening(u, w, h, seen, stack, c, 4)
    ensures Spreading(u, w, h, seen, stack)
  {
    hide Adjacent, Neighbour, FromBorder;
    forall a, b | a in seen && a !in stack && b in u && Adjacent(a, b) ensures b in seen {
      if a == c {
        NeighbourMeaning(a, b);
        var e :| 0 <= e < 4 && Neighbour(a, e) == b;
      }
    }
  }

  lemma SpreadDone(u: Region, w: int, h: int, seen: Region)
    requires Spreading(u, w, h, seen, []) && forall b <- u :: OnBorder(b, w, h) ==> b in seen
    ensures forall c :: c in seen <==> FromBorder(u, w, h, c)
  {
    hide Adjacent, Reach;
    forall c ensures c in seen <==> FromBorder(u, w, h, c) {
      if FromBorder(u, w, h, c) {
        var b :| OnBorder(b, w, h) && Reach(u, b, c);
        ReachEnds(u, b, c);
        ReachClosed(u, seen, b, c);
      }
    }
  }

  // ----- what filling does to a region ---------------------------------------------------------------

  /** The region with its holes filled: all window cells the outside cannot reach. */
  ghost function Filled(k: Region, w: int, h: int): Region {
    set c <- Window(w, h) | !FromBorder(Window(w, h) - k, w, h, c)
  }

  lemma FilledKeeps(k: Region, w: int, h: int)
    requires k <= Window(w, h)
    ensures k <= Filled(k, w, h)
  {
    hide Reach;
    forall c <- k ensures !FromBorder(Window(w, h) - k, w, h, c) {
      if b :| OnBorder(b, w, h) && Reach(Window(w, h) - k, b, c) { ReachEnds(Window(w, h) - k, b, c); }
    }
  }

  /** Nothing outside a filled region is cut off from the border. */
  lemma FilledOutside(k: Region, w: int, h: int, c: Cell)
    requires c in Window(w, h) && c !in Filled(k, w, h)
    ensures FromBorder(Window(w, h) - Filled(k, w, h), w, h, c)
  {
    hide Reach, Adjacent;
    var u, out := Window(w, h) - k, Window(w, h) - Filled(k, w, h);
    var b :| OnBorder(b, w, h) && Reach(u, b, c);
    OutsidePath(k, w, h, b, c);
  }

  /** A path from the border stays outside: every cell on it is reached from the border too. */
  lemma OutsidePath(k: Region, w: int, h: int, b: Cell, c: Cell)
    requires OnBorder(b, w, h) && Reach(Window(w, h) - k, b, c)
    ensures Reach(Window(w, h) - Filled(k, w, h), b, c)
  {
    var u, out := Window(w, h) - k, Window(w, h) - Filled(k, w, h);
    var p :| Path(u, p) && p[0] == b && p[|p| - 1] == c;
    forall x | 0 <= x < |p| ensures p[x] in out {
      assert Path(u, p[..x + 1]);
      assert Reach(u, b, p[x]);
      assert FromBorder(u, w, h, p[x]);
    }
    assert Path(out, p);
  }

  /** Going left from a filled hole meets the region before the border: holes hang on to it. */
  lemma {:induction false} HoleTouches(k: Region, w: int, h: int, c: Cell) returns (a: Cell)
    requires k <= Window(w, h) && c in Filled(k, w, h)
    ensures a in k && Reach(Filled(k, w, h), a, c)
    decreases c.i
  {
    hide Reach;
    var u, f := Window(w, h) - k, Filled(k, w, h);
    assert InGrid(c, w, h);
    if c in k {
      a := c;
      ReachSelf(f, c);
    } else {
      assert c in u;
      if c.i == 0 {
        assert OnBorder(c, w, h);
        ReachSelf(u, c);
        assert false;
      }
      var l := Cell(c.i - 1, c.j);
      assert l in f by {
        if FromBorder(u, w, h, l) {
          BorderStep(u, w, h, l, c);
        }
      }
      a := HoleTouches(k, w, h, l);
      ReachStep(f, a, l, c);
    }
  }

  /** Filling the holes of a connected region leaves it connected. */
  lemma FilledConnected(k: Region, w: int, h: int)
    requires k <= Window(w, h) && Connected(k)
    ensures Connected(Filled(k, w, h))
  {
    hide Reach, Filled;
    FilledKeeps(k, w, h);
    var f := Filled(k, w, h);
    forall x, y | x in f && y in f ensures Reach(f, x, y) {
      var a := HoleTouches(k, w, h, x);
      var b := HoleTouches(k, w, h, y);
      ReachGrows(k, f, a, b);
      ReachSym(f, a, x);
      ReachTrans(f, x, a, b);
      ReachTrans(f, x, b, y);
    }
  }

  // ----- the fill in place -----------------------------------------------------------------------------

  /** Marks an unkept cell as outside and queues it, once. */
  method Push(keep: array2<bool>, outside: array2<bool>, stack: seq<Cell>, c: Cell) returns (stack': seq<Cell>)
    requires SameSize(keep, outside) && keep != outside && InGrid(c, keep.Length0, keep.Length1)
    modifies outside
    ensures var fresh_ := !keep[c.i, c.j] && !old(outside[c.i, c.j]);
            && stack' == (if fresh_ then stack + [c] else stack)
            && (forall i, j :: 0 <= i < outside.Length0 && 0 <= j < outside.Length1 ==>
                  (outside[i, j] <==> old(outside[i, j]) || (fresh_ && i == c.i && j == c.j)))
  {
    stack' := stack;
    if !keep[c.i, c.j] && !outside[c.i, c.j] {
      outside[c.i, c.j] := true;
      stack' := stack + [c];
    }
  }

  /** Queues a border cell if it is not kept. */
  method PushBorder(keep: array2<bool>, outside: array2<bool>, stack: seq<Cell>, c: Cell, ghost u: Region,
                    ghost seen: Region)
      returns (stack': seq<Cell>, ghost seen': Region)
    requires SameSize(keep, outside) && keep != outside && OnBorder(c, keep.Length0, keep.Length1)
    requires Unkept(keep, u) && Spreading(u, keep.Length0, keep.Length1, seen, stack) && OutsideIs(outside, seen)
    requires |stack| == |seen|
    modifies outside
    ensures Spreading(u, keep.Length0, keep.Length1, seen', stack') && OutsideIs(outside, seen')
    ensures |stack'| == |seen'| && seen <= seen' && (c in u ==> c in seen')
  {
    hide Adjacent, Reach, FromBorder;
    if c in u { BorderPush(u, keep.Length0, keep.Length1, seen, stack, c); }
    hide Spreading;
    stack' := Push(keep, outside, stack, c);
    seen' := if c in u && c !in seen then seen + {c} else seen;
  }

  /** Widens from the stacked cells until nothing is left to look at. */
  method Spread(keep: array2<bool>, outside: array2<bool>, stack0: seq<Cell>, ghost u: Region, ghost seen0: Region)
      returns (ghost seen: Region)
    requires SameSize(keep, outside) && keep != outside && Unkept(keep, u)
    requires Spreading(u, keep.Length0, keep.Length1, seen0, stack0) && OutsideIs(outside, seen0) && |stack0| == |seen0|
    modifies outside
    ensures Spreading(u, keep.Length0, keep.Length1, seen, []) && OutsideIs(outside, seen) && seen0 <= seen
  {
    hide Adjacent, Reach, FromBorder, Widening, Neighbour;
    var w, h := keep.Length0, keep.Length1;
    var stack := stack0;
    seen := seen0;
    ghost var n := 0;
    while stack != []
      invariant Spreading(u, w, h, seen, stack) && OutsideIs(outside, seen) && seen0 <= seen && n + |stack| == |seen|
      decreases |u| - n
    {
      SubsetSize(seen, u);
      var c := stack[|stack| - 1];
      PopWidens(u, w, h, seen, stack);
      stack := stack[..|stack| - 1];
      n := n + 1;
      hide Spreading;
      for d := 0 to 4
        invariant Widening(u, w, h, seen, stack, c, d) && OutsideIs(outside, seen) && seen0 <= seen
                  && n + |stack| == |seen|
      {
        var nb := Neighbour(c, d);
        PushWidens(u, w, h, seen, stack, c, d);
        if InGrid(nb, w, h) {
          stack := Push(keep, outside, stack, nb);
          if nb in u && nb !in seen { seen := seen + {nb}; }
        }
      }
      WidenDone(u, w, h, seen, stack, c);
    }
  }

  /** Keeps every cell that is not outside. */
  method SetUnless(keep: array2<bool>, outside: array2<bool>)
    requires SameSize(keep, outside) && keep != outside
    modifies keep
    ensures forall c :: InGrid(c, keep.Length0, keep.Length1) ==>
              (keep[c.i, c.j] <==> old(keep[c.i, c.j]) || !outside[c.i, c.j])
  {
    forall i, j | 0 <= i < keep.Length0 && 0 <= j < keep.Length1 && !outside[i, j] {
      keep[i, j] := true;
    }
  }

  ghost predicate OutsideIs(outside: array2<bool>, seen: Region)
    reads outside
  {
    forall c :: InGrid(c, outside.Length0, outside.Length1) ==> (outside[c.i, c.j] <==> c in seen)
  }

  /** `u` is the window's unkept cells. */
  ghost predicate Unkept(keep: array2<bool>, u: Region)
    reads keep
  {
    forall c :: c in u <==> InGrid(c, keep.Length0, keep.Length1) && !keep[c.i, c.j]
  }

  lemma UnkeptIs(keep: array2<bool>, w: int, h: int)
    requires keep.Length0 == w && keep.Length1 == h
    ensures Marked(keep) <= Window(w, h) && Unkept(keep, Window(w, h) - Marked(keep))
    ensures forall c :: InGrid(c, w, h) ==> (keep[c.i, c.j] <==> c in Marked(keep))
  {
    forall c ensures c in Marked(keep) ==> c in Window(w, h) { MarkedCell(keep, c); WindowCell(w, h, c); }
    forall c ensures c in Window(w, h) - Marked(keep) <==> InGrid(c, w, h) && !keep[c.i, c.j] {
      MarkedCell(keep, c);
      WindowCell(w, h, c);
    }
    forall c ensures InGrid(c, w, h) ==> (keep[c.i, c.j] <==> c in Marked(keep)) { MarkedCell(keep, c); }
  }

  lemma FilledIs(f: array2<bool>, k: Region, u: Region, seen: Region)
    requires k <= Window(f.Length0, f.Length1) && u == Window(f.Length0, f.Length1) - k
    requires forall c :: c in seen <==> FromBorder(u, f.Length0, f.Length1, c)
    requires forall c :: InGrid(c, f.Length0, f.Length1) ==> (f[c.i, c.j] <==> c in k || c !in seen)
    ensures Marked(f) == Filled(k, f.Length0, f.Length1)
  {
    var w, h := f.Length0, f.Length1;
    FilledKeeps(k, w, h);
    hide FromBorder;
    forall c ensures c in Marked(f) <==> c in Filled(k, w, h) { MarkedCell(f, c); WindowCell(w, h, c); }
  }

  /** The first and last rows' unkept cells are seen, up to column `i`. */
  ghost predicate RowsSeen(u: Region, seen: Region, h: int, i: int) {
    forall b <- u :: 0 <= b.i < i && (b.j == 0 || b.j == h - 1) ==> b in seen
  }

  /** The first and last columns' unkept cells are seen, up to row `j`. */
  ghost predicate ColumnsSeen(u: Region, seen: Region, w: int, j: int) {
    forall b <- u :: 0 <= b.j < j && (b.i == 0 || b.i == w - 1) ==> b in seen
  }

  /** Sets every cell that is not 4-connected to the window border through unkept cells. */
  method FillHoles(keep: array2<bool>)
    requires keep.Length0 > 0 && keep.Length1 > 0
    modifies keep
    ensures Marked(keep) == Filled(old(Marked(keep)), keep.Length0, keep.Length1)
  {
    hide Adjacent, Reach, FromBorder, Marked, Window, Filled, Spreading;
    var w, h := keep.Length0, keep.Length1;
    ghost var k := Marked(keep);
    ghost var u := Window(w, h) - k;
    UnkeptIs(keep, w, h);
    var outside := new bool[w, h]((_, _) => false);
    var stack: seq<Cell> := [];
    ghost var seen: Region := {};
    SpreadStart(u, w, h);
    for i := 0 to w
      invariant SameSize(keep, outside) && fresh(outside) && unchanged(keep) && Unkept(keep, u)
      invariant Spreading(u, w, h, seen, stack) && OutsideIs(outside, seen) && |stack| == |seen|
      invariant RowsSeen(u, seen, h, i)
    {
      stack, seen := PushBorder(keep, outside, stack, Cell(i, 0), u, seen);
      stack, seen := PushBorder(keep, outside, stack, Cell(i, h - 1), u, seen);
    }
    for j := 0 to h
      invariant SameSize(keep, outside) && fresh(outside) && unchanged(keep) && Unkept(keep, u)
      invariant Spreading(u, w, h, seen, stack) && OutsideIs(outside, seen) && |stack| == |seen|
      invariant RowsSeen(u, seen, h, w)
      invariant ColumnsSeen(u, seen, w, j)
    {
      stack, seen := PushBorder(keep, outside, stack, Cell(0, j), u, seen);
      stack, seen := PushBorder(keep, outside, stack, Cell(w - 1, j), u, seen);
    }
    assert forall b <- u :: OnBorder(b, w, h) ==> b in seen;
    seen := Spread(keep, outside, stack, u, seen);
    SpreadDone(u, w, h, seen);
    SetUnless(keep, outside);
    FilledIs(keep, k, u, seen);
  }
}
