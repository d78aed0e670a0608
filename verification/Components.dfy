/** Flood fill, largest component and hole filling on a raster window (internal/site/geom.go). */
module Components {
  import opened Grid

  predicate SameSize<S, T>(a: array2<S>, b: array2<T>) { a.Length0 == b.Length0 && a.Length1 == b.Length1 }

  lemma MarkedCell(f: array2<bool>, c: Cell)
    ensures c in Marked(f) <==> InGrid(c, f.Length0, f.Length1) && f[c.i, c.j]
  {
  }

  /** Cells marked in `cells`, by their label; 0 is no label. */
  ghost function Label(comp: array2<int>, c: Cell): int
    reads comp
  {
    if InGrid(c, comp.Length0, comp.Length1) then comp[c.i, c.j] else 0
  }

  /** Labels so far: only on cells of the region, and whole components at a time. */
  ghost predicate Labelled(k: Region, comp: array2<int>)
    reads comp
  {
    && (forall c :: Label(comp, c) != 0 ==> c in k)
    && (forall a, b :: a in k && b in k && Adjacent(a, b) && Label(comp, a) != 0 ==> Label(comp, b) == Label(comp, a))
  }

  /** What the fill has found so far: `seen` is reached from the start, and only cells still on the
      stack may have neighbours outside it. */
  ghost predicate Filling(k: Region, start: Cell, seen: Region, stack: seq<Cell>) {
    && start in seen && seen <= k
    && (forall c <- seen :: Reach(k, start, c))
    && (forall c <- stack :: c in seen)
    && (forall a, b :: a in seen && a !in stack && b in k && Adjacent(a, b) ==> b in seen)
  }

  /** Everything but the popped cell `c` obeys `Filling`; its first `d` neighbours are in. */
  ghost predicate Expanding(k: Region, start: Cell, seen: Region, stack: seq<Cell>, c: Cell, d: int) {
    && start in seen && seen <= k && c in seen
    && (forall x <- seen :: Reach(k, start, x))
    && (forall x <- stack :: x in seen)
    && (forall a, b :: a in seen && a !in stack && a != c && b in k && Adjacent(a, b) ==> b in seen)
    && (forall e :: 0 <= e < d <= 4 && Neighbour(c, e) in k ==> Neighbour(c, e) in seen)
  }

  lemma PopStarts(k: Region, start: Cell, seen: Region, stack: seq<Cell>)
    requires Filling(k, start, seen, stack) && stack != []
    ensures Expanding(k, start, seen, stack[..|stack| - 1], stack[|stack| - 1], 0)
  {
    hide Adjacent;
    var rest, c := stack[..|stack| - 1], stack[|stack| - 1];
    assert stack == rest + [c];
  }

  lemma PushNeighbour(k: Region, start: Cell, seen: Region, stack: seq<Cell>, c: Cell, d: int)
    requires 0 <= d < 4 && Expanding(k, start, seen, stack, c, d)
    ensures var n := Neighbour(c, d);
            && (n in k ==> Expanding(k, start, seen + {n}, stack + [n], c, d + 1))
            && (n !in k || n in seen ==> Expanding(k, start, seen, stack, c, d + 1))
  {
    var n := Neighbour(c, d);
    NeighbourMeaning(c, n);
    hide Adjacent, Neighbour;
    if n in k {
      ReachStep(k, start, c, n);
      assert forall x :: x in stack + [n] <==> x in stack || x == n;
    }
  }

  lemma ExpandDone(k: Region, start: Cell, seen: Region, stack: seq<Cell>, c: Cell)
    requires Expanding(k, start, seen, stack, c, 4)
    ensures Filling(k, start, seen, stack)
  {
    hide Adjacent, Neighbour;
    forall a, b | a in seen && a !in stack && b in k && Adjacent(a, b) ensures b in seen {
      if a == c {
        NeighbourMeaning(a, b);
        var e :| 0 <= e < 4 && Neighbour(a, e) == b;
      }
    }
  }

  lemma FillDone(k: Region, start: Cell, seen: Region)
    requires Filling(k, start, seen, [])
    ensures seen == Component(k, start)
  {
    hide Reach, Adjacent;
    forall c ensures c in seen <==> c in Component(k, start) {
      if c in Component(k, start) { ReachClosed(k, seen, start, c); }
    }
  }

  lemma SubsetSize<T>(a: set<T>, b: set<T>)
    requires a <= b
    ensures |a| <= |b|
  {
    assert b == a + (b - a);
  }

  /** Cells of the region without a label. */
  ghost function Unlabelled(k: Region, comp: array2<int>): Region
    reads comp
  {
    set c <- k | Label(comp, c) == 0
  }

  lemma UnlabelledClosed(k: Region, comp: array2<int>)
    requires Labelled(k, comp)
    ensures forall a, b :: a in Unlabelled(k, comp) && b in k && Adjacent(a, b) ==> b in Unlabelled(k, comp)
  {
    forall a, b | a in Unlabelled(k, comp) && b in k && Adjacent(a, b) ensures b in Unlabelled(k, comp) {
      assert Adjacent(b, a);
    }
  }

  lemma StartFill(k: Region, start: Cell)
    requires start in k
    ensures Filling(k, start, {start}, [start])
  {
    ReachSelf(k, start);
  }

  /** Labels the whole component of `start` with `id` and counts its cells. */
  method Flood(cells: array2<bool>, comp: array2<int>, id: int, start: Cell) returns (n: nat)
    requires SameSize(cells, comp) && id > 0 && start in Marked(cells)
    requires Labelled(Marked(cells), comp) && Label(comp, start) == 0 && forall c :: Label(comp, c) != id
    modifies comp
    ensures forall c :: Label(comp, c) == if c in Component(Marked(cells), start) then id else old(Label(comp, c))
    ensures n == |Component(Marked(cells), start)|
  {
    hide Adjacent, Reach, Component, Marked, Labelled;
    ghost var k := Marked(cells);
    MarkedCell(cells, start);
    ghost var free := Unlabelled(k, comp);
    UnlabelledClosed(k, comp);
    comp[start.i, start.j] := id;
    ghost var seen := {start};
    var stack := [start];
    n := 0;
    StartFill(k, start);
    while stack != []
      invariant Filling(k, start, seen, stack) && n + |stack| == |seen| && seen <= free
      invariant forall c :: Label(comp, c) == if c in seen then id else old(Label(comp, c))
      decreases |k| - n
    {
      SubsetSize(seen, k);
      var c := stack[|stack| - 1];
      PopStarts(k, start, seen, stack);
      stack := stack[..|stack| - 1];
      n := n + 1;
      for d := 0 to 4
        invariant Expanding(k, start, seen, stack, c, d) && n + |stack| == |seen| && seen <= free
        invariant forall x :: Label(comp, x) == if x in seen then id else old(Label(comp, x))
      {
        hide Filling;
        var nb := Neighbour(c, d);
        PushNeighbour(k, start, seen, stack, c, d);
        NeighbourMeaning(c, nb);
        MarkedCell(cells, nb);
        assert nb in k ==> nb in free;
        hide Expanding;
        if InGrid(nb, cells.Length0, cells.Length1) && cells[nb.i, nb.j] && comp[nb.i, nb.j] == 0 {
          assert nb !in seen;
          comp[nb.i, nb.j] := id;
          stack := stack + [nb];
          seen := seen + {nb};
        } else {
          assert nb in k ==> nb in seen;
        }
      }
      ExpandDone(k, start, seen, stack, c);
    }
    FillDone(k, start, seen);
  }

  // ----- the largest component ---------------------------------------------------------------------

  lemma ComponentOf(k: Region, a: Cell, b: Cell)
    requires a in k && b in Component(k, a)
    ensures Component(k, b) == Component(k, a)
  {
    hide Reach;
    ReachSym(k, a, b);
    forall c ensures c in Component(k, b) <==> c in Component(k, a) {
      if c in Component(k, a) { ReachTrans(k, b, a, c); }
      if c in Component(k, b) { ReachTrans(k, a, b, c); }
    }
  }

  /** The scan so far: label m + 1 marks exactly the component of seed m, seeds come in raster order
      and each is the raster-first cell of its component. */
  ghost predicate Scanned(k: Region, lab: map<Cell, int>, seeds: seq<Cell>) {
    lab.Keys == k && SeedsIn(k, seeds) && LabelsSound(k, lab, seeds) && SeedsComplete(k, lab, seeds)
      && SeedsOrdered(seeds)
  }

  ghost predicate SeedsIn(k: Region, seeds: seq<Cell>) { forall m :: 0 <= m < |seeds| ==> seeds[m] in k }

  ghost predicate LabelsSound(k: Region, lab: map<Cell, int>, seeds: seq<Cell>)
    requires lab.Keys == k
  {
    forall c <- k :: 0 <= lab[c] <= |seeds| && (lab[c] > 0 ==> c in Component(k, seeds[lab[c] - 1]))
  }

  ghost predicate SeedsComplete(k: Region, lab: map<Cell, int>, seeds: seq<Cell>)
    requires lab.Keys == k
  {
    forall m :: 0 <= m < |seeds| ==> SeedOf(k, lab, seeds[m], m + 1)
  }

  ghost predicate SeedsOrdered(seeds: seq<Cell>) {
    forall m, m' :: 0 <= m < m' < |seeds| ==> RasterLess(seeds[m], seeds[m'])
  }

  /** Label `l` is on the whole component of `s`, of which `s` is the raster-first cell. */
  ghost predicate SeedOf(k: Region, lab: map<Cell, int>, s: Cell, l: int)
    requires lab.Keys == k
  {
    forall c <- Component(k, s) :: lab[c] == l && (c == s || RasterLess(s, c))
  }

  /** The label of the first seed whose component has the most cells, and that number. */
  ghost predicate Best(k: Region, seeds: seq<Cell>, bestID: int, bestN: int) {
    if seeds == [] then bestID == 0 && bestN == 0
    else
      && 1 <= bestID <= |seeds| && bestN == |Component(k, seeds[bestID - 1])|
      && (forall m :: 0 <= m < |seeds| ==> |Component(k, seeds[m])| <= bestN)
      && (forall m :: 0 <= m < bestID - 1 ==> |Component(k, seeds[m])| < bestN)
  }

  /** `s` is the raster-first cell of a component that no other exceeds; among equals it comes first. */
  ghost predicate Largest(k: Region, s: Cell) {
    && s in k
    && (forall x <- Component(k, s) :: x == s || RasterLess(s, x))
    && (forall c <- k :: |Component(k, c)| <= |Component(k, s)|)
    && (forall c <- k :: |Component(k, c)| == |Component(k, s)| && c !in Component(k, s) ==>
          forall x <- Component(k, c) :: RasterLess(s, x))
  }

  lemma ScannedIsLabelled(k: Region, comp: array2<int>, lab: map<Cell, int>, seeds: seq<Cell>)
    requires Scanned(k, lab, seeds) && forall c :: Label(comp, c) == if c in k then lab[c] else 0
    ensures Labelled(k, comp)
  {
    hide RasterLess, Adjacent;
    forall a, b | a in k && b in k && Adjacent(a, b) && Label(comp, a) != 0 ensures Label(comp, b) == Label(comp, a) {
      var s := seeds[lab[a] - 1];
      ReachStep(k, s, a, b);
      assert SeedOf(k, lab, s, lab[a]) && b in Component(k, s);
    }
  }

  /** The scan has passed every cell before `at` in raster order, and no seed lies further on. */
  ghost predicate ScannedTo(k: Region, lab: map<Cell, int>, seeds: seq<Cell>, at: Cell) {
    && lab.Keys == k
    && (forall c <- k :: RasterLess(c, at) ==> lab[c] > 0)
    && (forall m :: 0 <= m < |seeds| ==> RasterLess(seeds[m], at))
  }

  ghost predicate ScanState(k: Region, comp: array2<int>, lab: map<Cell, int>, seeds: seq<Cell>, bestID: int,
                            bestN: int, id: int)
    reads comp
  {
    && Scanned(k, lab, seeds) && Best(k, seeds, bestID, bestN) && id == |seeds|
    && forall c :: Label(comp, c) == if c in k then lab[c] else 0
  }

  lemma ScanStart(k: Region, lab: map<Cell, int>)
    requires lab.Keys == k && forall c <- k :: lab[c] == 0 && c.i >= 0 && c.j >= 0
    ensures Scanned(k, lab, []) && Best(k, [], 0, 0) && ScannedTo(k, lab, [], Cell(0, 0))
  {
  }

  lemma FreshLabel(k: Region, comp: array2<int>, lab: map<Cell, int>, seeds: seq<Cell>)
    requires Scanned(k, lab, seeds) && forall c :: Label(comp, c) == if c in k then lab[c] else 0
    ensures forall c :: Label(comp, c) != |seeds| + 1
  {
    hide Component, RasterLess;
  }

  lemma InOwn(k: Region, a: Cell)
    requires a in k
    ensures a in Component(k, a)
  {
    ReachSelf(k, a);
  }

  /** Having labelled the cell at (i, j), the scan moves on. */
  lemma ScanOn(k: Region, lab: map<Cell, int>, seeds: seq<Cell>, i: int, j: int)
    requires lab.Keys == k
    requires forall c <- k :: c == Cell(i, j) || RasterLess(c, Cell(i, j)) ==> lab[c] > 0
    requires forall m :: 0 <= m < |seeds| ==> seeds[m] == Cell(i, j) || RasterLess(seeds[m], Cell(i, j))
    ensures ScannedTo(k, lab, seeds, Cell(i + 1, j))
  {
  }

  lemma RowDone(k: Region, lab: map<Cell, int>, seeds: seq<Cell>, w: int, h: int, j: int)
    requires ScannedTo(k, lab, seeds, Cell(w, j)) && forall c <- k :: InGrid(c, w, h)
    ensures ScannedTo(k, lab, seeds, Cell(0, j + 1))
  {
  }

  lemma AllRowsDone(k: Region, lab: map<Cell, int>, seeds: seq<Cell>, w: int, h: int)
    requires ScannedTo(k, lab, seeds, Cell(0, h)) && forall c <- k :: InGrid(c, w, h)
    ensures forall c <- k :: lab[c] > 0
  {
  }

  lemma MarkedInGrid(f: array2<bool>)
    ensures forall c <- Marked(f) :: InGrid(c, f.Length0, f.Length1)
  {
  }

  /** The component of an unlabelled cell is unlabelled. */
  lemma NewComponent(k: Region, lab: map<Cell, int>, seeds: seq<Cell>, start: Cell)
    requires Scanned(k, lab, seeds) && start in k && lab[start] == 0
    ensures forall c <- Component(k, start) :: lab[c] == 0
  {
    hide RasterLess, Reach;
    forall c <- Component(k, start) ensures lab[c] == 0 {
      if lab[c] > 0 {
        var s := seeds[lab[c] - 1];
        ReachSym(k, start, c);
        LabelExact(k, lab, seeds, lab[c] - 1, start);
        ReachTrans(k, s, c, start);
      }
    }
  }

  /** A new component: its start is the raster-first unlabelled cell. */
  lemma ScanStep(k: Region, lab: map<Cell, int>, lab': map<Cell, int>, seeds: seq<Cell>, start: Cell)
    requires Scanned(k, lab, seeds) && start in k && lab[start] == 0 && lab'.Keys == k
    requires ScannedTo(k, lab, seeds, start)
    requires forall c <- k :: lab'[c] == if c in Component(k, start) then |seeds| + 1 else lab[c]
    ensures Scanned(k, lab', seeds + [start])
  {
    hide RasterLess, Component, SeedOf, LabelsSound, SeedsComplete, SeedsOrdered;
    NewComponent(k, lab, seeds, start);
    ComponentInside(k, start);
    AllSound(k, lab, lab', seeds, start);
    AllComplete(k, lab, lab', seeds, start);
    AllOrdered(k, lab, seeds, start);
  }

  lemma AllOrdered(k: Region, lab: map<Cell, int>, seeds: seq<Cell>, start: Cell)
    requires SeedsOrdered(seeds) && ScannedTo(k, lab, seeds, start)
    ensures SeedsOrdered(seeds + [start])
  {
    hide RasterLess;
  }

  lemma AllSound(k: Region, lab: map<Cell, int>, lab': map<Cell, int>, seeds: seq<Cell>, start: Cell)
    requires Scanned(k, lab, seeds) && lab'.Keys == k
    requires forall c <- k :: lab'[c] == if c in Component(k, start) then |seeds| + 1 else lab[c]
    ensures LabelsSound(k, lab', seeds + [start])
  {
    hide RasterLess, Component, Scanned;
    forall c <- k
      ensures 0 <= lab'[c] <= |seeds| + 1
              && (lab'[c] > 0 ==> c in Component(k, (seeds + [start])[lab'[c] - 1])) {
      LabelSound(k, lab, lab', seeds, start, c);
    }
  }

  lemma AllComplete(k: Region, lab: map<Cell, int>, lab': map<Cell, int>, seeds: seq<Cell>, start: Cell)
    requires Scanned(k, lab, seeds) && lab'.Keys == k && ScannedTo(k, lab, seeds, start) && start in k
    requires forall c <- Component(k, start) :: c in k && lab[c] == 0
    requires forall c <- k :: lab'[c] == if c in Component(k, start) then |seeds| + 1 else lab[c]
    ensures SeedsComplete(k, lab', seeds + [start])
  {
    hide RasterLess, Component, Scanned, SeedOf, ScannedTo;
    var seeds' := seeds + [start];
    NewSeed(k, lab, lab', seeds, start);
    forall m | 0 <= m < |seeds'| ensures SeedOf(k, lab', seeds'[m], m + 1) {
      if m < |seeds| { OldSeed(k, lab, lab', seeds, start, m); }
    }
  }

  lemma NewSeed(k: Region, lab: map<Cell, int>, lab': map<Cell, int>, seeds: seq<Cell>, start: Cell)
    requires ScannedTo(k, lab, seeds, start) && lab'.Keys == k && Component(k, start) <= k
    requires forall c <- Component(k, start) :: lab[c] == 0
    requires forall c <- k :: lab'[c] == if c in Component(k, start) then |seeds| + 1 else lab[c]
    ensures SeedOf(k, lab', start, |seeds| + 1)
  {
    hide RasterLess, Component;
    forall c <- Component(k, start) ensures c == start || RasterLess(start, c) { RasterTotal(start, c); }
  }

  lemma LabelSound(k: Region, lab: map<Cell, int>, lab': map<Cell, int>, seeds: seq<Cell>, start: Cell, c: Cell)
    requires Scanned(k, lab, seeds) && lab'.Keys == k && c in k
    requires lab'[c] == if c in Component(k, start) then |seeds| + 1 else lab[c]
    ensures 0 <= lab'[c] <= |seeds| + 1 && (lab'[c] > 0 ==> c in Component(k, (seeds + [start])[lab'[c] - 1]))
  {
    hide RasterLess, Component, SeedOf;
  }

  lemma LabelExact(k: Region, lab: map<Cell, int>, seeds: seq<Cell>, m: nat, c: Cell)
    requires Scanned(k, lab, seeds) && m < |seeds| && c in k
    ensures lab[c] == m + 1 <==> c in Component(k, seeds[m])
  {
    hide RasterLess, Component;
    assert SeedOf(k, lab, seeds[m], m + 1);
  }

  lemma ComponentInside(k: Region, a: Cell)
    ensures Component(k, a) <= k
  {
  }

  lemma OldSeed(k: Region, lab: map<Cell, int>, lab': map<Cell, int>, seeds: seq<Cell>, start: Cell, m: nat)
    requires Scanned(k, lab, seeds) && start in k && lab'.Keys == k && m < |seeds|
    requires forall c <- Component(k, start) :: c in k && lab[c] == 0
    requires forall c <- k :: lab'[c] == if c in Component(k, start) then |seeds| + 1 else lab[c]
    ensures SeedOf(k, lab', seeds[m], m + 1)
  {
    hide RasterLess, Component;
    ComponentInside(k, seeds[m]);
    assert SeedOf(k, lab, seeds[m], m + 1);
  }

  lemma RasterTotal(a: Cell, b: Cell)
    ensures a == b || RasterLess(a, b) || RasterLess(b, a)
    ensures !(RasterLess(a, b) && RasterLess(b, a))
  {
  }

  lemma BestStep(k: Region, seeds: seq<Cell>, start: Cell, bestID: int, bestN: int)
    requires Best(k, seeds, bestID, bestN) && start in Component(k, start)
    ensures var n := |Component(k, start)|;
            if n > bestN then Best(k, seeds + [start], |seeds| + 1, n) else Best(k, seeds + [start], bestID, bestN)
  {
    hide Component;
    var seeds' := seeds + [start];
    assert seeds'[|seeds|] == start && forall m :: 0 <= m < |seeds| ==> seeds'[m] == seeds[m];
    if seeds == [] { assert |Component(k, start)| > 0; }
  }

  lemma ScanDone(k: Region, lab: map<Cell, int>, seeds: seq<Cell>, bestID: int, bestN: int)
    requires Scanned(k, lab, seeds) && Best(k, seeds, bestID, bestN) && forall c <- k :: lab[c] > 0
    ensures k == {} ==> bestID == 0
    ensures k != {} ==> 1 <= bestID <= |seeds| && Largest(k, seeds[bestID - 1])
                        && forall c <- k :: (lab[c] == bestID <==> c in Component(k, seeds[bestID - 1]))
  {
    hide *;
    NoSeeds(k, lab, seeds, bestID, bestN);
    if k != {} {
      var s := seeds[bestID - 1];
      SeedFacts(k, lab, seeds, bestID - 1);
      forall c <- k ensures NotLarger(k, c, s) { Compare(k, lab, seeds, bestID, bestN, c); }
      LargestFrom(k, lab, s, bestID);
      forall c <- k ensures lab[c] == bestID <==> c in Component(k, s) { LabelExact(k, lab, seeds, bestID - 1, c); }
    }
  }

  lemma SeedFacts(k: Region, lab: map<Cell, int>, seeds: seq<Cell>, m: nat)
    requires Scanned(k, lab, seeds) && m < |seeds|
    ensures lab.Keys == k && seeds[m] in k && SeedOf(k, lab, seeds[m], m + 1)
  {
  }

  lemma NoSeeds(k: Region, lab: map<Cell, int>, seeds: seq<Cell>, bestID: int, bestN: int)
    requires Scanned(k, lab, seeds) && Best(k, seeds, bestID, bestN) && forall c <- k :: lab[c] > 0
    ensures k == {} ==> bestID == 0
    ensures k != {} ==> 1 <= bestID <= |seeds|
  {
    hide Component, RasterLess, SeedOf;
    if k != {} {
      var x :| x in k;
      assert 0 < lab[x] <= |seeds|;
    }
    if seeds != [] { assert seeds[0] in k; }
  }

  /** Cell `c`'s component does not beat that of `s`. */
  ghost predicate NotLarger(k: Region, c: Cell, s: Cell) {
    && |Component(k, c)| <= |Component(k, s)|
    && (|Component(k, c)| == |Component(k, s)| && c !in Component(k, s) ==>
        forall x <- Component(k, c) :: RasterLess(s, x))
  }

  lemma Compare(k: Region, lab: map<Cell, int>, seeds: seq<Cell>, bestID: int, bestN: int, c: Cell)
    requires Scanned(k, lab, seeds) && Best(k, seeds, bestID, bestN) && 1 <= bestID <= |seeds| && c in k && lab[c] > 0
    ensures NotLarger(k, c, seeds[bestID - 1])
  {
    hide RasterLess, Component;
    var m, s := lab[c] - 1, seeds[bestID - 1];
    ComponentOf(k, seeds[m], c);
    if |Component(k, c)| == |Component(k, s)| && c !in Component(k, s) {
      assert m > bestID - 1;
      assert SeedOf(k, lab, seeds[m], m + 1);
      forall y <- Component(k, c) ensures RasterLess(s, y) { RasterTrans(s, seeds[m], y); }
    }
  }

  lemma LargestFrom(k: Region, lab: map<Cell, int>, s: Cell, l: int)
    requires lab.Keys == k && s in k && SeedOf(k, lab, s, l) && forall c <- k :: NotLarger(k, c, s)
    ensures Largest(k, s)
  {
    hide RasterLess, Component;
  }

  lemma RasterTrans(a: Cell, b: Cell, c: Cell)
    requires RasterLess(a, b) && (c == b || RasterLess(b, c))
    ensures RasterLess(a, c)
  {
  }

  /** One cell of the scan: an unlabelled cell of the region starts a new component. */
  method VisitCell(cells: array2<bool>, comp: array2<int>, start: Cell, bestID: int, bestN: int, id: int,
                   ghost lab: map<Cell, int>, ghost seeds: seq<Cell>)
    returns (bestID': int, bestN': int, id': int, ghost lab': map<Cell, int>, ghost seeds': seq<Cell>)
    requires SameSize(cells, comp) && InGrid(start, cells.Length0, cells.Length1)
    requires ScanState(Marked(cells), comp, lab, seeds, bestID, bestN, id)
             && ScannedTo(Marked(cells), lab, seeds, start)
    modifies comp
    ensures ScanState(Marked(cells), comp, lab', seeds', bestID', bestN', id') && lab'.Keys == Marked(cells)
    ensures forall c <- Marked(cells) :: c == start || RasterLess(c, start) ==> lab'[c] > 0
    ensures forall m :: 0 <= m < |seeds'| ==> seeds'[m] == start || RasterLess(seeds'[m], start)
  {
    hide Adjacent, Reach, Component, Marked, Labelled, Best, RasterLess, Scanned;
    ghost var k := Marked(cells);
    bestID', bestN', id', lab', seeds' := bestID, bestN, id, lab, seeds;
    MarkedCell(cells, start);
    if cells[start.i, start.j] && comp[start.i, start.j] == 0 {
      id' := id + 1;
      ScannedIsLabelled(k, comp, lab, seeds);
      FreshLabel(k, comp, lab, seeds);
      var n := Flood(cells, comp, id', start);
      lab', seeds' := map c | c in k :: if c in Component(k, start) then id' else lab[c], seeds + [start];
      ScanStep(k, lab, lab', seeds, start);
      InOwn(k, start);
      ComponentInside(k, start);
      BestStep(k, seeds, start, bestID, bestN);
      if n > bestN { bestN', bestID' := n, id'; }
    } else {
      ScannedLabels(k, lab, seeds);
    }
  }

  lemma ScannedLabels(k: Region, lab: map<Cell, int>, seeds: seq<Cell>)
    requires Scanned(k, lab, seeds)
    ensures lab.Keys == k && forall c <- k :: lab[c] >= 0
  {
    hide Component;
  }

  /** Labels every component in raster order and remembers the first largest one. */
  method ScanComponents(cells: array2<bool>)
    returns (comp: array2<int>, bestID: int, ghost lab: map<Cell, int>, ghost seeds: seq<Cell>)
    ensures fresh(comp) && SameSize(cells, comp)
    ensures exists bestN :: ScanState(Marked(cells), comp, lab, seeds, bestID, bestN, |seeds|)
    ensures lab.Keys == Marked(cells) && forall c <- Marked(cells) :: lab[c] > 0
  {
    hide Adjacent, Reach, Component, Marked, Labelled, Best, RasterLess, Scanned;
    var w, h := cells.Length0, cells.Length1;
    comp := new int[w, h]((_, _) => 0);
    ghost var k := Marked(cells);
    var bestN, id := 0, 0;
    bestID, seeds, lab := 0, [], map c | c in k :: 0;
    MarkedInGrid(cells);
    ScanStart(k, lab);
    for j := 0 to h
      invariant fresh(comp) && SameSize(cells, comp) && Marked(cells) == k
      invariant ScanState(k, comp, lab, seeds, bestID, bestN, id) && ScannedTo(k, lab, seeds, Cell(0, j))
    {
      for i := 0 to w
        invariant SameSize(cells, comp) && Marked(cells) == k
        invariant ScanState(k, comp, lab, seeds, bestID, bestN, id) && ScannedTo(k, lab, seeds, Cell(i, j))
      {
        bestID, bestN, id, lab, seeds := VisitCell(cells, comp, Cell(i, j), bestID, bestN, id, lab, seeds);
        ScanOn(k, lab, seeds, i, j);
      }
      RowDone(k, lab, seeds, w, h, j);
    }
    AllRowsDone(k, lab, seeds, w, h);
  }

  /** Keeps one component: the largest, the raster-first of them on a tie. */
  method LargestComponent(cells: array2<bool>) returns (keep: array2<bool>)
    ensures fresh(keep) && SameSize(cells, keep)
    ensures Marked(cells) == {} ==> Marked(keep) == {}
    ensures Marked(cells) != {} ==> exists s :: Largest(Marked(cells), s) && Marked(keep) == Component(Marked(cells), s)
  {
    hide Component, Marked, Best, Largest, Scanned;
    ghost var k := Marked(cells);
    var comp, bestID; ghost var lab, seeds;
    comp, bestID, lab, seeds := ScanComponents(cells);
    ghost var bestN :| ScanState(k, comp, lab, seeds, bestID, bestN, |seeds|);
    ScanDone(k, lab, seeds, bestID, bestN);
    keep := KeepLabel(comp, bestID);
    MarkedInGrid(cells);
    if k != {} {
      ghost var s := seeds[bestID - 1];
      ComponentInside(k, s);
      MarkedIs(keep, Component(k, s));
    } else {
      MarkedIs(keep, {});
    }
  }

  method KeepLabel(comp: array2<int>, bestID: int) returns (keep: array2<bool>)
    ensures fresh(keep) && SameSize(comp, keep)
    ensures forall c :: InGrid(c, comp.Length0, comp.Length1) ==>
              (keep[c.i, c.j] <==> Label(comp, c) == bestID && bestID != 0)
  {
    keep := new bool[comp.Length0, comp.Length1](
      (i, j) requires 0 <= i < comp.Length0 && 0 <= j < comp.Length1 reads comp =>
                                                   comp[i, j] == bestID && bestID != 0);
  }

  lemma MarkedIs(f: array2<bool>, s: Region)
    requires forall c <- s :: InGrid(c, f.Length0, f.Length1)
    requires forall c :: InGrid(c, f.Length0, f.Length1) ==> (f[c.i, c.j] <==> c in s)
    ensures Marked(f) == s
  {
    forall c ensures c in Marked(f) <==> c in s { MarkedCell(f, c); }
  }
}
