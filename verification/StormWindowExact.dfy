/** The storms of a settled window are exactly the whole record's storms with rain in it. */
module StormWindowExact {
  import opened Rain
  import opened Storms
  import opened StormPipeline
  import opened Selection
  import opened StormWindow

  /** A settled window of a well-formed rainfall table, as refreshStorms reaches it. */
  ghost predicate Ready(table: seq<RainRow>, lo: int, hi: int, h: int) {
    && GoodTable(table) && IsHorizon(table, h) && InReach(table, lo, hi)
    && Settled(table, lo, hi, h) && hi - lo >= 2 * EDGE_PAD
  }

  ghost function All(table: seq<RainRow>): seq<seq<Interval>> { Selected(table) }

  ghost function Win(table: seq<RainRow>, lo: int, hi: int): seq<seq<Interval>> { Selected(Listed(table, lo, hi)) }

  // ----- rain inside and outside the window -----------------------------------------------------------

  lemma RowFacts(table: seq<RainRow>, x: RainRow, h: int)
    requires GoodTable(table) && IsHorizon(table, h) && x in table
    ensures x.Iv().mm >= 0.0 && 0 < x.Iv().dur && x.Iv().End() <= h
    ensures x.source == Eccc ==> x.Iv().dur == HOUR
  {
  }

  /** A row inside the window meets the same gauge rows there as in the whole record. */
  lemma SameVerdict(table: seq<RainRow>, lo: int, hi: int, h: int, x: RainRow)
    requires GoodTable(table) && IsHorizon(table, h) && InReach(table, lo, hi) && x.Iv().dur > 0
    requires lo <= x.Iv().start && (x.Iv().End() <= hi || h <= hi)
    ensures GaugeOverlaps(Listed(table, lo, hi), x.Iv()) <==> GaugeOverlaps(table, x.Iv())
  {
    hide Listed;
    var rows, r := Listed(table, lo, hi), x.Iv();
    if GaugeOverlaps(rows, r) {
      var g :| g in rows && g.source == Gauge && g.Iv().dur > 0 && Overlaps(g.Iv(), r);
      ListedMember(table, lo, hi, g);
    }
    if GaugeOverlaps(table, r) {
      var g :| g in table && g.source == Gauge && g.Iv().dur > 0 && Overlaps(g.Iv(), r);
      RowFacts(table, g, h);
      assert InWindow(g, lo, hi);
      ListedMember(table, lo, hi, g);
    }
  }

  /** Wet intervals selected in the window are selected in the whole record. */
  lemma WindowRainIsReal(table: seq<RainRow>, lo: int, hi: int, h: int, r: Interval)
    requires Ready(table, lo, hi, h) && r in Rows(Win(table, lo, hi)) && r.Wet()
    ensures r in Rows(All(table))
    ensures r.start - lo >= EDGE_PAD && (hi - r.End() >= EDGE_PAD || hi >= h)
  {
    hide Listed, Selected, Rows, GaugeOverlaps;
    var rows := Listed(table, lo, hi);
    SelectedMember(rows, r);
    var x :| Chosen(rows, x) && x.Iv() == r;
    ListedMember(table, lo, hi, x);
    SameVerdict(table, lo, hi, h, x);
    SelectedMember(table, r);
    assert Chosen(table, x);
  }

  /** Wet intervals of the whole record that reach into the window are selected there. */
  lemma RealRainIsListed(table: seq<RainRow>, lo: int, hi: int, h: int, r: Interval)
    requires GoodTable(table) && IsHorizon(table, h) && InReach(table, lo, hi)
    requires r in Rows(All(table)) && r.start < hi && r.End() > lo
    ensures r in Rows(Win(table, lo, hi))
  {
    hide Listed, Selected, Rows;
    var rows := Listed(table, lo, hi);
    SelectedMember(table, r);
    var x :| Chosen(table, x) && x.Iv() == r;
    RowFacts(table, x, h);
    ListedMember(table, lo, hi, x);
    if GaugeOverlaps(rows, r) {
      var g :| g in rows && g.source == Gauge && g.Iv().dur > 0 && Overlaps(g.Iv(), r);
      ListedMember(table, lo, hi, g);
      assert GaugeOverlaps(table, r);
    }
    SelectedMember(rows, r);
    assert Chosen(rows, x);
  }

  lemma AllGood(table: seq<RainRow>, h: int)
    requires GoodTable(table) && IsHorizon(table, h)
    ensures GoodRain(Rows(All(table))) && forall r <- Rows(All(table)) :: r.End() <= h
  {
    hide Selected, Rows, IsHorizon;
    forall r <- Rows(All(table)) ensures r.mm >= 0.0 && r.dur > 0 && r.End() <= h {
      SelectedMember(table, r);
      var x :| Chosen(table, x) && x.Iv() == r;
      RowFacts(table, x, h);
    }
  }

  lemma WinGood(table: seq<RainRow>, lo: int, hi: int, h: int)
    requires GoodTable(table) && IsHorizon(table, h)
    ensures GoodRain(Rows(Win(table, lo, hi)))
  {
    hide Selected, Rows, Listed, IsHorizon;
    var rows := Listed(table, lo, hi);
    forall r <- Rows(Win(table, lo, hi)) ensures r.mm >= 0.0 && r.dur > 0 {
      SelectedMember(rows, r);
      var x :| Chosen(rows, x) && x.Iv() == r;
      ListedMember(table, lo, hi, x);
      RowFacts(table, x, h);
    }
  }

  // ----- the bins of the window's rain -------------------------------------------------------------------

  /** A bin that rain selected in the window can hit. */
  ghost predicate CoreBin(lo: int, hi: int, h: int, b: int) {
    b * BIN > lo + EDGE_PAD - BIN && (b * BIN < hi - EDGE_PAD || hi >= h)
  }

  lemma WetWindowBinIsCore(table: seq<RainRow>, lo: int, hi: int, h: int, b: int)
    requires Ready(table, lo, hi, h) && WetBin(Rows(Win(table, lo, hi)), b)
    ensures CoreBin(lo, hi, h, b) && WetBin(Rows(All(table)), b)
  {
    hide Win, All, Rows;
    var r :| r in Rows(Win(table, lo, hi)) && r.Wet() && Hits(r, b);
    WindowRainIsReal(table, lo, hi, h, r);
  }

  /** A wet bin of the whole record between the ends of the window is one of the window. */
  lemma MidBinIsWindow(table: seq<RainRow>, lo: int, hi: int, h: int, b: int)
    requires Ready(table, lo, hi, h) && WetBin(Rows(All(table)), b)
    requires lo <= b * BIN && (b * BIN < hi - BIN || hi >= h)
    ensures WetBin(Rows(Win(table, lo, hi)), b)
  {
    hide Win, All, Rows;
    var r :| r in Rows(All(table)) && r.Wet() && Hits(r, b);
    AllGood(table, h);
    RealRainIsListed(table, lo, hi, h, r);
  }

  /** Every row that hits a core bin is listed, and an ECCC row has the same verdict there. */
  lemma CoreHit(table: seq<RainRow>, lo: int, hi: int, h: int, b: int, x: RainRow)
    requires Ready(table, lo, hi, h) && CoreBin(lo, hi, h, b) && x in table && Hits(x.Iv(), b)
    ensures InWindow(x, lo, hi)
    ensures x.source == Eccc ==>
              (Covered(GaugeCover(Listed(table, lo, hi)), x.Iv()) <==> Covered(GaugeCover(table), x.Iv()))
  {
    hide Listed, Covered, GaugeCover, GaugeOverlaps, Settled;
    RowFacts(table, x, h);
    if x.source == Eccc {
      SameVerdict(table, lo, hi, h, x);
      CoveredMeaning(table, x.Iv());
      CoveredMeaning(Listed(table, lo, hi), x.Iv());
    }
  }

  // ----- the same value in a core bin ----------------------------------------------------------------------

  lemma CoversSnoc(st: seq<Interval>, r: Interval, b: int)
    ensures Covers(st + [r], b) <==> Covers(st, b) || Hits(r, b)
    ensures Depth(st + [r], b) == Depth(st, b) + Part(r, b)
  {
    hide Hits, Part;
    assert (st + [r])[..|st|] == st;
    assert forall x :: x in st + [r] <==> x in st || x == r;
  }

  /** Two series look the same from a bin. */
  ghost predicate SameAt(a: seq<Interval>, c: seq<Interval>, b: int) {
    (Covers(a, b) <==> Covers(c, b)) && Depth(a, b) == Depth(c, b)
  }

  /** An interval that misses the bin may be in only one of the series. */
  lemma SameAtStep(a: seq<Interval>, c: seq<Interval>, r: Interval, inA: bool, inC: bool, b: int)
    requires SameAt(a, c, b) && (Hits(r, b) ==> inA == inC)
    ensures SameAt(if inA then a + [r] else a, if inC then c + [r] else c, b)
  {
    hide Covers, Depth, Hits;
    CoversSnoc(a, r, b);
    CoversSnoc(c, r, b);
  }

  lemma SeriesSnoc(rows: seq<RainRow>, x: RainRow, src: Source, id: int)
    ensures SeriesOf(rows + [x], src, id) ==
            if x.source == src && x.station == id then SeriesOf(rows, src, id) + [x.Iv()] else SeriesOf(rows, src, id)
  {
    assert (rows + [x])[..|rows|] == rows;
  }

  lemma ListedSnoc(rows: seq<RainRow>, x: RainRow, lo: int, hi: int)
    ensures Listed(rows + [x], lo, hi) ==
            if InWindow(x, lo, hi) then Listed(rows, lo, hi) + [x] else Listed(rows, lo, hi)
  {
    assert (rows + [x])[..|rows|] == rows;
  }

  lemma {:induction false} GaugeSameAt(table: seq<RainRow>, lo: int, hi: int, id: int, b: int)
    requires forall x <- table :: Hits(x.Iv(), b) ==> InWindow(x, lo, hi)
    ensures SameAt(SeriesOf(table, Gauge, id), SeriesOf(Listed(table, lo, hi), Gauge, id), b)
  {
    if table != [] {
      hide SameAt, SeriesOf, Listed, Hits, InWindow;
      var t, x := table[..|table| - 1], table[|table| - 1];
      assert table == t + [x];
      GaugeSameAt(t, lo, hi, id, b);
      ListedSnoc(t, x, lo, hi);
      SeriesSnoc(t, x, Gauge, id);
      SeriesSnoc(Listed(t, lo, hi), x, Gauge, id);
      var mine := x.source == Gauge && x.station == id;
      SameAtStep(SeriesOf(t, Gauge, id), SeriesOf(Listed(t, lo, hi), Gauge, id), x.Iv(), mine,
                 mine && InWindow(x, lo, hi), b);
    }
  }

  lemma {:induction false} EcccSameAt(table: seq<RainRow>, lo: int, hi: int, id: int, b: int, ca: seq<Interval>,
                                      cw: seq<Interval>)
    requires forall x <- table :: Hits(x.Iv(), b) ==>
               InWindow(x, lo, hi) && (x.source == Eccc ==> (Covered(cw, x.Iv()) <==> Covered(ca, x.Iv())))
    ensures SameAt(Uncovered(SeriesOf(table, Eccc, id), ca),
                   Uncovered(SeriesOf(Listed(table, lo, hi), Eccc, id), cw), b)
  {
    if table == [] {
      assert Uncovered([], ca) == Uncovered([], cw);
    } else {
      hide SameAt, SeriesOf, Listed, Hits, InWindow, Covered, Uncovered;
      var t, x := table[..|table| - 1], table[|table| - 1];
      assert table == t + [x];
      EcccSameAt(t, lo, hi, id, b, ca, cw);
      ListedSnoc(t, x, lo, hi);
      var sa, sw := SeriesOf(t, Eccc, id), SeriesOf(Listed(t, lo, hi), Eccc, id);
      SeriesSnoc(t, x, Eccc, id);
      SeriesSnoc(Listed(t, lo, hi), x, Eccc, id);
      UncoveredSnoc(sa, ca, x.Iv());
      UncoveredSnoc(sw, cw, x.Iv());
      var mine := x.source == Eccc && x.station == id;
      SameAtStep(Uncovered(sa, ca), Uncovered(sw, cw), x.Iv(), mine && !Covered(ca, x.Iv()),
                 mine && InWindow(x, lo, hi) && !Covered(cw, x.Iv()), b);
    }
  }

  lemma UncoveredSnoc(iv: seq<Interval>, cover: seq<Interval>, r: Interval)
    ensures Uncovered(iv + [r], cover) == if Covered(cover, r) then Uncovered(iv, cover) else Uncovered(iv, cover) + [r]
  {
    assert (iv + [r])[..|iv|] == iv;
  }

  lemma StationSameAt(table: seq<RainRow>, lo: int, hi: int, h: int, src: Source, id: int, b: int)
    requires Ready(table, lo, hi, h) && CoreBin(lo, hi, h, b)
    ensures SameAt(StationSeries(table, src, id), StationSeries(Listed(table, lo, hi), src, id), b)
  {
    hide SameAt, Uncovered, Listed, SeriesOf, Hits, InWindow, CoreBin, Settled;
    var ca, cw := GaugeCover(table), GaugeCover(Listed(table, lo, hi));
    forall x <- table | Hits(x.Iv(), b)
      ensures InWindow(x, lo, hi) && (x.source == Eccc ==> (Covered(cw, x.Iv()) <==> Covered(ca, x.Iv())))
    {
      CoreHit(table, lo, hi, h, b, x);
    }
    GaugeSameAt(table, lo, hi, id, b);
    EcccSameAt(table, lo, hi, id, b, ca, cw);
  }

  // ----- sums over stations ------------------------------------------------------------------------------

  ghost function Term(st: seq<Interval>, b: int): real { if Covers(st, b) then Depth(st, b) else 0.0 }

  lemma {:induction false} SumConcat(x: seq<seq<Interval>>, y: seq<seq<Interval>>, b: int)
    ensures SumDepth(x + y, b) == SumDepth(x, b) + SumDepth(y, b)
    ensures Reporting(x + y, b) == Reporting(x, b) + Reporting(y, b)
  {
    if y == [] {
      assert x + y == x;
    } else {
      hide Covers, Depth;
      var n := |y| - 1;
      assert (x + y)[..|x| + n] == x + y[..n];
      SumConcat(x, y[..n], b);
    }
  }

  lemma PickedStep(rows: seq<RainRow>, src: Source, ids: seq<int>, b: int)
    requires ids != []
    ensures var n := |ids| - 1;
            var st := StationSeries(rows, src, ids[n]);
            && SumDepth(Picked(rows, src, ids), b) == SumDepth(Picked(rows, src, ids[..n]), b) + Term(st, b)
            && Reporting(Picked(rows, src, ids), b) ==
               Reporting(Picked(rows, src, ids[..n]), b) + if Covers(st, b) then 1 else 0
  {
    hide StationSeries, Depth;
    var n := |ids| - 1;
    var rest, st := Picked(rows, src, ids[..n]), StationSeries(rows, src, ids[n]);
    if st != [] { assert (rest + [st])[..|rest|] == rest; }
  }

  /** Stations that do not cover the bin do not matter, and the others look the same from it. */
  lemma {:induction false} PickedSame(ra: seq<RainRow>, rw: seq<RainRow>, src: Source, x: seq<int>, y: seq<int>, b: int)
    requires Increasing(x) && Increasing(y)
    requires forall id :: SameAt(StationSeries(ra, src, id), StationSeries(rw, src, id), b)
    requires forall id :: Covers(StationSeries(rw, src, id), b) ==> (id in x <==> id in y)
    ensures SumDepth(Picked(ra, src, x), b) == SumDepth(Picked(rw, src, y), b)
    ensures Reporting(Picked(ra, src, x), b) == Reporting(Picked(rw, src, y), b)
    decreases |x| + |y|
  {
    hide StationSeries, Depth, Covers, Picked, SumDepth, Reporting;
    if x == [] && y == [] {
      BothEmpty(ra, rw, src);
    } else {
      var n, m := |x| - 1, |y| - 1;
      if y == [] || (x != [] && x[n] > y[m]) {
        var id := x[n];
        assert id in x;
        assert id !in y;
        assert forall c :: c in x[..n] ==> c in x;
        assert forall c :: c in x && c != id ==> c in x[..n] by { InInit(x); }
        PickedStep(ra, src, x, b);
        PickedSame(ra, rw, src, x[..n], y, b);
      } else if x == [] || y[m] > x[n] {
        var id := y[m];
        assert id in y;
        assert id !in x;
        assert forall c :: c in y[..m] ==> c in y;
        assert forall c :: c in y && c != id ==> c in y[..m] by { InInit(y); }
        PickedStep(rw, src, y, b);
        PickedSame(ra, rw, src, x, y[..m], b);
      } else {
        InInit(x);
        InInit(y);
        PickedStep(ra, src, x, b);
        PickedStep(rw, src, y, b);
        PickedSame(ra, rw, src, x[..n], y[..m], b);
      }
    }
  }

  lemma BothEmpty(ra: seq<RainRow>, rw: seq<RainRow>, src: Source)
    ensures Picked(ra, src, []) == Picked(rw, src, [])
  {
  }

  lemma InInit(x: seq<int>)
    requires x != [] && Increasing(x)
    ensures forall c :: c in x[..|x| - 1] <==> c in x && c != x[|x| - 1]
  {
    var n := |x| - 1;
    forall c ensures c in x[..n] <==> c in x && c != x[n] {
      if c in x[..n] {
        var i :| 0 <= i < n && x[..n][i] == c;
        assert x[i] == c && x[i] < x[n];
      }
      if c in x && c != x[n] {
        var i :| 0 <= i < |x| && x[i] == c;
        assert x[..n][i] == c;
      }
    }
  }

  lemma CoveringIdListed(rows: seq<RainRow>, src: Source, id: int, b: int)
    requires Covers(StationSeries(rows, src, id), b)
    ensures exists x <- rows :: x.source == src && x.station == id
  {
    hide SeriesOf, Uncovered, Hits, GaugeCover;
    var r :| r in StationSeries(rows, src, id) && Hits(r, b);
    if src == Eccc { UncoveredMember(SeriesOf(rows, Eccc, id), GaugeCover(rows), r); }
    SeriesMember(rows, src, id, r);
  }

  lemma SourceSame(table: seq<RainRow>, lo: int, hi: int, h: int, src: Source, b: int)
    requires Ready(table, lo, hi, h) && CoreBin(lo, hi, h, b)
    ensures var pa := Picked(table, src, Ascending(Ids(table, src)));
            var pw := Picked(Listed(table, lo, hi), src, Ascending(Ids(Listed(table, lo, hi), src)));
            SumDepth(pa, b) == SumDepth(pw, b) && Reporting(pa, b) == Reporting(pw, b)
  {
    hide StationSeries, Listed, Picked, SumDepth, Reporting, SameAt, Covers, Ready, CoreBin, Ascending;
    var rw := Listed(table, lo, hi);
    var x, y := Ascending(Ids(table, src)), Ascending(Ids(rw, src));
    forall id ensures SameAt(StationSeries(table, src, id), StationSeries(rw, src, id), b) {
      StationSameAt(table, lo, hi, h, src, id, b);
    }
    forall id | Covers(StationSeries(rw, src, id), b) ensures id in x <==> id in y {
      CoveringIdListed(rw, src, id, b);
      var z :| z in rw && z.source == src && z.station == id;
      ListedMember(table, lo, hi, z);
      assert id in Ids(table, src) && id in Ids(rw, src);
    }
    PickedSame(table, rw, src, x, y, b);
  }

  /** In a core bin the window's stations report the whole record's mean. */
  lemma ValueSame(table: seq<RainRow>, lo: int, hi: int, h: int, b: int)
    requires Ready(table, lo, hi, h) && CoreBin(lo, hi, h, b)
    ensures Value(All(table), b) == Value(Win(table, lo, hi), b)
  {
    hide Listed, Picked, SumDepth, Reporting, Ready, CoreBin, Ascending, Ids;
    var rw := Listed(table, lo, hi);
    SourceSame(table, lo, hi, h, Gauge, b);
    SourceSame(table, lo, hi, h, Eccc, b);
    SumConcat(Picked(table, Gauge, Ascending(Ids(table, Gauge))), Picked(table, Eccc, Ascending(Ids(table, Eccc))), b);
    SumConcat(Picked(rw, Gauge, Ascending(Ids(rw, Gauge))), Picked(rw, Eccc, Ascending(Ids(rw, Eccc))), b);
  }

  // ----- the wet series as a run of bins --------------------------------------------------------------------

  ghost function KeepWet(stations: seq<seq<Interval>>, bins: seq<int>): seq<int> {
    if bins == [] then []
    else
      var n := |bins| - 1;
      if Cell(stations, bins[n]).Wet() then KeepWet(stations, bins[..n]) + [bins[n]] else KeepWet(stations, bins[..n])
  }

  lemma SeriesSnocBin(stations: seq<seq<Interval>>, bins: seq<int>, b: int)
    ensures Series(stations, bins + [b]) == Series(stations, bins) + [Cell(stations, b)]
  {
    hide Value;
  }

  lemma {:induction false} WetSeriesBins(stations: seq<seq<Interval>>, bins: seq<int>)
    ensures WetOnly(Series(stations, bins)) == Series(stations, KeepWet(stations, bins))
  {
    if bins != [] {
      hide WetOnly, Series, Cell;
      var rest, b := bins[..|bins| - 1], bins[|bins| - 1];
      assert bins == rest + [b];
      WetSeriesBins(stations, rest);
      SeriesSnocBin(stations, rest, b);
      WetSnoc(Series(stations, rest), Cell(stations, b));
      SeriesSnocBin(stations, KeepWet(stations, rest), b);
    } else {
      assert Series(stations, bins) == [];
    }
  }

  lemma {:induction false} KeepWetMeaning(stations: seq<seq<Interval>>, bins: seq<int>)
    requires Increasing(bins)
    ensures Increasing(KeepWet(stations, bins))
    ensures forall b :: b in KeepWet(stations, bins) <==> b in bins && Cell(stations, b).Wet()
  {
    if bins != [] {
      hide Value;
      var n := |bins| - 1;
      KeepWetMeaning(stations, bins[..n]);
      InInit(bins);
      var k := KeepWet(stations, bins[..n]);
      forall i | 0 <= i < |k| ensures k[i] < bins[n] {
        var c := k[i];
        assert c in k;
        assert c in bins[..n];
        var j :| 0 <= j < n && bins[..n][j] == c;
        assert bins[j] == c;
      }
    }
  }

  /** The wet bins of a station set in ascending order. */
  ghost function WetBins(stations: seq<seq<Interval>>): seq<int> { KeepWet(stations, Ascending(CoveredBins(stations))) }

  lemma WetBinsMeaning(stations: seq<seq<Interval>>)
    requires GoodRain(Rows(stations))
    ensures WetSeries(stations) == Series(stations, WetBins(stations))
    ensures Increasing(WetBins(stations))
    ensures forall b :: b in WetBins(stations) <==> WetBin(Rows(stations), b)
  {
    hide KeepWet, WetOnly, Value, Ascending, WetBin, Rows, CoveredBins;
    var bins := Ascending(CoveredBins(stations));
    WetSeriesBins(stations, bins);
    KeepWetMeaning(stations, bins);
    forall b ensures b in WetBins(stations) <==> WetBin(Rows(stations), b) {
      ValueSign(stations, b);
      assert b in bins <==> Reporting(stations, b) > 0;
    }
  }

  // ----- before, inside and after the window -------------------------------------------------------------------

  /** The wet bins of the whole record before the window, and after it. */
  ghost function Early(table: seq<RainRow>, lo: int): seq<int> {
    KeepBins(WetBins(All(table)), b => b * BIN < lo)
  }

  ghost function Late(table: seq<RainRow>, hi: int, h: int): seq<int> {
    KeepBins(WetBins(All(table)), b => b * BIN >= hi - BIN && hi < h)
  }

  ghost function KeepBins(bins: seq<int>, p: int -> bool): seq<int> {
    if bins == [] then []
    else
      var n := |bins| - 1;
      if p(bins[n]) then KeepBins(bins[..n], p) + [bins[n]] else KeepBins(bins[..n], p)
  }

  lemma {:induction false} KeepBinsMeaning(bins: seq<int>, p: int -> bool)
    requires Increasing(bins)
    ensures Increasing(KeepBins(bins, p))
    ensures forall b :: b in KeepBins(bins, p) <==> b in bins && p(b)
  {
    if bins != [] {
      var n := |bins| - 1;
      KeepBinsMeaning(bins[..n], p);
      InInit(bins);
      var k := KeepBins(bins[..n], p);
      forall i | 0 <= i < |k| ensures k[i] < bins[n] {
        var c := k[i];
        assert c in k;
        assert c in bins[..n];
        var j :| 0 <= j < n && bins[..n][j] == c;
        assert bins[j] == c;
      }
    }
  }

  lemma {:induction false} KeptAll(bins: seq<int>, p: int -> bool)
    ensures forall i :: 0 <= i < |KeepBins(bins, p)| ==> p(KeepBins(bins, p)[i])
  {
    if bins != [] { KeptAll(bins[..|bins| - 1], p); }
  }

  ghost predicate AllBelow(x: seq<int>, y: seq<int>) { forall i, j :: 0 <= i < |x| && 0 <= j < |y| ==> x[i] < y[j] }

  lemma ConcatIncreasing(x: seq<int>, y: seq<int>)
    requires Increasing(x) && Increasing(y) && AllBelow(x, y)
    ensures Increasing(x + y)
  {
  }

  ghost predicate AllEarly(e: seq<int>, lo: int) { forall i :: 0 <= i < |e| ==> e[i] * BIN < lo }

  ghost predicate AllCore(m: seq<int>, lo: int, hi: int, h: int) {
    forall i :: 0 <= i < |m| ==> CoreBin(lo, hi, h, m[i])
  }

  ghost predicate AllLate(l: seq<int>, hi: int, h: int) {
    forall i :: 0 <= i < |l| ==> l[i] * BIN >= hi - BIN && hi < h
  }

  /** Where each kind of bin lies. */
  lemma BinPlaces(table: seq<RainRow>, lo: int, hi: int, h: int)
    requires Ready(table, lo, hi, h)
    ensures var e, m, l := Early(table, lo), WetBins(Win(table, lo, hi)), Late(table, hi, h);
            && Increasing(e) && Increasing(m) && Increasing(l)
            && AllEarly(e, lo) && AllCore(m, lo, hi, h) && AllLate(l, hi, h)
    ensures SameBins(Early(table, lo) + WetBins(Win(table, lo, hi)) + Late(table, hi, h), WetBins(All(table)))
  {
    hide *;
    CorePlaces(table, lo, hi, h);
    EarlyPlaces(table, lo, h);
    LatePlaces(table, hi, h);
    BinsSomewhere(table, lo, hi, h);
  }

  ghost predicate SameBins(x: seq<int>, y: seq<int>) { forall b :: b in x <==> b in y }

  lemma BinsSomewhere(table: seq<RainRow>, lo: int, hi: int, h: int)
    requires Ready(table, lo, hi, h)
    ensures SameBins(Early(table, lo) + WetBins(Win(table, lo, hi)) + Late(table, hi, h), WetBins(All(table)))
  {
    hide Ready, Early, WetBins, Win, Late, All;
    var x, y := Early(table, lo) + WetBins(Win(table, lo, hi)) + Late(table, hi, h), WetBins(All(table));
    forall b ensures b in x <==> b in y { BinIsSomewhere(table, lo, hi, h, b); }
  }

  lemma EarlyPlaces(table: seq<RainRow>, lo: int, h: int)
    requires GoodTable(table) && IsHorizon(table, h)
    ensures Increasing(Early(table, lo)) && AllEarly(Early(table, lo), lo)
    ensures forall b :: b in Early(table, lo) <==> b in WetBins(All(table)) && b * BIN < lo
  {
    hide WetBins, All, KeepBins, GoodTable, IsHorizon;
    AllGood(table, h);
    WetBinsMeaning(All(table));
    KeepBinsMeaning(WetBins(All(table)), b => b * BIN < lo);
    KeptAll(WetBins(All(table)), b => b * BIN < lo);
  }

  lemma LatePlaces(table: seq<RainRow>, hi: int, h: int)
    requires GoodTable(table) && IsHorizon(table, h)
    ensures Increasing(Late(table, hi, h)) && AllLate(Late(table, hi, h), hi, h)
    ensures forall b :: b in Late(table, hi, h) <==> b in WetBins(All(table)) && b * BIN >= hi - BIN && hi < h
  {
    hide WetBins, All, KeepBins, GoodTable, IsHorizon;
    AllGood(table, h);
    WetBinsMeaning(All(table));
    KeepBinsMeaning(WetBins(All(table)), b => b * BIN >= hi - BIN && hi < h);
    KeptAll(WetBins(All(table)), b => b * BIN >= hi - BIN && hi < h);
  }

  lemma CorePlaces(table: seq<RainRow>, lo: int, hi: int, h: int)
    requires Ready(table, lo, hi, h)
    ensures GoodTable(table) && IsHorizon(table, h)
    ensures Increasing(WetBins(Win(table, lo, hi))) && AllCore(WetBins(Win(table, lo, hi)), lo, hi, h)
  {
    hide Increasing, WetBins, Win, CoreBin, GoodTable, IsHorizon, Settled, InReach, WetBin, Rows;
    WinGood(table, lo, hi, h);
    WetBinsMeaning(Win(table, lo, hi));
    var m := WetBins(Win(table, lo, hi));
    forall i | 0 <= i < |m| ensures CoreBin(lo, hi, h, m[i]) {
      var b := m[i];
      assert b in m;
      WetWindowBinIsCore(table, lo, hi, h, b);
    }
  }

  lemma BinIsSomewhere(table: seq<RainRow>, lo: int, hi: int, h: int, b: int)
    requires Ready(table, lo, hi, h)
    ensures b in Early(table, lo) + WetBins(Win(table, lo, hi)) + Late(table, hi, h) <==> b in WetBins(All(table))
  {
    hide WetBins, Win, All, GoodTable, IsHorizon, Settled, InReach, WetBin, Rows, Early, Late, CoreBin;
    EarlyPlaces(table, lo, h);
    LatePlaces(table, hi, h);
    AllGood(table, h);
    WinGood(table, lo, hi, h);
    WetBinsMeaning(All(table));
    WetBinsMeaning(Win(table, lo, hi));
    if b in WetBins(Win(table, lo, hi)) { WetWindowBinIsCore(table, lo, hi, h, b); }
    if b in WetBins(All(table)) && b !in Early(table, lo) && b !in Late(table, hi, h) {
      MidBinIsWindow(table, lo, hi, h, b);
    }
  }

  /** The whole record's wet bins are those before the window, its own, and those after it. */
  lemma BinsSplit(table: seq<RainRow>, lo: int, hi: int, h: int)
    requires Ready(table, lo, hi, h)
    ensures WetBins(All(table)) == Early(table, lo) + WetBins(Win(table, lo, hi)) + Late(table, hi, h)
  {
    hide WetBins, All, Win, Early, Late, Settled, Increasing;
    BinPlaces(table, lo, hi, h);
    AllGood(table, h);
    WetBinsMeaning(All(table));
    var e, m, l := Early(table, lo), WetBins(Win(table, lo, hi)), Late(table, hi, h);
    ConcatIncreasing(e, m);
    ConcatIncreasing(e + m, l);
    AscendingUnique(WetBins(All(table)), e + m + l);
  }

  lemma SeriesConcat(stations: seq<seq<Interval>>, x: seq<int>, y: seq<int>)
    ensures Series(stations, x + y) == Series(stations, x) + Series(stations, y)
  {
    hide Value;
  }

  lemma SeriesSame(table: seq<RainRow>, lo: int, hi: int, h: int)
    requires Ready(table, lo, hi, h)
    ensures var m := WetBins(Win(table, lo, hi)); Series(All(table), m) == Series(Win(table, lo, hi), m)
  {
    hide WetBins, All, Win, Early, Late, Ready, Value, CoreBin;
    BinPlaces(table, lo, hi, h);
    var m := WetBins(Win(table, lo, hi));
    forall i | 0 <= i < |m| ensures Value(All(table), m[i]) == Value(Win(table, lo, hi), m[i]) {
      ValueSame(table, lo, hi, h, m[i]);
    }
  }

  /** Bins at least six hours and two bins apart make series that stand apart. */
  lemma SeriesFar(a: seq<seq<Interval>>, c: seq<seq<Interval>>, x: seq<int>, y: seq<int>)
    requires forall i, j :: 0 <= i < |x| && 0 <= j < |y| ==> y[j] * BIN - (x[i] + 1) * BIN >= GAP
    ensures FarBefore(Series(a, x), Series(c, y))
  {
    hide Value;
    var s, t := Series(a, x), Series(c, y);
    forall u, v | u in s && v in t ensures v.start - u.End() >= GAP {
      var i :| 0 <= i < |s| && s[i] == u;
      var j :| 0 <= j < |t| && t[j] == v;
      assert y[j] * BIN - (x[i] + 1) * BIN >= GAP;
    }
  }

  ghost function EarlySeries(table: seq<RainRow>, lo: int): seq<Interval> { Series(All(table), Early(table, lo)) }

  ghost function LateSeries(table: seq<RainRow>, hi: int, h: int): seq<Interval> {
    Series(All(table), Late(table, hi, h))
  }

  /** The whole record's wet series is the window's, with rain at least six hours away around it. */
  lemma WetSeriesSplit(table: seq<RainRow>, lo: int, hi: int, h: int)
    requires Ready(table, lo, hi, h)
    ensures var e, m, l := EarlySeries(table, lo), WetSeries(Win(table, lo, hi)), LateSeries(table, hi, h);
            WetSeries(All(table)) == e + m + l && FarBefore(e, m) && FarBefore(e + m, l)
  {
    hide WetBins, All, Win, Early, Late, Settled, Series, FarBefore, WetSeries, IsHorizon, Increasing;
    var a, w := All(table), Win(table, lo, hi);
    var e, m, l := Early(table, lo), WetBins(w), Late(table, hi, h);
    BinPlaces(table, lo, hi, h);
    BinsSplit(table, lo, hi, h);
    AllGood(table, h);
    WinGood(table, lo, hi, h);
    WetBinsMeaning(a);
    WetBinsMeaning(w);
    SeriesConcat(a, e, m);
    SeriesConcat(a, e + m, l);
    SeriesSame(table, lo, hi, h);
    SeriesFar(a, w, e, m);
    SeriesFar(a, a, e + m, l);
  }

  /** The runs of the whole record: before the window, the window's own, after it. */
  lemma RunsSplit(table: seq<RainRow>, lo: int, hi: int, h: int)
    requires Ready(table, lo, hi, h)
    ensures Groups(WetSeries(All(table))) ==
            Groups(EarlySeries(table, lo)) + Groups(WetSeries(Win(table, lo, hi))) + Groups(LateSeries(table, hi, h))
  {
    hide *;
    WetSeriesSplit(table, lo, hi, h);
    var e, m, l := EarlySeries(table, lo), WetSeries(Win(table, lo, hi)), LateSeries(table, hi, h);
    GroupsSplit(e, m);
    GroupsSplit(e + m, l);
  }

  /** The bins a window run is made of. */
  lemma WindowRunBins(table: seq<RainRow>, lo: int, hi: int, h: int, k: nat)
    requires Ready(table, lo, hi, h) && k < |Groups(WetSeries(Win(table, lo, hi)))|
    ensures var g := Groups(WetSeries(Win(table, lo, hi)))[k];
            && g[0].start > lo + EDGE_PAD - BIN && (MaxEnd(g) < hi - EDGE_PAD + BIN || hi >= h)
            && g[0].start < MaxEnd(g)
  {
    hide Groups, MaxEnd, WetSeries, Rows, Win, WetBin, Settled, Value;
    WinGood(table, lo, hi, h);
    var g := Groups(WetSeries(Win(table, lo, hi)))[k];
    var x := LatestOf(g);
    var b := RunBins(Win(table, lo, hi), k, x);
    WetWindowBinIsCore(table, lo, hi, h, b);
    var f := RunBins(Win(table, lo, hi), k, g[0]);
    WetWindowBinIsCore(table, lo, hi, h, f);
    assert g[0].End() <= MaxEnd(g);
  }

  /** A window storm is refined the same way from the window as from the whole record. */
  lemma WindowRefineSame(table: seq<RainRow>, lo: int, hi: int, h: int, k: nat, closed: bool)
    requires Ready(table, lo, hi, h) && k < |Groups(WetSeries(Win(table, lo, hi)))|
    ensures var s := Describe(Groups(WetSeries(Win(table, lo, hi)))[k], closed);
            Refine(s, Rows(All(table))) == Refine(s, Rows(Win(table, lo, hi)))
  {
    hide Groups, MaxEnd, WetSeries, Rows, Win, All, Settled, OnsetOf, PeakOf, Total, Refine, IsHorizon;
    WindowRunBins(table, lo, hi, h, k);
    AllGood(table, h);
    var s := Describe(Groups(WetSeries(Win(table, lo, hi)))[k], closed);
    forall r | Candidate(r, s.firstRain - BIN, s.rainEnd + BIN)
      ensures r in Rows(All(table)) <==> r in Rows(Win(table, lo, hi))
    {
      if r in Rows(All(table)) { RealRainIsListed(table, lo, hi, h, r); }
      if r in Rows(Win(table, lo, hi)) { WindowRainIsReal(table, lo, hi, h, r); }
    }
    RefineLocal(s, Rows(All(table)), Rows(Win(table, lo, hi)));
  }

  lemma {:induction false} SeriesRunBin(stations: seq<seq<Interval>>, bins: seq<int>, k: nat, x: Interval)
    returns (i: nat)
    requires k < |Groups(Series(stations, bins))| && x in Groups(Series(stations, bins))[k]
    ensures i < |bins| && x == Cell(stations, bins[i])
  {
    hide Groups, Flatten, Segmentation, Value;
    var s := Series(stations, bins);
    GroupsAreSegmentation(s);
    FlattenMember(Groups(s), k, x);
    i :| 0 <= i < |s| && s[i] == x;
  }

  /** Rain of the whole record that lies in a run before the window ends before the window. */
  lemma EarlyRainEnds(table: seq<RainRow>, lo: int, hi: int, h: int, r: Interval)
    requires Ready(table, lo, hi, h) && r in Rows(All(table)) && r.Wet() && r.End() < lo + BIN
    ensures r.End() <= lo
  {
    hide Rows, Win, All, Settled, IsHorizon;
    AllGood(table, h);
    if r.End() > lo {
      RealRainIsListed(table, lo, hi, h, r);
      WindowRainIsReal(table, lo, hi, h, r);
    }
  }

  /** A storm before the window ends before it. */
  lemma EarlyStormEnds(table: seq<RainRow>, lo: int, hi: int, h: int, k: nat, closed: bool)
    requires Ready(table, lo, hi, h) && k < |Groups(EarlySeries(table, lo))|
    ensures Refine(Describe(Groups(EarlySeries(table, lo))[k], closed), Rows(All(table))).rainEnd <= lo
  {
    hide *;
    RunsSplit(table, lo, hi, h);
    ReadyParts(table, lo, hi, h);
    AllGood(table, h);
    var g := Groups(EarlySeries(table, lo))[k];
    assert Groups(WetSeries(All(table)))[k] == g;
    var x := LatestOf(g);
    EarlyRunEnd(table, lo, hi, h, k, x);
    forall r <- Rows(All(table)) | Candidate(r, g[0].start - BIN, MaxEnd(g) + BIN) ensures r.End() <= lo {
      CandidateInside(All(table), k, r);
      CandidateWet(r, g[0].start - BIN, MaxEnd(g) + BIN);
      EarlyRainEnds(table, lo, hi, h, r);
    }
    var last := LastBinReached(All(table), k);
    RefineEnd(g, closed, Rows(All(table)), lo, last);
  }

  lemma ReadyParts(table: seq<RainRow>, lo: int, hi: int, h: int)
    requires Ready(table, lo, hi, h)
    ensures GoodTable(table) && IsHorizon(table, h) && hi - lo >= 2 * EDGE_PAD
  {
  }

  lemma CandidateWet(r: Interval, from: int, to: int)
    requires Candidate(r, from, to)
    ensures r.Wet()
  {
  }

  lemma RefineEnd(g: Group, closed: bool, rows: seq<Interval>, t: int, last: Interval)
    requires last in rows && Candidate(last, g[0].start - BIN, MaxEnd(g) + BIN)
    requires forall r <- rows :: Candidate(r, g[0].start - BIN, MaxEnd(g) + BIN) ==> r.End() <= t
    ensures Refine(Describe(g, closed), rows).rainEnd <= t
  {
    hide LatestEnd, EarliestStrong, OnsetOf, PeakOf, Total, MaxEnd, Candidate;
    LatestMeaning(rows, g[0].start - BIN, MaxEnd(g) + BIN);
  }

  lemma EarlyRunEnd(table: seq<RainRow>, lo: int, hi: int, h: int, k: nat, x: Interval)
    requires Ready(table, lo, hi, h) && k < |Groups(EarlySeries(table, lo))| && x in Groups(EarlySeries(table, lo))[k]
    ensures x.End() < lo + BIN
  {
    hide Groups, Win, All, Settled, Early, Late, Value, WetBins;
    BinPlaces(table, lo, hi, h);
    var i := SeriesRunBin(All(table), Early(table, lo), k, x);
  }

  lemma LateRunStart(table: seq<RainRow>, lo: int, hi: int, h: int, k: nat, x: Interval)
    requires Ready(table, lo, hi, h) && k < |Groups(LateSeries(table, hi, h))|
             && x in Groups(LateSeries(table, hi, h))[k]
    ensures x.start >= hi - BIN && hi < h
  {
    hide Groups, Win, All, Settled, Early, Late, Value, WetBins;
    BinPlaces(table, lo, hi, h);
    var i := SeriesRunBin(All(table), Late(table, hi, h), k, x);
  }

  // ----- the theorem ------------------------------------------------------------------------------------------

  /** Rain data reach far enough past every run of a window that data follow. */
  lemma WindowRunsClosed(table: seq<RainRow>, lo: int, hi: int, h: int)
    requires Ready(table, lo, hi, h) && hi < h
    ensures var gm := Groups(WetSeries(Win(table, lo, hi))); Report(gm, h) == AllClosed(gm)
  {
    hide Groups, MaxEnd, WetSeries, Win, Settled, Reported, AllClosed, IsHorizon, GoodTable;
    var gm := Groups(WetSeries(Win(table, lo, hi)));
    if gm == [] {
      NoRuns();
    } else {
      WindowRunBins(table, lo, hi, h, |gm| - 1);
      AllClosedStep(gm);
    }
  }

  lemma NoRuns()
    ensures AllClosed([]) == []
  {
  }

  /** The storms of the merged series: `x` before the window, the window's, `y` after it. */
  lemma ReportsSplit(table: seq<RainRow>, lo: int, hi: int, h: int) returns (x: seq<Storm>, y: seq<Storm>)
    requires Ready(table, lo, hi, h)
    ensures Report(Groups(WetSeries(All(table))), h) == x + Report(Groups(WetSeries(Win(table, lo, hi))), h) + y
    ensures exists ks :: DescribeRuns(Groups(EarlySeries(table, lo)), x, ks)
    ensures exists ks :: DescribeRuns(Groups(LateSeries(table, hi, h)), y, ks)
  {
    hide *;
    var ge, gm, gl :=
        Groups(EarlySeries(table, lo)), Groups(WetSeries(Win(table, lo, hi))), Groups(LateSeries(table, hi, h));
    RunsSplit(table, lo, hi, h);
    if gl != [] {
      LateRunStart(table, lo, hi, h, 0, gl[0][0]);
      ReportSplit(ge + gm, gl, h);
      AllClosedSplit(ge, gm);
      WindowRunsClosed(table, lo, hi, h);
      x, y := AllClosed(ge), Report(gl, h);
      var ks := ClosedRuns(ge);
      var ls := ReportRuns(gl, h);
    } else {
      assert ge + gm + gl == ge + gm;
      EmptyReport(h);
      var ls := ReportRuns(gl, h);
      y := [];
      if gm != [] {
        ReportSplit(ge, gm, h);
        x := AllClosed(ge);
        var ks := ClosedRuns(ge);
      } else {
        assert ge + gm == ge;
        x := Report(ge, h);
        var ks := ReportRuns(ge, h);
      }
    }
  }

  lemma EmptyReport(h: int)
    ensures Report([], h) == []
  {
  }

  function RefineAll(s: seq<Storm>, rows: seq<Interval>): seq<Storm> {
    seq(|s|, i requires 0 <= i < |s| => Refine(s[i], rows))
  }

  lemma RefineAllConcat(x: seq<Storm>, m: seq<Storm>, y: seq<Storm>, rows: seq<Interval>)
    ensures RefineAll(x + m + y, rows) == RefineAll(x, rows) + RefineAll(m, rows) + RefineAll(y, rows)
  {
    hide Refine;
  }

  lemma FindIsRefineAll(stations: seq<seq<Interval>>, h: int)
    ensures Find(stations, h) == RefineAll(Report(Groups(WetSeries(stations)), h), Rows(stations))
  {
    hide Groups, WetOnly, Merged, Refine, Report;
  }

  lemma WindowStormsSame(table: seq<RainRow>, lo: int, hi: int, h: int)
    requires Ready(table, lo, hi, h)
    ensures var m := Report(Groups(WetSeries(Win(table, lo, hi))), h);
            RefineAll(m, Rows(All(table))) == RefineAll(m, Rows(Win(table, lo, hi)))
  {
    hide Groups, WetSeries, Refine, Report, Rows, All, Win, Ready, Describe;
    var gm := Groups(WetSeries(Win(table, lo, hi)));
    var m := Report(gm, h);
    var ks := ReportRuns(gm, h);
    forall i | 0 <= i < |m| ensures Refine(m[i], Rows(All(table))) == Refine(m[i], Rows(Win(table, lo, hi))) {
      WindowRefineSame(table, lo, hi, h, ks[i], m[i].closed);
    }
  }

  lemma EarlyStorms(table: seq<RainRow>, lo: int, hi: int, h: int, x: seq<Storm>, ks: seq<nat>)
    requires Ready(table, lo, hi, h) && DescribeRuns(Groups(EarlySeries(table, lo)), x, ks)
    ensures forall s <- RefineAll(x, Rows(All(table))) :: s.rainEnd <= lo
  {
    hide Groups, EarlySeries, Refine, Rows, All, Ready, Describe;
    forall i | 0 <= i < |x| ensures Refine(x[i], Rows(All(table))).rainEnd <= lo {
      EarlyStormEnds(table, lo, hi, h, ks[i], x[i].closed);
    }
  }

  lemma LateStorms(table: seq<RainRow>, lo: int, hi: int, h: int, y: seq<Storm>, ks: seq<nat>)
    requires Ready(table, lo, hi, h) && DescribeRuns(Groups(LateSeries(table, hi, h)), y, ks)
    ensures forall s <- RefineAll(y, Rows(All(table))) :: s.firstRain >= hi - BIN
  {
    hide Groups, LateSeries, Rows, All, Ready, Describe, Win, EarlySeries, WetSeries, Refine;
    RunsSplit(table, lo, hi, h);
    ReadyParts(table, lo, hi, h);
    AllGood(table, h);
    var ge, gm, gl :=
        Groups(EarlySeries(table, lo)), Groups(WetSeries(Win(table, lo, hi))), Groups(LateSeries(table, hi, h));
    forall i | 0 <= i < |y| ensures Refine(y[i], Rows(All(table))).firstRain >= hi - BIN {
      var g := gl[ks[i]];
      LateRunStart(table, lo, hi, h, ks[i], g[0]);
      assert Groups(WetSeries(All(table)))[|ge| + |gm| + ks[i]] == g;
      RefineInside(All(table), |ge| + |gm| + ks[i], y[i].closed);
      DescribeStart(g, y[i].closed);
    }
  }

  lemma DescribeStart(g: Group, closed: bool)
    ensures Describe(g, closed).firstRain == g[0].start && Describe(g, closed).rainEnd == MaxEnd(g)
  {
  }

  /** When the widening stops on its own, the storms found in the window, with their closed flags, are
      exactly the whole record's storms with rain in the window: all others end at or before `lo` or
      begin no earlier than the bin that reaches `hi`. Each of them passes refreshStorms' filter. */
  lemma WindowStormsExact(table: seq<RainRow>, lo: int, hi: int, h: int) returns (x: seq<Storm>, y: seq<Storm>)
    requires GoodTable(table) && IsHorizon(table, h) && InReach(table, lo, hi)
    requires Settled(table, lo, hi, h) && hi - lo >= 2 * EDGE_PAD
    ensures Find(Selected(table), h) == x + Find(Selected(Listed(table, lo, hi)), h) + y
    ensures forall s <- x :: s.rainEnd <= lo
    ensures forall s <- y :: s.firstRain >= hi - BIN
    ensures forall s <- Find(Selected(Listed(table, lo, hi)), h) :: InsideWindow(s, lo, hi)
  {
    hide GoodTable, IsHorizon, Settled, Find, Groups, WetSeries, Rows, Report, RefineAll, DescribeRuns, EarlySeries,
      LateSeries, Selected, Listed;
    assert Ready(table, lo, hi, h);
    hide Ready;
    var a, w := All(table), Win(table, lo, hi);
    var x0, y0 := ReportsSplit(table, lo, hi, h);
    FindIsRefineAll(a, h);
    FindIsRefineAll(w, h);
    RefineAllConcat(x0, Report(Groups(WetSeries(w)), h), y0, Rows(a));
    WindowStormsSame(table, lo, hi, h);
    x, y := RefineAll(x0, Rows(a)), RefineAll(y0, Rows(a));
    var ks :| DescribeRuns(Groups(EarlySeries(table, lo)), x0, ks);
    EarlyStorms(table, lo, hi, h, x0, ks);
    var ls :| DescribeRuns(Groups(LateSeries(table, hi, h)), y0, ls);
    LateStorms(table, lo, hi, h, y0, ls);
    WindowStormsMeet(table, lo, hi, h);
  }

  /** A storm whose rain lies inside the window; it starts with a bin. */
  ghost predicate InsideWindow(s: Storm, lo: int, hi: int) {
    lo < s.firstRain <= s.onset < s.rainEnd <= hi && s.firstRain % BIN == 0
  }

  /** All rain begins well after `lo` and ends by `hi`. */
  ghost predicate RainInside(rows: seq<Interval>, lo: int, hi: int) {
    forall r <- rows :: r.Wet() ==> r.start - lo >= EDGE_PAD && r.End() <= hi
  }

  /** The storms of rain inside the window lie inside it. */
  lemma StormsInside(stations: seq<seq<Interval>>, lo: int, hi: int, h: int)
    requires GoodRain(Rows(stations)) && RainInside(Rows(stations), lo, hi)
    ensures forall s <- Find(stations, h) :: InsideWindow(s, lo, hi)
  {
    hide Groups, WetSeries, Refine, Report, Rows, Describe, Find, InsideWindow, RainInside;
    var gs := Groups(WetSeries(stations));
    var m := Report(gs, h);
    var ks := ReportRuns(gs, h);
    FindIsRefineAll(stations, h);
    forall i | 0 <= i < |m| ensures InsideWindow(Refine(m[i], Rows(stations)), lo, hi) {
      StormInside(stations, lo, hi, ks[i], m[i].closed);
    }
  }

  lemma StormInside(stations: seq<seq<Interval>>, lo: int, hi: int, k: nat, closed: bool)
    requires GoodRain(Rows(stations)) && RainInside(Rows(stations), lo, hi) && k < |Groups(WetSeries(stations))|
    ensures InsideWindow(Refine(Describe(Groups(WetSeries(stations))[k], closed), Rows(stations)), lo, hi)
  {
    hide Groups, WetSeries, Rows, Refine, MaxEnd, Value, OnsetOf, PeakOf, Total, Candidate, GoodRain;
    var g := Groups(WetSeries(stations))[k];
    RefineInside(stations, k, closed);
    var b := RunBins(stations, k, g[0]);
    var r :| r in Rows(stations) && r.Wet() && Hits(r, b);
    var last := LastBinReached(stations, k);
    forall r <- Rows(stations) | Candidate(r, g[0].start - BIN, MaxEnd(g) + BIN) ensures r.End() <= hi {
      CandidateWet(r, g[0].start - BIN, MaxEnd(g) + BIN);
    }
    RefineEnd(g, closed, Rows(stations), hi, last);
  }

  lemma WindowStormsMeet(table: seq<RainRow>, lo: int, hi: int, h: int)
    requires Ready(table, lo, hi, h)
    ensures forall s <- Find(Win(table, lo, hi), h) :: InsideWindow(s, lo, hi)
  {
    hide Rows, Win, All, Ready, InsideWindow, Find;
    ReadyParts(table, lo, hi, h);
    AllGood(table, h);
    WinGood(table, lo, hi, h);
    forall r <- Rows(Win(table, lo, hi)) | r.Wet() ensures r.start - lo >= EDGE_PAD && r.End() <= hi {
      WindowRainIsReal(table, lo, hi, h, r);
    }
    StormsInside(Win(table, lo, hi), lo, hi, h);
  }
}
