/** A window that the widening leaves at its cap, with a storm across its left end: every refresh of it changes the
    stored storms again (refreshStorms in internal/storms/storms.go). */
module CappedWindow {
  import opened Common
  import opened Rain
  import opened Storms
  import opened StormPipeline
  import opened Selection
  import opened StormWindow
  import opened StormWindowExact
  import opened StormRows
  import opened StormRefresh

  // ----- strong rain is part of a storm ------------------------------------------------------------------------------

  lemma {:induction false} DepthAtLeast(st: seq<Interval>, r: Interval, b: int)
    requires GoodRain(st) && r in st
    ensures Depth(st, b) >= Part(r, b)
  {
    hide Part, Rain.Hits, WetBin;
    var n := |st| - 1;
    assert st == st[..n] + [st[n]];
    PartSign(st[n], b);
    DepthSign(st[..n], b);
    if r in st[..n] { DepthAtLeast(st[..n], r, b); }
  }

  lemma {:induction false} DepthsBounded(stations: seq<seq<Interval>>, b: int) returns (top: real)
    ensures forall i :: 0 <= i < |stations| ==> Depth(stations[i], b) <= top
  {
    hide Depth;
    top := 0.0;
    if stations != [] {
      var n := |stations| - 1;
      top := DepthsBounded(stations[..n], b);
      assert forall i :: 0 <= i < n ==> stations[..n][i] == stations[i];
      if Depth(stations[n], b) > top { top := Depth(stations[n], b); }
    }
  }

  lemma ValueAtLeast(stations: seq<seq<Interval>>, b: int, low: real)
    requires Reporting(stations, b) > 0
    requires forall i :: 0 <= i < |stations| && Covers(stations[i], b) ==> low <= Depth(stations[i], b)
    ensures low <= Value(stations, b)
  {
    hide Covers, Depth, Reporting, Value;
    var top := DepthsBounded(stations, b);
    MeanBetween(stations, b, low, top);
  }

  lemma {:induction false} TotalAtLeast(g: seq<Interval>, x: Interval)
    requires (forall i :: 0 <= i < |g| ==> g[i].mm >= 0.0) && x in g
    ensures Total(g) >= x.mm
  {
    var n := |g| - 1;
    NoNegative(g[..n]);
    if x in g[..n] { TotalAtLeast(g[..n], x); }
  }

  lemma {:induction false} NoNegative(g: seq<Interval>)
    requires forall i :: 0 <= i < |g| ==> g[i].mm >= 0.0
    ensures Total(g) >= 0.0
  {
    if g != [] { NoNegative(g[..|g| - 1]); }
  }

  lemma {:induction false} ClosedHas(gs: seq<Group>, k: nat) returns (i: nat)
    requires k < |gs| && Total(gs[k]) >= MIN_TOTAL
    ensures i < |AllClosed(gs)| && AllClosed(gs)[i] == Describe(gs[k], true)
  {
    hide Describe, Total;
    var n := |gs| - 1;
    if k < n { i := ClosedHas(gs[..n], k); } else { i := |AllClosed(gs[..n])|; }
  }

  lemma ReportHas(gs: seq<Group>, k: nat, h: int) returns (i: nat, closed: bool)
    requires k < |gs| && Total(gs[k]) >= MIN_TOTAL
    ensures i < |Report(gs, h)| && Report(gs, h)[i] == Describe(gs[k], closed)
  {
    hide Describe, Total, AllClosed, MaxEnd;
    var n := |gs| - 1;
    if k < n {
      i := ClosedHas(gs[..n], k);
      closed := true;
    } else {
      i, closed := |AllClosed(gs[..n])|, h >= MaxEnd(gs[n]) + GAP;
    }
  }

  /** Whether the bin an interval begins in holds enough rain for a storm at every station that reports for it. */
  ghost predicate Heavy(stations: seq<seq<Interval>>, r: Interval) {
    forall i :: 0 <= i < |stations| && Covers(stations[i], FirstBin(r)) ==> MIN_TOTAL <= Depth(stations[i], FirstBin(r))
  }

  /** A run holds the bin that a wet interval begins in. */
  lemma RunOf(stations: seq<seq<Interval>>, r: Interval) returns (k: nat)
    requires GoodRain(Rows(stations)) && r in Rows(stations) && r.Wet() && Heavy(stations, r)
    ensures k < |Groups(WetSeries(stations))|
    ensures var g := Groups(WetSeries(stations))[k];
            && Candidate(r, g[0].start - BIN, MaxEnd(g) + BIN) && Total(g) >= MIN_TOTAL
  {
    hide Groups, MaxEnd, Merged, WetOnly, Rows, Value, Reporting, Covers, Depth, Total, Flatten, Segmentation, FirstBin,
      LastBin, Heavy;
    var w, b := WetSeries(stations), FirstBin(r);
    var gs := Groups(w);
    SpansBins(r);
    assert WetBin(Rows(stations), b);
    var x := Cell(stations, b);
    WetCells(stations, x);
    GroupsAreSegmentation(w);
    k := GroupOf(gs, x);
    MergedWetOrdered(stations);
    FirstStart(w, k, x);
    EndInside(gs[k], x);
    HeavyCell(stations, r);
    forall i | 0 <= i < |gs[k]| ensures gs[k][i].mm >= 0.0 {
      FlattenMember(gs, k, gs[k][i]);
      WetMember(Merged(stations), gs[k][i]);
    }
    TotalAtLeast(gs[k], x);
  }

  lemma EndInside(g: Group, x: Interval)
    requires x in g
    ensures x.End() <= MaxEnd(g)
  {
  }

  lemma HeavyCell(stations: seq<seq<Interval>>, r: Interval)
    requires GoodRain(Rows(stations)) && WetBin(Rows(stations), FirstBin(r)) && Heavy(stations, r)
    ensures Value(stations, FirstBin(r)) >= MIN_TOTAL
  {
    hide Rows, WetBin, Covers, Depth, FirstBin, Value, Reporting;
    ValueSign(stations, FirstBin(r));
    ValueAtLeast(stations, FirstBin(r), MIN_TOTAL);
  }

  /** Some storm has a strong, heavy interval in it: its onset is no later, its end no earlier. */
  lemma StormOf(stations: seq<seq<Interval>>, r: Interval, h: int) returns (i: nat)
    requires GoodRain(Rows(stations)) && r in Rows(stations) && r.Wet() && Strong(r) && Heavy(stations, r)
    ensures i < |Find(stations, h)|
    ensures var s := Find(stations, h)[i]; s.onset <= r.start && r.End() <= s.rainEnd
  {
    hide Groups, MaxEnd, WetSeries, Rows, Total, Report, Refine, Describe, Heavy, Find, Candidate, Strong;
    var k := RunOf(stations, r);
    var g := Groups(WetSeries(stations))[k];
    var closed;
    i, closed := ReportHas(Groups(WetSeries(stations)), k, h);
    FindIsRefineAll(stations, h);
    RefinedAround(g, closed, Rows(stations), r);
  }

  lemma RefinedAround(g: Group, closed: bool, rows: seq<Interval>, r: Interval)
    requires r in rows && Strong(r) && Candidate(r, g[0].start - BIN, MaxEnd(g) + BIN)
    ensures var s := Refine(Describe(g, closed), rows); s.onset <= r.start && r.End() <= s.rainEnd
  {
    hide EarliestStrong, LatestEnd, OnsetOf, PeakOf, Total, MaxEnd, Candidate, Strong;
    EarliestMeaning(rows, g[0].start - BIN, MaxEnd(g) + BIN);
    LatestMeaning(rows, g[0].start - BIN, MaxEnd(g) + BIN);
  }

  // ----- a storm across the left end ---------------------------------------------------------------------------------

  lemma {:induction false} KeptHas(cs: seq<Computed>, lo: int, hi: int, i: nat) returns (j: nat)
    requires i < |cs| && Meets(cs[i], lo, hi)
    ensures j < |Kept(cs, lo, hi)| && Kept(cs, lo, hi)[j] == cs[i]
  {
    hide Meets;
    var n := |cs| - 1;
    if i < n { j := KeptHas(cs[..n], lo, hi, i); } else { j := |Kept(cs[..n], lo, hi)|; }
  }

  /** If strong rain lies across the left end of the window that the widening ends with, its storm never finds its row
      back. */
  lemma CutStorm(table: seq<RainRow>, lo0: int, hi0: int, r: Interval)
    requires GoodTable(table)
    requires var w := FinalWindow(table, lo0, hi0);
             && r in WindowRows(table, w.lo, w.hi) && r.start < w.lo < r.End() && w.lo <= w.hi
             && r.Wet() && Strong(r) && Heavy(Selected(Listed(table, w.lo, w.hi)), r)
    ensures !AllFindBack(table, lo0, hi0)
  {
    hide Find, Rows, GaugeSaw, Selected, Listed, GoodTable, GoodRain, Kept, GaugeFlags, Reach, FinalWindow, Strong,
      Heavy, Round2;
    var w, reach := FinalWindow(table, lo0, hi0), Reach(table, lo0 - SCAN_BEFORE);
    var rows := Listed(table, w.lo, w.hi);
    FlagsFit(rows);
    ListedRainGood(table, w.lo, w.hi);
    var i := StormOf(Selected(rows), r, reach);
    FoundApart(Selected(rows), reach);
    var cs := StormsIn(table, w.lo, w.hi, reach);
    var j := KeptHas(cs, w.lo, w.hi, i);
    assert DbTime(cs[i].storm.onset) < w.lo;
    assert !FindsBack(Refreshing(table, lo0, hi0)[j], w.lo, w.hi);
  }

  // ----- rain across every midnight ----------------------------------------------------------------------------------

  /** Two hours of rain across midnight. */
  function Midnight(k: nat): RainRow { RainRow(Gauge, 0, (k + 1) * DAY - HOUR, 7200, 120.0) }

  function Midnights(n: nat): seq<RainRow> { seq(n, k requires 0 <= k < n => Midnight(k)) }

  lemma MidnightsGood(n: nat)
    ensures GoodTable(Midnights(n))
  {
  }

  lemma MidnightsReach(n: nat, from: int)
    requires n > 0
    ensures Reach(Midnights(n), from) <= n * DAY + HOUR
  {
    hide Reach;
    ReachMeaning(Midnights(n), from);
  }

  /** The rain of a window that begins at a midnight, and ends after the last row. */
  lemma MidnightRain(n: nat, m: nat)
    requires 0 < m <= n
    ensures var rows := WindowRows(Midnights(n), m * DAY, n * DAY + 2 * HOUR);
            && Midnight(m - 1).Iv() in rows
            && forall r <- rows :: exists k: nat :: m - 1 <= k < n && r == Midnight(k).Iv()
  {
    hide Selected, Listed, Rows, GaugeOverlaps;
    var t, lo, hi := Midnights(n), m * DAY, n * DAY + 2 * HOUR;
    var x := t[m - 1];
    assert x in t;
    ListedMember(t, lo, hi, x);
    assert Chosen(Listed(t, lo, hi), x);
    SelectedMember(Listed(t, lo, hi), x.Iv());
    forall r <- WindowRows(t, lo, hi) ensures exists k: nat :: m - 1 <= k < n && r == Midnight(k).Iv() {
      var y := SourceRow(t, lo, hi, r);
      var k: nat :| k < n && t[k] == y;
      assert y == Midnight(k);
    }
  }

  /** Such a window is widened by a day on the left, unless the cap is reached. */
  lemma {:induction false} MidnightsWiden(n: nat, m: nat, reach: int)
    requires MAX_EXTENSIONS < n && n - MAX_EXTENSIONS <= m <= n && reach <= n * DAY + HOUR
    ensures Widened(Midnights(n), m * DAY, n * DAY + 2 * HOUR, reach, n - m) ==
            Wide((n - MAX_EXTENSIONS) * DAY, n * DAY + 2 * HOUR, MAX_EXTENSIONS)
    decreases m
  {
    hide WindowRows, ExtentOf, Widened, Midnights;
    var t, lo, hi := Midnights(n), m * DAY, n * DAY + 2 * HOUR;
    WidenedStep(t, lo, hi, reach, n - m);
    if n - m < MAX_EXTENSIONS {
      MidnightExtent(n, m);
      MidnightsWiden(n, m - 1, reach);
      assert lo - DAY == (m - 1) * DAY;
    }
  }

  lemma MidnightExtent(n: nat, m: nat)
    requires 0 < m <= n
    ensures var e := ExtentOf(WindowRows(Midnights(n), m * DAY, n * DAY + 2 * HOUR)); e.Wet? && e.first < m * DAY
  {
    hide WindowRows, ExtentOf, Midnights;
    MidnightRain(n, m);
    ExtentOfMeaning(WindowRows(Midnights(n), m * DAY, n * DAY + 2 * HOUR));
  }

  /** Every station that reports for the first bin of such a rain has five millimetres in it. */
  lemma MidnightHeavy(n: nat, m: nat)
    requires 0 < m <= n
    ensures var stations := Selected(Listed(Midnights(n), m * DAY, n * DAY + 2 * HOUR));
            GoodRain(Rows(stations)) && Heavy(stations, Midnight(m - 1).Iv())
  {
    hide Selected, Listed, Rows, Midnights, Depth, Part;
    var t, r := Midnights(n), Midnight(m - 1).Iv();
    var stations := Selected(Listed(t, m * DAY, n * DAY + 2 * HOUR));
    MidnightsGood(n);
    ListedRainGood(t, m * DAY, n * DAY + 2 * HOUR);
    MidnightRain(n, m);
    forall i | 0 <= i < |stations| && Covers(stations[i], FirstBin(r))
      ensures MIN_TOTAL <= Depth(stations[i], FirstBin(r))
    {
      StationInRows(stations, i);
      var q :| q in stations[i] && Rain.Hits(q, FirstBin(r));
      var k: nat :| m - 1 <= k < n && q == Midnight(k).Iv();
      MidnightBin(m - 1, k);
      DepthAtLeast(stations[i], r, FirstBin(r));
    }
  }

  lemma {:induction false} StationInRows(stations: seq<seq<Interval>>, i: nat)
    requires i < |stations|
    ensures forall q <- stations[i] :: q in Rows(stations)
  {
    if i < |stations| - 1 { StationInRows(stations[..|stations| - 1], i); }
  }

  /** Only the midnight's own rain falls in its first bin, and five millimetres of it. */
  lemma MidnightBin(j: nat, k: nat)
    ensures var r := Midnight(j).Iv();
            && (Rain.Hits(Midnight(k).Iv(), FirstBin(r)) ==> k == j)
            && Part(r, FirstBin(r)) == MIN_TOTAL
  {
    var r := Midnight(j).Iv();
    var b := FirstBin(r);
    assert r.start == b * BIN by {
      assert r.start == ((j + 1) * 288 - 12) * BIN;
      FloorAt(r.start, (j + 1) * 288 - 12, BIN);
    }
    assert Overlap(r, b) == BIN;
    assert Share(120.0, BIN, 7200 * SECOND) == 5.0;
  }

  /** For every spell of more than ninety days with rain across every midnight: a refresh of its last midnight is
      widened to the cap, and a second refresh changes the stored storms again. */
  lemma WetSpell(n: nat)
    requires n > MAX_EXTENSIONS
    ensures GoodTable(Midnights(n))
    ensures FinalWindow(Midnights(n), n * DAY, n * DAY + 2 * HOUR) ==
            Wide((n - MAX_EXTENSIONS) * DAY, n * DAY + 2 * HOUR, MAX_EXTENSIONS)
    ensures !AllFindBack(Midnights(n), n * DAY, n * DAY + 2 * HOUR)
  {
    hide Midnights, GoodTable, Widened, AllFindBack, WindowRows, Selected, Listed, Reach, Heavy, GoodRain;
    var t, m := Midnights(n), n - MAX_EXTENSIONS;
    var r := Midnight(m - 1).Iv();
    MidnightsGood(n);
    MidnightsReach(n, n * DAY - SCAN_BEFORE);
    MidnightsWiden(n, n, Reach(t, n * DAY - SCAN_BEFORE));
    MidnightRain(n, m);
    MidnightHeavy(n, m);
    assert r.Wet() && Strong(r);
    CutStorm(t, n * DAY, n * DAY + 2 * HOUR, r);
  }
}
