/** One refresh of the storm analytics, end to end: widen the window, find its storms, reconcile the
    stored rows (refreshStorms in internal/storms/storms.go). */
module StormRefresh {
  import opened Rain
  import opened Storms
  import opened StormPipeline
  import opened Selection
  import opened StormWindow
  import opened StormWindowExact
  import opened StormRows
  import opened StormRecords

  /** An own gauge saw rain during the storm. */
  predicate GaugeSaw(stations: seq<seq<Interval>>, gauge: seq<bool>, s: Storm)
    requires |gauge| == |stations|
  {
    exists i :: 0 <= i < |stations| && gauge[i] &&
      exists r <- stations[i] :: r.Wet() && r.End() > s.firstRain && r.start < s.rainEnd
  }

  function WithSource(stations: seq<seq<Interval>>, gauge: seq<bool>, storms: seq<Storm>): seq<Computed>
    requires |gauge| == |stations|
  {
    seq(|storms|, i requires 0 <= i < |storms| => Computed(storms[i], GaugeSaw(stations, gauge, storms[i])))
  }

  /** The pipeline's storms come in order, with dry time between them. */
  lemma FoundSpaced(stations: seq<seq<Interval>>, gauge: seq<bool>, horizon: int)
    requires GoodRain(Rows(stations)) && |gauge| == |stations|
    ensures Spaced(WithSource(stations, gauge, Find(stations, horizon)))
  {
    hide Find, Rows, GaugeSaw, Segment;
    FoundApart(stations, horizon);
  }

  /** What a refresh of the window [lo, hi] reconciles the stored rows with: a function of the rainfall table alone. */
  function StormsIn(table: seq<RainRow>, lo: int, hi: int, horizon: int): seq<Computed> {
    var rows := Listed(table, lo, hi);
    WithSource(Selected(rows), GaugeFlags(rows), Find(Selected(rows), horizon))
  }

  /** Once the window is settled on the left and no rain in it reaches past its right end, all its storms meet it and
      find their rows back, whatever the query's scan has missed. */
  lemma SettledFindsBack(table: seq<RainRow>, lo: int, hi: int, h: int)
    requires GoodTable(table) && RainInside(WindowRows(table, lo, hi), lo, hi)
    ensures var cs := StormsIn(table, lo, hi, h);
            && Spaced(cs) && Kept(cs, lo, hi) == cs && forall i :: 0 <= i < |cs| ==> FindsBack(cs[i], lo, hi)
  {
    hide Find, Rows, GaugeSaw, Selected, Listed, GoodTable, GoodRain, Spaced, Kept, GaugeFlags, RainInside;
    FlagsFit(Listed(table, lo, hi));
    var w, gauge := Selected(Listed(table, lo, hi)), GaugeFlags(Listed(table, lo, hi));
    ListedRainGood(table, lo, hi);
    FoundSpaced(w, gauge, h);
    StormsInside(w, lo, hi, h);
    var storms := Find(w, h);
    var cs := WithSource(w, gauge, storms);
    forall i | 0 <= i < |cs| ensures FindsBack(cs[i], lo, hi) && Meets(cs[i], lo, hi) {
      assert InsideWindow(storms[i], lo, hi);
      InsideFindsBack(cs[i], lo, hi);
    }
    KeepsAll(cs, lo, hi);
  }

  lemma FlagsFit(rows: seq<RainRow>)
    ensures |GaugeFlags(rows)| == |Selected(rows)|
  {
  }

  lemma InsideFindsBack(c: Computed, lo: int, hi: int)
    requires InsideWindow(c.storm, lo, hi)
    ensures FindsBack(c, lo, hi) && Meets(c, lo, hi)
  {
    BinBeforeDbTime(c.storm.firstRain, c.storm.onset);
    BinBeforeDbTime(c.storm.firstRain, c.storm.rainEnd);
    hide DbTime, Round2;
  }

  /** Truncating to microseconds never moves a time before the start of a bin it lies after. */
  lemma BinBeforeDbTime(a: int, t: int)
    requires a % BIN == 0 && a <= t
    ensures a <= DbTime(t) <= t
  {
    var k := a / BIN;
    assert a == k * 300_000_000 * MICRO;
    assert t / MICRO >= k * 300_000_000;
  }

  lemma {:induction false} KeepsAll(cs: seq<Computed>, lo: int, hi: int)
    requires forall i :: 0 <= i < |cs| ==> Meets(cs[i], lo, hi)
    ensures Kept(cs, lo, hi) == cs
  {
    if cs != [] {
      KeepsAll(cs[..|cs| - 1], lo, hi);
      assert cs == cs[..|cs| - 1] + [cs[|cs| - 1]];
    }
  }

  /** Without rain there is no storm, whatever the horizon. */
  lemma DryFindsNothing(stations: seq<seq<Interval>>, horizon: int)
    requires GoodRain(Rows(stations)) && forall r <- Rows(stations) :: !r.Wet()
    ensures Find(stations, horizon) == []
  {
    hide Rows, WetOnly, Merged, Value;
    var w := WetOnly(Merged(stations));
    if w != [] {
      WetCells(stations, w[0]);
      assert false;
    }
  }

  /** The storms and the window of a refresh of [lo, hi]. */
  function Refreshing(table: seq<RainRow>, lo: int, hi: int): seq<Computed> {
    var w := FinalWindow(table, lo, hi);
    Kept(StormsIn(table, w.lo, w.hi, Reach(table, lo - SCAN_BEFORE)), w.lo, w.hi)
  }

  /** One refresh: everything but the ids of new rows follows from the rainfall table and the first window. */
  method RefreshStorms(table: seq<RainRow>, store: StormTable, lo0: int, hi0: int)
    returns (lo: int, hi: int, ids: seq<Id>, changes: nat, extensions: nat, ghost at: seq<nat>)
    requires GoodTable(table) && store.Valid()
    modifies store
    ensures Replaced(old(store.rows), store.rows, StormsIn(table, lo, hi, Reach(table, lo0 - SCAN_BEFORE)), lo, hi, ids,
                     at)
    ensures store.Valid() && Wide(lo, hi, extensions) == FinalWindow(table, lo0, hi0)
    ensures Refreshed(old(store.rows), store.rows, Refreshing(table, lo0, hi0), lo, hi, ids)
    ensures changes == 0 <==> store.rows == old(store.rows)
  {
    hide Find, Rows, GaugeSaw, Selected, Listed, GoodTable, GoodRain, Spaced, Kept, Refreshed, GaugeFlags, Reach,
      FinalWindow, Replaced;
    var stations, gauge, reach;
    lo, hi, stations, gauge, reach, extensions := WidenWindow(table, lo0, hi0);
    FlagsFit(Listed(table, lo, hi));
    ListedRainGood(table, lo, hi);
    var storms := FindStorms(stations, reach);
    FoundSpaced(stations, gauge, reach);
    var cs := WithSource(stations, gauge, storms);
    ghost var was := store.rows;
    ids, changes := store.Refresh(cs, lo, hi);
    at := RefreshedMeans(was, store.rows, cs, lo, hi, ids);
  }

  // ----- which source a storm names ----------------------------------------------------------------------------------

  /** A gauge's row, wet during the storm. */
  predicate GaugeRain(x: RainRow, s: Storm) {
    x.source == Gauge && x.mm > 0.0 && x.ts < s.rainEnd && s.firstRain < x.ts + x.intervalS * SECOND
  }

  lemma {:induction false} RowsMember(stations: seq<seq<Interval>>, r: Interval)
    ensures r in Rows(stations) <==> exists i :: 0 <= i < |stations| && r in stations[i]
  {
    if stations != [] {
      var n := |stations| - 1;
      RowsMember(stations[..n], r);
      if i :| 0 <= i < n && r in stations[..n][i] { assert stations[i] == stations[..n][i]; }
      if i :| 0 <= i < |stations| && r in stations[i] && i < n { assert stations[..n][i] == stations[i]; }
    }
  }

  function OwnSeries(rows: seq<RainRow>): seq<seq<Interval>> { Picked(rows, Gauge, Ascending(Ids(rows, Gauge))) }

  /** The gauges' series hold exactly the gauges' rows. */
  lemma OwnMember(rows: seq<RainRow>, r: Interval)
    ensures r in Rows(OwnSeries(rows)) <==> exists x <- rows :: x.source == Gauge && x.Iv() == r
  {
    hide Rows, Picked, Ascending, SeriesOf, Ids;
    var ids := Ascending(Ids(rows, Gauge));
    PickedMember(rows, Gauge, ids, r);
    if i :| 0 <= i < |ids| && r in StationSeries(rows, Gauge, ids[i]) { SeriesMember(rows, Gauge, ids[i], r); }
    if x :| x in rows && x.source == Gauge && x.Iv() == r {
      var i := IdListed(rows, x);
      SeriesMember(rows, Gauge, x.station, r);
      assert r in StationSeries(rows, Gauge, ids[i]);
    }
  }

  lemma FlagsMean(rows: seq<RainRow>, i: nat)
    requires i < |Selected(rows)|
    ensures |GaugeFlags(rows)| == |Selected(rows)|
    ensures GaugeFlags(rows)[i] <==> i < |OwnSeries(rows)|
    ensures i < |OwnSeries(rows)| ==> Selected(rows)[i] == OwnSeries(rows)[i]
    ensures |OwnSeries(rows)| <= |Selected(rows)|
  {
    hide Picked, Ascending, Ids;
  }

  /** A storm is put down to the gauges exactly if a gauge's row in the window was wet during it. */
  lemma SourceMeaning(table: seq<RainRow>, lo: int, hi: int, h: int, i: nat)
    requires i < |StormsIn(table, lo, hi, h)|
    ensures var c := StormsIn(table, lo, hi, h)[i];
            c.gauge <==> exists x <- table :: InWindow(x, lo, hi) && GaugeRain(x, c.storm)
  {
    hide Find, Rows, Selected, Listed, GaugeFlags, OwnSeries, InWindow;
    var rows := Listed(table, lo, hi);
    FlagsFit(rows);
    var stations, s := Selected(rows), StormsIn(table, lo, hi, h)[i].storm;
    SourceIs(rows, s);
    forall x ensures x in rows <==> x in table && InWindow(x, lo, hi) { ListedMember(table, lo, hi, x); }
  }

  lemma SourceIs(rows: seq<RainRow>, s: Storm)
    ensures |GaugeFlags(rows)| == |Selected(rows)|
    ensures GaugeSaw(Selected(rows), GaugeFlags(rows), s) <==> exists x <- rows :: GaugeRain(x, s)
  {
    hide Rows, Selected, GaugeFlags, OwnSeries;
    var stations, gauge, own := Selected(rows), GaugeFlags(rows), OwnSeries(rows);
    FlagsFit(rows);
    if GaugeSaw(stations, gauge, s) {
      var i: nat :| i < |stations| && gauge[i]
               && exists r: Interval <- stations[i] :: r.Wet() && r.End() > s.firstRain && r.start < s.rainEnd;
      var r: Interval :| r in stations[i] && r.Wet() && r.End() > s.firstRain && r.start < s.rainEnd;
      FlagsMean(rows, i);
      RowsMember(own, r);
      OwnMember(rows, r);
      var x :| x in rows && x.source == Gauge && x.Iv() == r;
      assert GaugeRain(x, s);
    }
    if x :| x in rows && GaugeRain(x, s) {
      var r := x.Iv();
      OwnMember(rows, r);
      RowsMember(own, r);
      var i :| 0 <= i < |own| && r in own[i];
      OwnSize(rows);
      FlagsMean(rows, i);
      assert r in stations[i];
    }
  }

  lemma OwnSize(rows: seq<RainRow>)
    ensures |OwnSeries(rows)| <= |Selected(rows)|
  {
    hide Picked, Ascending, Ids;
  }

  // ----- the same again ----------------------------------------------------------------------------------------------

  lemma ListedRainGood(table: seq<RainRow>, lo: int, hi: int)
    requires GoodTable(table)
    ensures GoodRain(Rows(Selected(Listed(table, lo, hi))))
  {
    hide Selected, Rows, Listed;
    var rows := Listed(table, lo, hi);
    forall r <- Rows(Selected(rows)) ensures r.mm >= 0.0 && r.dur > 0 {
      SelectedMember(rows, r);
      var x :| Chosen(rows, x) && x.Iv() == r;
      ListedMember(table, lo, hi, x);
    }
  }

  /** Refreshing twice with no new rain: the second refresh changes nothing, exactly if every storm finds its row back,
      and then it returns the same ids. */
  method RefreshAgain(table: seq<RainRow>, store: StormTable, lo0: int, hi0: int)
    returns (ids: seq<Id>, ids': seq<Id>, changes': nat)
    requires GoodTable(table) && store.Valid()
    modifies store
    ensures store.Valid()
    ensures changes' == 0 <==> AllFindBack(table, lo0, hi0)
    ensures changes' == 0 ==> ids' == ids
  {
    hide Refreshed, Refreshing, FindsBack, GoodTable, Widened, Spaced, Replaced, StormsIn;
    ghost var t := store.rows;
    var lo, hi, changes, extensions; ghost var at;
    lo, hi, ids, changes, extensions, at := RefreshStorms(table, store, lo0, hi0);
    ghost var t' := store.rows;
    lo, hi, ids', changes', extensions, at := RefreshStorms(table, store, lo0, hi0);
    RefreshingSpaced(table, lo0, hi0);
    RefreshTwice(t, t', store.rows, Refreshing(table, lo0, hi0), lo, hi, ids, ids');
  }

  ghost predicate AllFindBack(table: seq<RainRow>, lo0: int, hi0: int) {
    var w := FinalWindow(table, lo0, hi0);
    forall i :: 0 <= i < |Refreshing(table, lo0, hi0)| ==> FindsBack(Refreshing(table, lo0, hi0)[i], w.lo, w.hi)
  }

  lemma RefreshingSpaced(table: seq<RainRow>, lo0: int, hi0: int)
    requires GoodTable(table)
    ensures Spaced(Refreshing(table, lo0, hi0))
  {
    hide Find, Rows, GaugeSaw, Selected, Listed, GoodTable, GoodRain, Spaced, Kept, GaugeFlags, Reach, FinalWindow;
    var w, reach := FinalWindow(table, lo0, hi0), Reach(table, lo0 - SCAN_BEFORE);
    var rows := Listed(table, w.lo, w.hi);
    FlagsFit(rows);
    ListedRainGood(table, w.lo, w.hi);
    FoundSpaced(Selected(rows), GaugeFlags(rows), reach);
    KeptOrdered(StormsIn(table, w.lo, w.hi, reach), w.lo, w.hi);
  }

  /** No rain of the window that the widening ends with reaches past its right end. */
  ghost predicate EndsInside(table: seq<RainRow>, lo0: int, hi0: int) {
    var w := FinalWindow(table, lo0, hi0);
    forall r <- WindowRows(table, w.lo, w.hi) :: r.Wet() ==> r.End() <= w.hi
  }

  /** They do whenever the widening stopped on its own with all rain inside, whatever the scans have missed. */
  lemma SettledRefreshTwice(table: seq<RainRow>, lo0: int, hi0: int)
    requires GoodTable(table) && FinalWindow(table, lo0, hi0).extensions < MAX_EXTENSIONS
    requires EndsInside(table, lo0, hi0)
    ensures AllFindBack(table, lo0, hi0)
    ensures var w := FinalWindow(table, lo0, hi0);
            Refreshing(table, lo0, hi0) == StormsIn(table, w.lo, w.hi, Reach(table, lo0 - SCAN_BEFORE))
  {
    hide WindowRows, StormsIn, GoodTable, Kept, Reach, FindsBack, Widened;
    var w, reach := FinalWindow(table, lo0, hi0), Reach(table, lo0 - SCAN_BEFORE);
    WidenedSettles(table, lo0, hi0, reach, 0);
    SettledFindsBack(table, w.lo, w.hi, reach);
  }

  /** All rain lies inside if the first window's query scans every row that overlaps it; the storms are then those that
      the record's horizon gives. */
  lemma ScannedEndsInside(table: seq<RainRow>, lo0: int, hi0: int, h: int)
    requires GoodTable(table) && IsHorizon(table, h) && InReach(table, lo0, hi0) && lo0 <= hi0
    requires FinalWindow(table, lo0, hi0).extensions < MAX_EXTENSIONS
    ensures EndsInside(table, lo0, hi0)
    ensures var w := FinalWindow(table, lo0, hi0); Refreshing(table, lo0, hi0) == StormsIn(table, w.lo, w.hi, h)
  {
    hide Find, Rows, GaugeSaw, Selected, Listed, GoodTable, IsHorizon, Settled, GoodRain, Spaced, Kept, GaugeFlags,
      Reach, FinalWindow, InReach, FindsBack;
    var w, reach := FinalWindow(table, lo0, hi0), Reach(table, lo0 - SCAN_BEFORE);
    FinalWindowSettles(table, lo0, hi0, h);
    SettledEndsInside(table, w.lo, w.hi, h);
    SettledRefreshTwice(table, lo0, hi0);
    if reach != h {
      var stations := Selected(Listed(table, w.lo, w.hi));
      FlagsFit(Listed(table, w.lo, w.hi));
      ListedRainGood(table, w.lo, w.hi);
      DryFindsNothing(stations, reach);
      DryFindsNothing(stations, h);
    }
  }

  lemma SettledEndsInside(table: seq<RainRow>, lo: int, hi: int, h: int)
    requires Settled(table, lo, hi, h) && IsHorizon(table, h)
    ensures forall r <- WindowRows(table, lo, hi) :: r.Wet() ==> r.End() <= hi
  {
    hide Selected, Listed, Rows;
    forall r <- WindowRows(table, lo, hi) | r.Wet() ensures r.End() <= hi {
      var x := SourceRow(table, lo, hi, r);
    }
  }

  /** A selected interval comes from a row of the table. */
  lemma SourceRow(table: seq<RainRow>, lo: int, hi: int, r: Interval) returns (x: RainRow)
    requires r in WindowRows(table, lo, hi)
    ensures x in table && InWindow(x, lo, hi) && x.Iv() == r
  {
    hide Selected, Listed, Rows;
    SelectedMember(Listed(table, lo, hi), r);
    x :| Chosen(Listed(table, lo, hi), x) && x.Iv() == r;
    ListedMember(table, lo, hi, x);
  }
}
