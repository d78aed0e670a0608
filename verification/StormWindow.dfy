/** The window that refreshStorms re-segments (internal/storms/storms.go): it is widened a day at a
    time until no wet interval lies near its ends. */
module StormWindow {
  import opened Common
  import opened Rain
  import opened Storms
  import opened StormPipeline
  import opened Selection

  const EDGE_PAD := GAP + HOUR
  const DAY := 24 * HOUR
  const MAX_EXTENSIONS := 90
  const SCAN_BEFORE := 7 * DAY

  /** What the schema and the writers of the rainfall table guarantee: rows last at least a second, depths are not
      negative, and ECCC rows are hourly. A gauge row can be as long as uplinks were lost. */
  predicate GoodRow(r: RainRow) {
    r.intervalS > 0 && r.mm >= 0.0 && (r.source == Eccc ==> r.intervalS == 3600)
  }

  /** No row that overlaps the window starts before the part of the table that its query scans. */
  ghost predicate InReach(table: seq<RainRow>, lo: int, hi: int) {
    forall r <- table :: r.ts < hi && r.Iv().End() > lo ==> r.ts >= lo - SCAN_BEFORE
  }

  ghost predicate GoodTable(table: seq<RainRow>) { forall r <- table :: GoodRow(r) }

  /** The rows a window query returns: intervals overlapping [lo, hi), scanned from a week before. */
  predicate InWindow(r: RainRow, lo: int, hi: int) {
    lo - SCAN_BEFORE <= r.ts < hi && r.Iv().End() > lo
  }

  function Listed(table: seq<RainRow>, lo: int, hi: int): seq<RainRow> {
    if table == [] then []
    else
      var n := |table| - 1;
      if InWindow(table[n], lo, hi) then Listed(table[..n], lo, hi) + [table[n]] else Listed(table[..n], lo, hi)
  }

  lemma {:induction false} ListedMember(table: seq<RainRow>, lo: int, hi: int, r: RainRow)
    ensures r in Listed(table, lo, hi) <==> r in table && InWindow(r, lo, hi)
  {
    if table != [] {
      var n := |table| - 1;
      assert table == table[..n] + [table[n]];
      ListedMember(table[..n], lo, hi, r);
    }
  }

  /** How far the rainfall rows that start at or after `from` reach; the epoch if there are none. */
  function Reach(table: seq<RainRow>, from: int): int {
    if table == [] then 0
    else
      var n := |table| - 1;
      if table[n].ts >= from then Max(Reach(table[..n], from), table[n].Iv().End()) else Reach(table[..n], from)
  }

  lemma {:induction false} ReachMeaning(table: seq<RainRow>, from: int)
    ensures Reach(table, from) >= 0
    ensures forall r <- table :: r.ts >= from ==> r.Iv().End() <= Reach(table, from)
    ensures Reach(table, from) == 0 || exists r <- table :: r.ts >= from && r.Iv().End() == Reach(table, from)
  {
    if table != [] {
      var n := |table| - 1;
      assert table == table[..n] + [table[n]];
      ReachMeaning(table[..n], from);
    }
  }

  /** How far the whole rainfall record reaches. */
  ghost predicate IsHorizon(table: seq<RainRow>, h: int) {
    && h >= 0 && (forall r <- table :: r.Iv().End() <= h)
    && (h == 0 || exists r <- table :: r.Iv().End() == h)
  }

  /** If any row overlaps the window, looking a week back is enough to find the horizon. */
  lemma ReachIsHorizon(table: seq<RainRow>, lo: int, hi: int, x: RainRow)
    requires GoodTable(table) && InReach(table, lo, hi) && x in table && x.ts >= lo - SCAN_BEFORE && x.Iv().End() > lo
    requires lo <= hi
    ensures IsHorizon(table, Reach(table, lo - SCAN_BEFORE))
  {
    ReachMeaning(table, lo - SCAN_BEFORE);
  }

  function WindowRows(table: seq<RainRow>, lo: int, hi: int): seq<Interval> {
    Rows(Selected(Listed(table, lo, hi)))
  }

  /** No wet interval lies near an end of the window, or the right end has passed all data. */
  ghost predicate Settled(table: seq<RainRow>, lo: int, hi: int, horizon: int) {
    forall r <- WindowRows(table, lo, hi) :: r.Wet() ==>
      r.start - lo >= EDGE_PAD && (hi - r.End() >= EDGE_PAD || hi >= horizon)
  }

  method WetExtent(stations: seq<seq<Interval>>) returns (e: Extent)
    ensures e == ExtentOf(Rows(stations))
  {
    hide Widen, Rows, ExtentOf;
    e := Dry;
    NoExtent(stations);
    for k := 0 to |stations|
      invariant e == ExtentOf(Rows(stations[..k]))
    {
      ghost var done := Rows(stations[..k]);
      MoreStations(stations, k);
      for i := 0 to |stations[k]|
        invariant e == ExtentOf(done + stations[k][..i])
      {
        MoreExtent(done, stations[k], i);
        e := Widen(e, stations[k][i]);
      }
    }
  }

  lemma NoExtent(stations: seq<seq<Interval>>)
    ensures ExtentOf(Rows(stations[..0])) == Dry && stations[..|stations|] == stations
  {
  }

  lemma MoreStations(stations: seq<seq<Interval>>, k: nat)
    requires k < |stations|
    ensures var st, done := stations[k], Rows(stations[..k]);
            Rows(stations[..k + 1]) == done + st && done + st[..0] == done && st[..|st|] == st
  {
    assert stations[..k + 1][..k] == stations[..k];
  }

  lemma MoreExtent(done: seq<Interval>, st: seq<Interval>, i: nat)
    requires i < |st|
    ensures ExtentOf(done + st[..i + 1]) == Widen(ExtentOf(done + st[..i]), st[i])
  {
    hide Widen;
    assert (done + st[..i + 1])[..|done| + i] == done + st[..i];
  }

  /** A window and how often it was widened. */
  datatype Wide = Wide(lo: int, hi: int, extensions: nat)

  /** The window after widening it a day at a time until no wet interval lies near its ends, or the cap is reached. */
  function Widened(table: seq<RainRow>, lo: int, hi: int, reach: int, n: nat): Wide
    decreases MAX_EXTENSIONS - n
  {
    var e := ExtentOf(WindowRows(table, lo, hi));
    if e.Dry? || n >= MAX_EXTENSIONS then Wide(lo, hi, n)
    else
      var left, right := e.first - lo < EDGE_PAD, hi - e.last < EDGE_PAD && hi < reach;
      if !left && !right then Wide(lo, hi, n)
      else Widened(table, if left then lo - DAY else lo, if right then hi + DAY else hi, reach, n + 1)
  }

  /** The window a refresh of [lo, hi] ends with. */
  function FinalWindow(table: seq<RainRow>, lo: int, hi: int): Wide {
    Widened(table, lo, hi, Reach(table, lo - SCAN_BEFORE), 0)
  }

  method WidenWindow(table: seq<RainRow>, lo0: int, hi0: int)
    returns (lo: int, hi: int, stations: seq<seq<Interval>>, gauge: seq<bool>, reach: int, extensions: nat)
    requires GoodTable(table)
    ensures Wide(lo, hi, extensions) == FinalWindow(table, lo0, hi0) && reach == Reach(table, lo0 - SCAN_BEFORE)
    ensures stations == Selected(Listed(table, lo, hi)) && gauge == GaugeFlags(Listed(table, lo, hi))
  {
    hide Listed, Selected, Rows, GoodTable, GaugeFlags, ExtentOf, Reach;
    reach := Reach(table, lo0 - SCAN_BEFORE);
    lo, hi, extensions := lo0, hi0, 0;
    while true
      invariant extensions <= MAX_EXTENSIONS
      invariant Widened(table, lo, hi, reach, extensions) == FinalWindow(table, lo0, hi0)
      decreases MAX_EXTENSIONS - extensions
    {
      var rows := Listed(table, lo, hi);
      ListedGood(table, lo, hi);
      stations, gauge := SelectRain(rows);
      var e := WetExtent(stations);
      if e.Dry? || extensions >= MAX_EXTENSIONS { break; }
      var extended := false;
      var lo', hi' := lo, hi;
      if e.first - lo < EDGE_PAD { lo', extended := lo - DAY, true; }
      if hi - e.last < EDGE_PAD && hi < reach { hi', extended := hi + DAY, true; }
      if !extended { break; }
      lo, hi, extensions := lo', hi', extensions + 1;
    }
  }

  ghost predicate AnyWet(rows: seq<Interval>) { exists r <- rows :: r.Wet() }

  /** What widening promises: it only grows the window, and ends settled or at the cap. */
  ghost predicate WellWidened(table: seq<RainRow>, lo: int, hi: int, reach: int, n: nat, w: Wide) {
    && w.lo <= lo && hi <= w.hi && n <= w.extensions <= MAX_EXTENSIONS
    && lo - w.lo <= (w.extensions - n) * DAY && w.hi - hi <= (w.extensions - n) * DAY
    && (Settled(table, w.lo, w.hi, reach) || w.extensions == MAX_EXTENSIONS)
    && (w.extensions > n ==> AnyWet(WindowRows(table, lo, hi)))
  }

  lemma {:induction false} WidenedSettles(table: seq<RainRow>, lo: int, hi: int, reach: int, n: nat)
    requires n <= MAX_EXTENSIONS
    ensures WellWidened(table, lo, hi, reach, n, Widened(table, lo, hi, reach, n))
    decreases MAX_EXTENSIONS - n
  {
    WidenedStep(table, lo, hi, reach, n);
    SettledBy(table, lo, hi, reach);
    hide Settled, WindowRows, ExtentOf, Widened, AnyWet;
    var e := ExtentOf(WindowRows(table, lo, hi));
    if e.Wet? && n < MAX_EXTENSIONS {
      var left, right := e.first - lo < EDGE_PAD, hi - e.last < EDGE_PAD && hi < reach;
      if left || right {
        WidenedSettles(table, if left then lo - DAY else lo, if right then hi + DAY else hi, reach, n + 1);
      }
    }
  }

  lemma WidenedStep(table: seq<RainRow>, lo: int, hi: int, reach: int, n: nat)
    ensures var e := ExtentOf(WindowRows(table, lo, hi));
            var left, right := e.Wet? && e.first - lo < EDGE_PAD, e.Wet? && hi - e.last < EDGE_PAD && hi < reach;
            Widened(table, lo, hi, reach, n) ==
              if n >= MAX_EXTENSIONS || (!left && !right) then Wide(lo, hi, n)
              else Widened(table, if left then lo - DAY else lo, if right then hi + DAY else hi, reach, n + 1)
  {
    hide WindowRows, ExtentOf;
  }

  /** The widening rule's test of a window decides whether it is settled. */
  lemma SettledBy(table: seq<RainRow>, lo: int, hi: int, reach: int)
    ensures var e := ExtentOf(WindowRows(table, lo, hi));
            && (Settled(table, lo, hi, reach) <==>
                e.Dry? || (e.first - lo >= EDGE_PAD && (hi - e.last >= EDGE_PAD || hi >= reach)))
            && (e.Wet? ==> AnyWet(WindowRows(table, lo, hi)))
  {
    hide WindowRows, ExtentOf;
    ExtentOfMeaning(WindowRows(table, lo, hi));
  }

  /** If the query of the first window scans every row that overlaps it, the horizon it finds is the record's, unless
      the window is dry and stays as it is. */
  lemma FinalWindowSettles(table: seq<RainRow>, lo: int, hi: int, horizon: int)
    requires GoodTable(table) && IsHorizon(table, horizon) && InReach(table, lo, hi) && lo <= hi
    ensures var w := FinalWindow(table, lo, hi);
            && w.lo <= lo && hi <= w.hi && w.extensions <= MAX_EXTENSIONS
            && (Settled(table, w.lo, w.hi, horizon) || w.extensions == MAX_EXTENSIONS)
            && (Reach(table, lo - SCAN_BEFORE) == horizon || forall r <- WindowRows(table, w.lo, w.hi) :: !r.Wet())
  {
    hide Listed, Selected, Rows, Reach, ExtentOf, IsHorizon, GoodTable, InReach;
    var reach, w := Reach(table, lo - SCAN_BEFORE), FinalWindow(table, lo, hi);
    WidenedSettles(table, lo, hi, reach, 0);
    if r :| r in WindowRows(table, lo, hi) && r.Wet() {
      WetReach(table, lo, hi, horizon, r);
    } else {
      StaysDry(table, lo, hi, reach);
    }
  }

  lemma StaysDry(table: seq<RainRow>, lo: int, hi: int, reach: int)
    requires forall r <- WindowRows(table, lo, hi) :: !r.Wet()
    ensures Widened(table, lo, hi, reach, 0) == Wide(lo, hi, 0)
  {
    hide Listed, Selected, Rows, ExtentOf;
    ExtentOfMeaning(WindowRows(table, lo, hi));
  }

  lemma ListedGood(table: seq<RainRow>, lo: int, hi: int)
    requires GoodTable(table)
    ensures forall r <- Listed(table, lo, hi) :: GoodRow(r)
  {
    hide Listed, GoodRow;
    forall r <- Listed(table, lo, hi) ensures GoodRow(r) { ListedMember(table, lo, hi, r); }
  }

  // ----- which intervals are selected ----------------------------------------------------------------

  lemma {:induction false} SeriesMember(rows: seq<RainRow>, src: Source, id: int, r: Interval)
    ensures r in SeriesOf(rows, src, id) <==> exists x <- rows :: x.source == src && x.station == id && x.Iv() == r
  {
    if rows != [] {
      var n := |rows| - 1;
      assert rows == rows[..n] + [rows[n]];
      SeriesMember(rows[..n], src, id, r);
    }
  }

  lemma {:induction false} UncoveredMember(iv: seq<Interval>, cover: seq<Interval>, r: Interval)
    ensures r in Uncovered(iv, cover) <==> r in iv && !Covered(cover, r)
  {
    if iv != [] {
      hide Covered;
      var n := |iv| - 1;
      assert iv == iv[..n] + [iv[n]];
      UncoveredMember(iv[..n], cover, r);
    }
  }

  ghost predicate InSeries(rows: seq<RainRow>, ids: seq<int>, r: Interval) {
    exists i :: 0 <= i < |ids| && r in SeriesOf(rows, Gauge, ids[i])
  }

  lemma InSeriesLast(rows: seq<RainRow>, ids: seq<int>, r: Interval)
    requires ids != []
    ensures var n := |ids| - 1;
            InSeries(rows, ids, r) <==> InSeries(rows, ids[..n], r) || r in SeriesOf(rows, Gauge, ids[n])
  {
    hide SeriesOf;
    var n := |ids| - 1;
    if i :| 0 <= i < n && r in SeriesOf(rows, Gauge, ids[..n][i]) { assert ids[i] == ids[..n][i]; }
    if i :| 0 <= i < |ids| && r in SeriesOf(rows, Gauge, ids[i]) && i < n { assert ids[i] == ids[..n][i]; }
  }

  lemma {:induction false} CoverMember(rows: seq<RainRow>, ids: seq<int>, r: Interval)
    ensures r in Cover(rows, ids) <==> InSeries(rows, ids, r)
  {
    if ids != [] {
      hide SeriesOf, InSeries;
      CoverMember(rows, ids[..|ids| - 1], r);
      InSeriesLast(rows, ids, r);
    }
  }

  /** Some gauge row overlaps the interval. */
  ghost predicate GaugeOverlaps(rows: seq<RainRow>, r: Interval) {
    exists g <- rows :: g.source == Gauge && g.Iv().dur > 0 && Overlaps(g.Iv(), r)
  }

  lemma IdListed(rows: seq<RainRow>, x: RainRow) returns (i: nat)
    requires x in rows
    ensures var ids := Ascending(Ids(rows, x.source)); i < |ids| && ids[i] == x.station
  {
    hide Ascending;
    var ids, id := Ascending(Ids(rows, x.source)), x.station;
    assert id in Ids(rows, x.source);
    assert id in ids;
    i :| 0 <= i < |ids| && ids[i] == id;
  }

  lemma CoveredMeaning(rows: seq<RainRow>, r: Interval)
    ensures Covered(GaugeCover(rows), r) <==> GaugeOverlaps(rows, r)
  {
    hide Cover, SeriesOf, Overlaps, Ascending;
    var ids := Ascending(Ids(rows, Gauge));
    if Covered(GaugeCover(rows), r) {
      var c :| c in GaugeCover(rows) && c.dur > 0 && Overlaps(c, r);
      CoverMember(rows, ids, c);
      var i :| 0 <= i < |ids| && c in SeriesOf(rows, Gauge, ids[i]);
      SeriesMember(rows, Gauge, ids[i], c);
    }
    if GaugeOverlaps(rows, r) {
      var g :| g in rows && g.source == Gauge && g.Iv().dur > 0 && Overlaps(g.Iv(), r);
      var i := IdListed(rows, g);
      SeriesMember(rows, Gauge, g.station, g.Iv());
      CoverMember(rows, ids, g.Iv());
    }
  }

  lemma {:induction false} RowsConcat(a: seq<seq<Interval>>, b: seq<seq<Interval>>)
    ensures Rows(a + b) == Rows(a) + Rows(b)
  {
    if b == [] {
      assert a + b == a;
    } else {
      var b', st := b[..|b| - 1], b[|b| - 1];
      assert (a + b)[..|a + b| - 1] == a + b';
      RowsConcat(a, b');
      Assoc(Rows(a), Rows(b'), st);
    }
  }

  ghost predicate InSome(rows: seq<RainRow>, src: Source, ids: seq<int>, r: Interval) {
    exists i :: 0 <= i < |ids| && r in StationSeries(rows, src, ids[i])
  }

  lemma {:induction false} PickedMember(rows: seq<RainRow>, src: Source, ids: seq<int>, r: Interval)
    ensures r in Rows(Picked(rows, src, ids)) <==> InSome(rows, src, ids, r)
  {
    hide StationSeries, InSome;
    if ids == [] {
      InNone(rows, src, r);
    } else {
      var n := |ids| - 1;
      var rest, st := Picked(rows, src, ids[..n]), StationSeries(rows, src, ids[n]);
      PickedMember(rows, src, ids[..n], r);
      InSomeSnoc(rows, src, ids, r);
      if st != [] { assert (rest + [st])[..|rest|] == rest; }
    }
  }

  lemma InNone(rows: seq<RainRow>, src: Source, r: Interval)
    ensures !InSome(rows, src, [], r)
  {
  }

  lemma InSomeSnoc(rows: seq<RainRow>, src: Source, ids: seq<int>, r: Interval)
    requires ids != []
    ensures var n := |ids| - 1;
            InSome(rows, src, ids, r) <==> InSome(rows, src, ids[..n], r) || r in StationSeries(rows, src, ids[n])
  {
    hide StationSeries;
    var n := |ids| - 1;
    if i :| 0 <= i < n && r in StationSeries(rows, src, ids[..n][i]) { assert ids[i] == ids[..n][i]; }
    if i :| 0 <= i < |ids| && r in StationSeries(rows, src, ids[i]) && i < n { assert ids[i] == ids[..n][i]; }
  }

  /** A selected interval is a gauge row's, or an ECCC row's that no gauge row overlaps. */
  ghost predicate Chosen(rows: seq<RainRow>, x: RainRow) {
    x in rows && (x.source == Eccc ==> !GaugeOverlaps(rows, x.Iv()))
  }

  lemma SelectedMember(rows: seq<RainRow>, r: Interval)
    ensures r in Rows(Selected(rows)) <==> exists x :: Chosen(rows, x) && x.Iv() == r
  {
    hide Rows, Picked, Ascending, Covered, GaugeOverlaps, GaugeCover, SeriesOf, Uncovered, Ids;
    var gs, es := Ascending(Ids(rows, Gauge)), Ascending(Ids(rows, Eccc));
    RowsConcat(Picked(rows, Gauge, gs), Picked(rows, Eccc, es));
    PickedMember(rows, Gauge, gs, r);
    PickedMember(rows, Eccc, es, r);
    CoveredMeaning(rows, r);
    if i :| 0 <= i < |gs| && r in StationSeries(rows, Gauge, gs[i]) {
      SeriesMember(rows, Gauge, gs[i], r);
      var x :| x in rows && x.source == Gauge && x.station == gs[i] && x.Iv() == r;
      assert Chosen(rows, x);
    }
    if i :| 0 <= i < |es| && r in StationSeries(rows, Eccc, es[i]) {
      UncoveredMember(SeriesOf(rows, Eccc, es[i]), GaugeCover(rows), r);
      SeriesMember(rows, Eccc, es[i], r);
      var x :| x in rows && x.source == Eccc && x.station == es[i] && x.Iv() == r;
      assert Chosen(rows, x);
    }
    if x :| Chosen(rows, x) && x.Iv() == r {
      var i := IdListed(rows, x);
      SeriesMember(rows, x.source, x.station, r);
      UncoveredMember(SeriesOf(rows, x.source, x.station), GaugeCover(rows), r);
    }
  }

  /** A window with rain in it has the record's horizon within reach. */
  lemma WetReach(table: seq<RainRow>, lo: int, hi: int, horizon: int, r: Interval)
    requires GoodTable(table) && IsHorizon(table, horizon) && InReach(table, lo, hi) && lo <= hi
    requires r in WindowRows(table, lo, hi) && r.Wet()
    ensures Reach(table, lo - SCAN_BEFORE) == horizon
  {
    hide Listed, Selected, Rows, Reach, GaugeOverlaps;
    var rows := Listed(table, lo, hi);
    SelectedMember(rows, r);
    var x :| Chosen(rows, x) && x.Iv() == r;
    ListedMember(table, lo, hi, x);
    ReachIsHorizon(table, lo, hi, x);
  }
}
