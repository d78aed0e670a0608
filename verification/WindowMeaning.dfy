/** What a window's query, the selection of its rain and its widening give, row by row and day by day
    (internal/storms/storms.go, internal/storms/select.go). */
module WindowMeaning {
  import opened Common
  import opened Rain
  import opened Storms
  import opened Selection
  import opened StormWindow

  // ----- which rows -----------------------------------------------------------------------------

  /** The query keeps the table's order and returns each row as often as the table has it. */
  ghost predicate Queried(table: seq<RainRow>, lo: int, hi: int, rows: seq<RainRow>, at: seq<nat>) {
    && Rising(at, |table|) && |at| == |rows| && (forall j :: 0 <= j < |at| ==> rows[j] == table[at[j]])
    && (forall i :: 0 <= i < |table| ==>
          (Picks(at, i) <==> lo - SCAN_BEFORE <= table[i].ts < hi && table[i].Iv().End() > lo))
  }

  lemma {:induction false} ListedExactly(table: seq<RainRow>, lo: int, hi: int) returns (at: seq<nat>)
    ensures Queried(table, lo, hi, Listed(table, lo, hi), at)
  {
    if table == [] {
      at := [];
    } else {
      hide Queried, InWindow;
      var n := |table| - 1;
      var before := ListedExactly(table[..n], lo, hi);
      at := if InWindow(table[n], lo, hi) then before + [n] else before;
      QueriedOn(table, lo, hi, Listed(table[..n], lo, hi), before);
    }
  }

  lemma QueriedOn(table: seq<RainRow>, lo: int, hi: int, rows: seq<RainRow>, at: seq<nat>)
    requires table != [] && Queried(table[..|table| - 1], lo, hi, rows, at)
    ensures var n := |table| - 1;
            if InWindow(table[n], lo, hi) then Queried(table, lo, hi, rows + [table[n]], at + [n])
            else Queried(table, lo, hi, rows, at)
  {
    var n := |table| - 1;
    PicksSnoc(at, n);
    assert !Picks(at, n);
    assert forall i :: 0 <= i < n ==> table[..n][i] == table[i];
    hide Picks;
  }

  /** One station's series: its intervals in the order of the rows, an ECCC station's only where no gauge row overlaps
      them. */
  ghost predicate SeriesIs(rows: seq<RainRow>, k: Key, series: seq<Interval>, at: seq<nat>) {
    && Rising(at, |rows|) && |at| == |series| && (forall j :: 0 <= j < |at| ==> series[j] == rows[at[j]].Iv())
    && (forall i :: 0 <= i < |rows| ==> (Picks(at, i) <==> Serves(rows, k, rows[i])))
  }

  ghost predicate HasSeries(rows: seq<RainRow>, k: Key, series: seq<Interval>) {
    exists at :: SeriesIs(rows, k, series, at)
  }

  ghost predicate Serves(rows: seq<RainRow>, k: Key, x: RainRow) {
    && x.source == k.source && x.station == k.station
    && (x.source == Eccc ==> !exists g <- rows :: g.source == Gauge && g.Iv().dur > 0 && Overlaps(g.Iv(), x.Iv()))
  }

  lemma StationExactly(rows: seq<RainRow>, k: Key) returns (at: seq<nat>)
    ensures SeriesIs(rows, k, StationSeries(rows, k.source, k.station), at)
  {
    hide Covered, GaugeCover, SeriesOf, Uncovered;
    at := SeriesFrom(rows, k, GaugeCover(rows));
    forall i | 0 <= i < |rows| ensures Keeps(k, GaugeCover(rows), rows[i]) <==> Serves(rows, k, rows[i]) {
      CoveredMeaning(rows, rows[i].Iv());
    }
    hide Picks, Keeps, Serves;
  }

  predicate Keeps(k: Key, cover: seq<Interval>, x: RainRow) {
    x.source == k.source && x.station == k.station && (x.source == Eccc ==> !Covered(cover, x.Iv()))
  }

  function Kept(rows: seq<RainRow>, k: Key, cover: seq<Interval>): seq<Interval> {
    var s := SeriesOf(rows, k.source, k.station);
    if k.source == Gauge then s else Uncovered(s, cover)
  }

  ghost predicate KeptAt(rows: seq<RainRow>, k: Key, cover: seq<Interval>, series: seq<Interval>, at: seq<nat>) {
    && Rising(at, |rows|) && |at| == |series| && (forall j :: 0 <= j < |at| ==> series[j] == rows[at[j]].Iv())
    && (forall i :: 0 <= i < |rows| ==> (Picks(at, i) <==> Keeps(k, cover, rows[i])))
  }

  lemma {:induction false} SeriesFrom(rows: seq<RainRow>, k: Key, cover: seq<Interval>) returns (at: seq<nat>)
    ensures KeptAt(rows, k, cover, Kept(rows, k, cover), at)
  {
    if rows == [] {
      at := [];
    } else {
      hide KeptAt, Keeps, Kept;
      var n := |rows| - 1;
      var before := SeriesFrom(rows[..n], k, cover);
      at := if Keeps(k, cover, rows[n]) then before + [n] else before;
      KeptSnoc(rows, k, cover);
      KeptOn(rows, k, cover, Kept(rows[..n], k, cover), before);
      assert Kept(rows[..n], k, cover) + [] == Kept(rows[..n], k, cover);
    }
  }

  lemma KeptOn(rows: seq<RainRow>, k: Key, cover: seq<Interval>, series: seq<Interval>, at: seq<nat>)
    requires rows != [] && KeptAt(rows[..|rows| - 1], k, cover, series, at)
    ensures var n := |rows| - 1;
            if Keeps(k, cover, rows[n]) then KeptAt(rows, k, cover, series + [rows[n].Iv()], at + [n])
            else KeptAt(rows, k, cover, series, at)
  {
    var n := |rows| - 1;
    PicksSnoc(at, n);
    assert !Picks(at, n);
    assert forall i :: 0 <= i < n ==> rows[..n][i] == rows[i];
    hide Picks, Keeps;
  }

  lemma KeptSnoc(rows: seq<RainRow>, k: Key, cover: seq<Interval>)
    requires rows != []
    ensures var n := |rows| - 1;
            Kept(rows, k, cover) ==
              Kept(rows[..n], k, cover) + if Keeps(k, cover, rows[n]) then [rows[n].Iv()] else []
  {
    hide Covered;
    var n := |rows| - 1;
    var s, t := SeriesOf(rows[..n], k.source, k.station), SeriesOf(rows, k.source, k.station);
    if t != s { assert t[..|s|] == s; }
  }

  /** Gauges come before ECCC stations, each in station order. */
  predicate Before(a: Key, b: Key) {
    (a.source == Gauge && b.source == Eccc) || (a.source == b.source && a.station < b.station)
  }

  /** The selection has one series for every station with an interval to use, in order, and marks the gauges'. */
  ghost predicate Selects(rows: seq<RainRow>, stations: seq<seq<Interval>>, gauge: seq<bool>, keys: seq<Key>) {
    && |keys| == |stations| == |gauge|
    && (forall i, j :: 0 <= i < j < |keys| ==> Before(keys[i], keys[j]))
    && (forall i :: 0 <= i < |keys| ==> stations[i] != [] && HasSeries(rows, keys[i], stations[i]))
    && (forall i :: 0 <= i < |keys| ==> (gauge[i] <==> keys[i].source == Gauge))
    && (forall x <- rows :: Serves(rows, Key(x.source, x.station), x) ==> Key(x.source, x.station) in keys)
  }

  /** The stations with anything left, and their series. */
  ghost predicate PicksBy(rows: seq<RainRow>, src: Source, ids: seq<int>, series: seq<seq<Interval>>, keys: seq<Key>) {
    && |keys| == |series|
    && (forall i :: 0 <= i < |keys| ==> keys[i].source == src && keys[i].station in ids)
    && (forall i, j :: 0 <= i < j < |keys| ==> keys[i].station < keys[j].station)
    && (forall i :: 0 <= i < |keys| ==> series[i] == StationSeries(rows, src, keys[i].station) != [])
    && (forall id <- ids :: StationSeries(rows, src, id) != [] ==> Key(src, id) in keys)
  }

  lemma {:induction false} PickedKeys(rows: seq<RainRow>, src: Source, ids: seq<int>) returns (keys: seq<Key>)
    requires Increasing(ids)
    ensures PicksBy(rows, src, ids, Picked(rows, src, ids), keys)
  {
    if ids == [] {
      keys := [];
    } else {
      hide PicksBy, StationSeries;
      var n := |ids| - 1;
      keys := PickedKeys(rows, src, ids[..n]);
      PicksOn(rows, src, ids, Picked(rows, src, ids[..n]), keys);
      if StationSeries(rows, src, ids[n]) != [] { keys := keys + [Key(src, ids[n])]; }
    }
  }

  lemma PicksOn(rows: seq<RainRow>, src: Source, ids: seq<int>, series: seq<seq<Interval>>, keys: seq<Key>)
    requires ids != [] && Increasing(ids) && PicksBy(rows, src, ids[..|ids| - 1], series, keys)
    ensures var n := |ids| - 1;
            var st := StationSeries(rows, src, ids[n]);
            if st == [] then PicksBy(rows, src, ids, series, keys)
            else PicksBy(rows, src, ids, series + [st], keys + [Key(src, ids[n])])
  {
    hide StationSeries;
    var n := |ids| - 1;
    assert ids == ids[..n] + [ids[n]];
    assert forall id <- ids[..n] :: id < ids[n];
  }

  lemma SelectedExactly(rows: seq<RainRow>) returns (keys: seq<Key>)
    ensures Selects(rows, Selected(rows), GaugeFlags(rows), keys)
  {
    hide Picked, StationSeries, SeriesIs, Serves, Ascending, Ids;
    var gs, es := Ascending(Ids(rows, Gauge)), Ascending(Ids(rows, Eccc));
    var own := PickedKeys(rows, Gauge, gs);
    var fallback := PickedKeys(rows, Eccc, es);
    keys := own + fallback;
    forall i | 0 <= i < |keys|
      ensures Selected(rows)[i] == StationSeries(rows, keys[i].source, keys[i].station) != []
      ensures HasSeries(rows, keys[i], Selected(rows)[i])
      ensures keys[i].source == if i < |own| then Gauge else Eccc
    {
      if i < |own| { assert keys[i] == own[i]; } else { assert keys[i] == fallback[i - |own|]; }
      var at := StationExactly(rows, keys[i]);
    }
    KeysOrdered(own, fallback);
    hide HasSeries;
    forall x <- rows | Serves(rows, Key(x.source, x.station), x) ensures Key(x.source, x.station) in keys {
      ServedListed(rows, x);
      assert Key(x.source, x.station) in if x.source == Gauge then own else fallback;
    }
  }

  lemma KeysOrdered(own: seq<Key>, fallback: seq<Key>)
    requires forall i :: 0 <= i < |own| ==> own[i].source == Gauge
    requires forall i :: 0 <= i < |fallback| ==> fallback[i].source == Eccc
    requires forall i, j :: 0 <= i < j < |own| ==> own[i].station < own[j].station
    requires forall i, j :: 0 <= i < j < |fallback| ==> fallback[i].station < fallback[j].station
    ensures forall i, j :: 0 <= i < j < |own + fallback| ==> Before((own + fallback)[i], (own + fallback)[j])
  {
  }

  lemma ServedListed(rows: seq<RainRow>, x: RainRow)
    requires x in rows && Serves(rows, Key(x.source, x.station), x)
    ensures x.station in Ascending(Ids(rows, x.source)) && StationSeries(rows, x.source, x.station) != []
  {
    hide Serves, StationSeries, Ascending;
    var i := IdListed(rows, x);
    var at := StationExactly(rows, Key(x.source, x.station));
    var n :| 0 <= n < |rows| && rows[n] == x;
    assert Picks(at, n);
  }

  // ----- how the window is widened ------------------------------------------------------------------

  /** Wet rain lies near the window's left end, or near its right end with more record beyond it. */
  ghost predicate CrowdedLeft(table: seq<RainRow>, w: Wide) {
    exists r <- WindowRows(table, w.lo, w.hi) :: r.Wet() && r.start - w.lo < EDGE_PAD
  }

  ghost predicate CrowdedRight(table: seq<RainRow>, w: Wide, reach: int) {
    w.hi < reach && exists r <- WindowRows(table, w.lo, w.hi) :: r.Wet() && w.hi - r.End() < EDGE_PAD
  }

  /** Windows by which the widening goes: each end moves a day exactly if it is crowded, until neither is or the cap
      is reached. */
  ghost predicate WidensBy(table: seq<RainRow>, reach: int, ws: seq<Wide>) {
    && ws != []
    && (forall i :: 0 <= i < |ws| - 1 ==>
          && ws[i].extensions < MAX_EXTENSIONS && (CrowdedLeft(table, ws[i]) || CrowdedRight(table, ws[i], reach))
          && ws[i + 1] == Wide(if CrowdedLeft(table, ws[i]) then ws[i].lo - DAY else ws[i].lo,
                               if CrowdedRight(table, ws[i], reach) then ws[i].hi + DAY else ws[i].hi,
                               ws[i].extensions + 1))
    && var w := ws[|ws| - 1];
       w.extensions >= MAX_EXTENSIONS || (!CrowdedLeft(table, w) && !CrowdedRight(table, w, reach))
  }

  lemma {:induction false} WidenedBy(table: seq<RainRow>, lo: int, hi: int, reach: int, n: nat) returns (ws: seq<Wide>)
    ensures WidensBy(table, reach, ws) && ws[0] == Wide(lo, hi, n)
    ensures ws[|ws| - 1] == Widened(table, lo, hi, reach, n)
    decreases MAX_EXTENSIONS - n
  {
    hide CrowdedLeft, CrowdedRight, WindowRows, ExtentOf, Widened;
    var w := Wide(lo, hi, n);
    WidenedStep(table, lo, hi, reach, n);
    CrowdedMeans(table, w, reach);
    var left, right := CrowdedLeft(table, w), CrowdedRight(table, w, reach);
    if n >= MAX_EXTENSIONS || (!left && !right) {
      ws := [w];
    } else {
      var rest := WidenedBy(table, if left then lo - DAY else lo, if right then hi + DAY else hi, reach, n + 1);
      ws := [w] + rest;
      assert forall i :: 1 <= i < |ws| ==> ws[i] == rest[i - 1];
      assert ws[1] == rest[0];
    }
  }

  lemma CrowdedMeans(table: seq<RainRow>, w: Wide, reach: int)
    ensures var e := ExtentOf(WindowRows(table, w.lo, w.hi));
            && (CrowdedLeft(table, w) <==> e.Wet? && e.first - w.lo < EDGE_PAD)
            && (CrowdedRight(table, w, reach) <==> e.Wet? && w.hi - e.last < EDGE_PAD && w.hi < reach)
  {
    hide WindowRows, ExtentOf;
    ExtentOfMeaning(WindowRows(table, w.lo, w.hi));
  }
}
