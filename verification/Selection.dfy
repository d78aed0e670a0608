/** Which rainfall rows the storm analytics works on (internal/storms/select.go): own gauges first,
    ECCC hours only where no gauge interval overlaps them. */
module Selection {
  import opened Common
  import opened Rain

  const SECOND := 1_000_000_000

  datatype Source = Gauge | Eccc

  /** A rainfall row; station ids stand for their rank in the order of the station names. */
  datatype RainRow = RainRow(source: Source, station: int, ts: int, intervalS: int, mm: real) {
    function Iv(): Interval { Interval(ts, intervalS * SECOND, mm) }
  }

  // ----- what is selected -----------------------------------------------------------------------

  function SeriesOf(rows: seq<RainRow>, src: Source, id: int): seq<Interval> {
    if rows == [] then []
    else
      var n := |rows| - 1;
      if rows[n].source == src && rows[n].station == id then SeriesOf(rows[..n], src, id) + [rows[n].Iv()]
      else SeriesOf(rows[..n], src, id)
  }

  function Ids(rows: seq<RainRow>, src: Source): set<int> {
    set r <- rows | r.source == src :: r.station
  }

  predicate Overlaps(a: Interval, b: Interval) { a.start < b.End() && b.start < a.End() }

  /** Some interval of positive duration in `cover` overlaps `r`. */
  predicate Covered(cover: seq<Interval>, r: Interval) { exists c <- cover :: c.dur > 0 && Overlaps(c, r) }

  function Uncovered(iv: seq<Interval>, cover: seq<Interval>): seq<Interval> {
    if iv == [] then []
    else
      var n := |iv| - 1;
      if Covered(cover, iv[n]) then Uncovered(iv[..n], cover) else Uncovered(iv[..n], cover) + [iv[n]]
  }

  /** Every gauge interval, station by station. */
  function Cover(rows: seq<RainRow>, ids: seq<int>): seq<Interval> {
    if ids == [] then [] else Cover(rows, ids[..|ids| - 1]) + SeriesOf(rows, Gauge, ids[|ids| - 1])
  }

  function GaugeCover(rows: seq<RainRow>): seq<Interval> { Cover(rows, Ascending(Ids(rows, Gauge))) }

  function StationSeries(rows: seq<RainRow>, src: Source, id: int): seq<Interval> {
    if src == Gauge then SeriesOf(rows, Gauge, id) else Uncovered(SeriesOf(rows, Eccc, id), GaugeCover(rows))
  }

  /** The series of the listed stations that have any interval left. */
  function Picked(rows: seq<RainRow>, src: Source, ids: seq<int>): seq<seq<Interval>> {
    if ids == [] then []
    else
      var n := |ids| - 1;
      var st := StationSeries(rows, src, ids[n]);
      if st == [] then Picked(rows, src, ids[..n]) else Picked(rows, src, ids[..n]) + [st]
  }

  function Selected(rows: seq<RainRow>): seq<seq<Interval>> {
    Picked(rows, Gauge, Ascending(Ids(rows, Gauge))) + Picked(rows, Eccc, Ascending(Ids(rows, Eccc)))
  }

  // ----- merged gauge coverage --------------------------------------------------------------------

  datatype Span = Span(from: int, to: int)

  ghost predicate SortedByStart(s: seq<Interval>) { forall i, j :: 0 <= i < j < |s| ==> s[i].start <= s[j].start }

  /** Stand-in for the library sort: the same intervals, ordered by start. */
  method SortByStart(iv: seq<Interval>) returns (s: seq<Interval>)
    ensures SortedByStart(s) && forall r :: r in s <==> r in iv
  {
    s := [];
    for i := 0 to |iv|
      invariant SortedByStart(s) && forall r :: r in s <==> r in iv[..i]
    {
      hide SortedByStart;
      s := InsertByStart(s, iv[i]);
      assert iv[..i + 1] == iv[..i] + [iv[i]];
    }
    assert iv[..|iv|] == iv;
  }

  method InsertByStart(s: seq<Interval>, x: Interval) returns (s': seq<Interval>)
    requires SortedByStart(s)
    ensures SortedByStart(s') && forall r :: r in s' <==> r in s || r == x
  {
    hide SortedByStart;
    var k := |s|;
    while k > 0 && s[k - 1].start > x.start
      invariant 0 <= k <= |s| && (k < |s| ==> s[k].start > x.start)
    {
      k := k - 1;
    }
    s' := s[..k] + [x] + s[k..];
    InsertSorted(s, k, x);
    InsertMembers(s, k, x);
  }

  lemma InsertSorted(s: seq<Interval>, k: nat, x: Interval)
    requires SortedByStart(s) && k <= |s| && (k > 0 ==> s[k - 1].start <= x.start) && (k < |s| ==> x.start < s[k].start)
    ensures SortedByStart(s[..k] + [x] + s[k..])
  {
    var t := s[..k] + [x] + s[k..];
    forall i, j | 0 <= i < j < |t| ensures t[i].start <= t[j].start {
      assert forall a :: 0 <= a < k ==> t[a] == s[a] && s[a].start <= x.start;
      assert forall a :: k < a < |t| ==> t[a] == s[a - 1] && x.start <= s[a - 1].start;
    }
  }

  lemma InsertMembers(s: seq<Interval>, k: nat, x: Interval)
    requires k <= |s|
    ensures forall r :: r in s[..k] + [x] + s[k..] <==> r in s || r == x
  {
    assert s == s[..k] + s[k..];
  }

  ghost predicate Disjoint(spans: seq<Span>) {
    && (forall i :: 0 <= i < |spans| ==> spans[i].from < spans[i].to)
    && (forall i, j :: 0 <= i < j < |spans| ==> spans[i].to < spans[j].from)
  }

  ghost predicate InSpans(spans: seq<Span>, t: int) { exists i :: 0 <= i < |spans| && spans[i].from <= t < spans[i].to }

  ghost predicate InIntervals(iv: seq<Interval>, t: int) { exists r <- iv :: r.start <= t < r.End() }

  /** The union of intervals as sorted, disjoint spans. */
  method UnionSpans(iv: seq<Interval>) returns (out: seq<Span>)
    ensures Disjoint(out)
    ensures forall t :: InSpans(out, t) <==> InIntervals(iv, t)
  {
    var s := SortByStart(iv);
    out := [];
    for i := 0 to |s|
      invariant Disjoint(out)
      invariant forall t :: InSpans(out, t) <==> InIntervals(s[..i], t)
      invariant i == 0 ==> out == []
      invariant forall j :: 0 <= j < |out| ==> out[j].from <= s[i - 1].start
    {
      assert forall j :: 0 <= j < i ==> s[j].start <= s[i].start;
      out := AddSpan(out, s, i);
    }
    assert s[..|s|] == s;
    forall t ensures InSpans(out, t) <==> InIntervals(iv, t) {
      assert InIntervals(s, t) <==> InIntervals(iv, t);
    }
  }

  /** One interval joins the last span or opens a new one. */
  method AddSpan(out: seq<Span>, s: seq<Interval>, i: nat) returns (out': seq<Span>)
    requires i < |s| && Disjoint(out)
    requires forall t :: InSpans(out, t) <==> InIntervals(s[..i], t)
    requires forall j :: 0 <= j < |out| ==> out[j].from <= s[i].start
    ensures Disjoint(out')
    ensures forall t :: InSpans(out', t) <==> InIntervals(s[..i + 1], t)
    ensures forall j :: 0 <= j < |out'| ==> out'[j].from <= s[i].start
  {
    var r, n := s[i], |out|;
    out' := out;
    if r.dur > 0 {
      if n > 0 && r.start <= out[n - 1].to {
        if r.End() > out[n - 1].to { out' := out[n - 1 := Span(out[n - 1].from, r.End())]; }
      } else {
        out' := out + [Span(r.start, r.End())];
      }
    }
    forall t ensures InSpans(out', t) <==> InIntervals(s[..i + 1], t) {
      SpansGrow(out, out', r, t);
      IntervalsGrow(s, i, t);
    }
  }

  lemma IntervalsGrow(s: seq<Interval>, i: nat, t: int)
    requires i < |s|
    ensures InIntervals(s[..i + 1], t) <==> InIntervals(s[..i], t) || s[i].start <= t < s[i].End()
  {
    assert s[..i + 1] == s[..i] + [s[i]];
  }

  lemma SpansGrow(out: seq<Span>, out': seq<Span>, r: Interval, t: int)
    requires Disjoint(out)
    requires forall j :: 0 <= j < |out| ==> out[j].from <= r.start
    requires var n := |out|;
             || (r.dur <= 0 && out' == out)
             || (n > 0 && r.start <= out[n - 1].to && r.End() <= out[n - 1].to && out' == out)
             || (n > 0 && r.start <= out[n - 1].to < r.End() && out' == out[n - 1 := Span(out[n - 1].from, r.End())])
             || ((n == 0 || r.start > out[n - 1].to) && r.dur > 0 && out' == out + [Span(r.start, r.End())])
    ensures InSpans(out', t) <==> InSpans(out, t) || r.start <= t < r.End()
  {
    var n := |out|;
    if InSpans(out, t) {
      var i :| 0 <= i < n && out[i].from <= t < out[i].to;
      assert out'[i].from <= t < out'[i].to;
    }
    if r.start <= t < r.End() && out' != [] {
      assert out'[|out'| - 1].from <= t < out'[|out'| - 1].to;
    }
    if InSpans(out', t) {
      var i :| 0 <= i < |out'| && out'[i].from <= t < out'[i].to;
      if i < n && t < out[i].to { assert out[i].from <= t < out[i].to; }
    }
  }

  // ----- intervals no span touches -----------------------------------------------------------------

  /** Binary search for the first span that ends after `t`. */
  method SearchSpan(spans: seq<Span>, t: int) returns (j: nat)
    requires Disjoint(spans)
    ensures j <= |spans|
    ensures forall i :: 0 <= i < j ==> spans[i].to <= t
    ensures j < |spans| ==> spans[j].to > t
  {
    var lo, hi := 0, |spans|;
    while lo < hi
      invariant 0 <= lo <= hi <= |spans|
      invariant forall i :: 0 <= i < lo ==> spans[i].to <= t
      invariant hi < |spans| ==> spans[hi].to > t
    {
      var mid := (lo + hi) / 2;
      if spans[mid].to > t {
        hi := mid;
      } else {
        forall i | 0 <= i < mid ensures spans[i].to <= t { assert spans[i].to < spans[mid].from; }
        lo := mid + 1;
      }
    }
    j := lo;
  }

  /** The span found decides whether an interval meets the covered time. */
  lemma SpanDecides(spans: seq<Span>, cover: seq<Interval>, r: Interval, j: nat)
    requires Disjoint(spans) && r.dur > 0 && j <= |spans|
    requires forall t :: InSpans(spans, t) <==> InIntervals(cover, t)
    requires (forall i :: 0 <= i < j ==> spans[i].to <= r.start) && (j < |spans| ==> spans[j].to > r.start)
    ensures (j < |spans| && spans[j].from < r.End()) <==> Covered(cover, r)
  {
    if j < |spans| && spans[j].from < r.End() {
      var t := Max(spans[j].from, r.start);
      assert InSpans(spans, t);
      assert InIntervals(cover, t);
      var c :| c in cover && c.start <= t < c.End();
      assert Overlaps(c, r);
    }
    if Covered(cover, r) {
      var c :| c in cover && c.dur > 0 && Overlaps(c, r);
      var t := Max(c.start, r.start);
      assert InIntervals(cover, t);
      assert InSpans(spans, t);
      var i :| 0 <= i < |spans| && spans[i].from <= t < spans[i].to;
      assert i == j || spans[j].to < spans[i].from;
    }
  }

  method KeepUncovered(iv: seq<Interval>, spans: seq<Span>, ghost cover: seq<Interval>) returns (out: seq<Interval>)
    requires Disjoint(spans) && forall r <- iv :: r.dur > 0
    requires forall t :: InSpans(spans, t) <==> InIntervals(cover, t)
    ensures out == Uncovered(iv, cover)
  {
    hide Covered, InSpans, InIntervals, Disjoint;
    out := [];
    for i := 0 to |iv|
      invariant out == Uncovered(iv[..i], cover)
    {
      var r := iv[i];
      var j := SearchSpan(spans, r.start);
      SpanDecides(spans, cover, r, j);
      assert iv[..i + 1][..i] == iv[..i];
      if !(j < |spans| && spans[j].from < r.End()) { out := out + [r]; }
    }
    assert iv[..|iv|] == iv;
  }

  // ----- the selection as the source computes it -----------------------------------------------------

  datatype Key = Key(source: Source, station: int)

  /** Rows grouped by station, in the order they come. */
  method GroupRows(rows: seq<RainRow>) returns (byKey: map<Key, seq<Interval>>)
    ensures forall k :: k in byKey <==> k.station in Ids(rows, k.source)
    ensures forall k <- byKey :: byKey[k] == SeriesOf(rows, k.source, k.station)
  {
    byKey := map[];
    for i := 0 to |rows|
      invariant forall k :: k in byKey <==> k.station in Ids(rows[..i], k.source)
      invariant forall k <- byKey :: byKey[k] == SeriesOf(rows[..i], k.source, k.station)
      invariant forall k :: k !in byKey ==> SeriesOf(rows[..i], k.source, k.station) == []
    {
      var r := rows[i];
      var k := Key(r.source, r.station);
      assert rows[..i + 1][..i] == rows[..i];
      assert rows[..i + 1] == rows[..i] + [r];
      IdsSnoc(rows[..i], r);
      byKey := byKey[k := (if k in byKey then byKey[k] else []) + [r.Iv()]];
    }
    assert rows[..|rows|] == rows;
  }

  lemma IdsSnoc(rows: seq<RainRow>, r: RainRow)
    ensures forall src :: Ids(rows + [r], src) ==
                          if r.source == src then Ids(rows, src) + {r.station} else Ids(rows, src)
  {
    forall src
      ensures Ids(rows + [r], src) == if r.source == src then Ids(rows, src) + {r.station} else Ids(rows, src)
    {
      var a, b := Ids(rows + [r], src), if r.source == src then Ids(rows, src) + {r.station} else Ids(rows, src);
      forall x ensures x in a <==> x in b {
        if x in a {
          var y :| y in rows + [r] && y.source == src && y.station == x;
          assert y in rows || y == r;
        }
        if x in b {
          if x in Ids(rows, src) {
            var y :| y in rows && y.source == src && y.station == x;
            assert y in rows + [r];
          } else {
            assert r in rows + [r];
          }
        }
      }
    }
  }

  /** The series of one source's stations, in order, dropping stations with nothing left. */
  method PickStations(rows: seq<RainRow>, src: Source, ids: seq<int>, byKey: map<Key, seq<Interval>>,
                      spans: seq<Span>, ghost cover: seq<Interval>) returns (stations: seq<seq<Interval>>)
    requires forall k <- byKey :: byKey[k] == SeriesOf(rows, k.source, k.station)
    requires forall i :: 0 <= i < |ids| ==> Key(src, ids[i]) in byKey
    requires forall r <- rows :: r.intervalS > 0
    requires src == Eccc ==>
               cover == GaugeCover(rows) && Disjoint(spans) && forall t :: InSpans(spans, t) <==> InIntervals(cover, t)
    ensures stations == Picked(rows, src, ids)
  {
    hide Uncovered, SeriesOf, GaugeCover, Disjoint, InSpans, InIntervals;
    stations := [];
    for i := 0 to |ids|
      invariant stations == Picked(rows, src, ids[..i])
    {
      assert ids[..i + 1][..i] == ids[..i];
      var iv := byKey[Key(src, ids[i])];
      if src == Eccc {
        SeriesDurations(rows, src, ids[i]);
        iv := KeepUncovered(iv, spans, cover);
      }
      if iv != [] { stations := stations + [iv]; }
    }
    assert ids[..|ids|] == ids;
  }

  lemma {:induction false} SeriesDurations(rows: seq<RainRow>, src: Source, id: int)
    requires forall r <- rows :: r.intervalS > 0
    ensures forall r <- SeriesOf(rows, src, id) :: r.dur > 0
  {
    if rows != [] {
      var n := |rows| - 1;
      assert rows[n] in rows && forall r <- rows[..n] :: r in rows;
      SeriesDurations(rows[..n], src, id);
    }
  }

  /** Which of the selected series are gauges': the first ones. */
  function GaugeFlags(rows: seq<RainRow>): seq<bool> {
    var own := |Picked(rows, Gauge, Ascending(Ids(rows, Gauge)))|;
    seq(|Selected(rows)|, i => i < own)
  }

  method SelectRain(rows: seq<RainRow>) returns (stations: seq<seq<Interval>>, gauge: seq<bool>)
    requires forall r <- rows :: r.intervalS > 0
    ensures stations == Selected(rows) && gauge == GaugeFlags(rows)
  {
    hide Picked, SeriesOf, Ascending, InSpans, InIntervals, Disjoint, Ids, Increasing;
    var byKey := GroupRows(rows);
    var gauges, ecccs := Ascending(Ids(rows, Gauge)), Ascending(Ids(rows, Eccc));
    IdsInKeys(rows, Gauge, byKey);
    IdsInKeys(rows, Eccc, byKey);
    var cover := [];
    for i := 0 to |gauges|
      invariant cover == Cover(rows, gauges[..i])
    {
      assert gauges[..i + 1][..i] == gauges[..i];
      cover := cover + byKey[Key(Gauge, gauges[i])];
    }
    assert gauges[..|gauges|] == gauges;
    var spans := UnionSpans(cover);
    var own := PickStations(rows, Gauge, gauges, byKey, spans, cover);
    var fallback := PickStations(rows, Eccc, ecccs, byKey, spans, cover);
    stations := own + fallback;
    gauge := seq(|stations|, i => i < |own|);
  }

  lemma IdsInKeys(rows: seq<RainRow>, src: Source, byKey: map<Key, seq<Interval>>)
    requires forall k :: k in byKey <==> k.station in Ids(rows, k.source)
    ensures var ids := Ascending(Ids(rows, src)); forall i :: 0 <= i < |ids| ==> Key(src, ids[i]) in byKey
  {
    hide Ids;
    var ids := Ascending(Ids(rows, src));
    forall i | 0 <= i < |ids| ensures Key(src, ids[i]) in byKey {
      var id := ids[i];
      assert id in ids;
      assert Key(src, id).station in Ids(rows, Key(src, id).source);
    }
  }

  // ----- how far the rain reaches ----------------------------------------------------------------------

  datatype Extent = Dry | Wet(first: int, last: int)

  /** First start and last end of the wet intervals. */
  ghost predicate IsExtent(rows: seq<Interval>, e: Extent) {
    match e
    case Dry => forall r <- rows :: !r.Wet()
    case Wet(first, last) =>
      && (forall r <- rows :: r.Wet() ==> first <= r.start && r.End() <= last)
      && (exists r <- rows :: r.Wet() && r.start == first)
      && (exists r <- rows :: r.Wet() && r.End() == last)
  }

  function Widen(e: Extent, r: Interval): Extent {
    if !r.Wet() then e
    else if e.Dry? then Extent.Wet(r.start, r.End())
    else Extent.Wet(Min(e.first, r.start), Max(e.last, r.End()))
  }

  /** The extent of the wet intervals, one by one. */
  function ExtentOf(rows: seq<Interval>): Extent {
    if rows == [] then Dry else Widen(ExtentOf(rows[..|rows| - 1]), rows[|rows| - 1])
  }

  lemma {:induction false} ExtentOfMeaning(rows: seq<Interval>)
    ensures IsExtent(rows, ExtentOf(rows))
  {
    if rows != [] {
      var n := |rows| - 1;
      ExtentOfMeaning(rows[..n]);
      ExtentSnoc(rows[..n], ExtentOf(rows[..n]), rows[n]);
      assert rows == rows[..n] + [rows[n]];
      hide IsExtent, Widen;
    }
  }

  lemma ExtentSnoc(rows: seq<Interval>, e: Extent, r: Interval)
    requires IsExtent(rows, e)
    ensures IsExtent(rows + [r], Widen(e, r))
  {
    assert r in rows + [r];
    assert forall x <- rows :: x in rows + [r];
    if e.Wet? && r.Wet() {
      var a :| a in rows && a.Wet() && a.start == e.first;
      var b :| b in rows && b.Wet() && b.End() == e.last;
      assert a in rows + [r] && b in rows + [r];
    }
  }
}
