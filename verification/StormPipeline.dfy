/** The storm pipeline over several stations (FindStorms in internal/hydrology/storm.go): merge,
    segment, then take onset and rain end from the stations' own, finer intervals. */
module StormPipeline {
  import opened Common
  import opened Rain
  import opened Storms

  // ----- refinement ---------------------------------------------------------------------------

  /** A wet station interval that overlaps [from, to). */
  predicate Candidate(r: Interval, from: int, to: int) { r.Wet() && r.End() > from && r.start < to }

  function EarliestStrong(rows: seq<Interval>, from: int, to: int): Option<int> {
    if rows == [] then None
    else
      var rest, r := EarliestStrong(rows[..|rows| - 1], from, to), rows[|rows| - 1];
      if Candidate(r, from, to) && Strong(r) && (rest.None? || r.start < rest.value) then Some(r.start) else rest
  }

  function LatestEnd(rows: seq<Interval>, from: int, to: int): Option<int> {
    if rows == [] then None
    else
      var rest, r := LatestEnd(rows[..|rows| - 1], from, to), rows[|rows| - 1];
      if Candidate(r, from, to) && (rest.None? || r.End() > rest.value) then Some(r.End()) else rest
  }

  function Refined(s: Storm, onset: Option<int>, end: Option<int>): Storm {
    var t := if onset.Some? then s.(onset := onset.value, firstRain := Min(s.firstRain, onset.value)) else s;
    if end.Some? then t.(rainEnd := end.value) else t
  }

  function Refine(s: Storm, rows: seq<Interval>): Storm {
    var from, to := s.firstRain - BIN, s.rainEnd + BIN;
    Refined(s, EarliestStrong(rows, from, to), LatestEnd(rows, from, to))
  }

  /** All station intervals, station by station. */
  function Rows(stations: seq<seq<Interval>>): seq<Interval> {
    if stations == [] then [] else Rows(stations[..|stations| - 1]) + stations[|stations| - 1]
  }

  function Find(stations: seq<seq<Interval>>, horizon: int): seq<Storm> {
    var found := Segment(Merged(stations), horizon);
    seq(|found|, i requires 0 <= i < |found| => Refine(found[i], Rows(stations)))
  }

  method RefineStorm(s: Storm, stations: seq<seq<Interval>>) returns (t: Storm)
    ensures t == Refine(s, Rows(stations))
  {
    hide EarliestStrong, LatestEnd, Rows;
    var from, to := s.firstRain - BIN, s.rainEnd + BIN;
    var onset: Option<int>, end: Option<int> := None, None;
    NoRows(from, to);
    for k := 0 to |stations|
      invariant onset == EarliestStrong(Rows(stations[..k]), from, to)
      invariant end == LatestEnd(Rows(stations[..k]), from, to)
    {
      onset, end := RefineOver(stations[k], from, to, onset, end, Rows(stations[..k]));
      RowsSnoc(stations, k);
    }
    assert stations[..|stations|] == stations;
    t := Refined(s, onset, end);
  }

  /** One station's wet intervals move the onset forward and the end back. */
  method RefineOver(st: seq<Interval>, from: int, to: int, onset: Option<int>, end: Option<int>,
                    ghost done: seq<Interval>)
      returns (onset': Option<int>, end': Option<int>)
    requires onset == EarliestStrong(done, from, to) && end == LatestEnd(done, from, to)
    ensures onset' == EarliestStrong(done + st, from, to) && end' == LatestEnd(done + st, from, to)
  {
    hide EarliestStrong, LatestEnd;
    onset', end' := onset, end;
    assert done + st[..0] == done;
    for i := 0 to |st|
      invariant onset' == EarliestStrong(done + st[..i], from, to) && end' == LatestEnd(done + st[..i], from, to)
    {
      var r := st[i];
      RefineSnoc(done + st[..i], r, from, to);
      assert done + st[..i + 1] == done + st[..i] + [r];
      if Candidate(r, from, to) {
        if Strong(r) && (onset'.None? || r.start < onset'.value) { onset' := Some(r.start); }
        if end'.None? || r.End() > end'.value { end' := Some(r.End()); }
      }
    }
    assert st[..|st|] == st;
  }

  lemma NoRows(from: int, to: int)
    ensures Rows([]) == [] && EarliestStrong([], from, to) == None && LatestEnd([], from, to) == None
  {
  }

  lemma RowsSnoc(stations: seq<seq<Interval>>, k: nat)
    requires k < |stations|
    ensures Rows(stations[..k + 1]) == Rows(stations[..k]) + stations[k]
  {
    assert stations[..k + 1][..k] == stations[..k];
  }

  lemma RefineSnoc(rows: seq<Interval>, r: Interval, from: int, to: int)
    ensures var o := EarliestStrong(rows, from, to);
            EarliestStrong(rows + [r], from, to) ==
            if Candidate(r, from, to) && Strong(r) && (o.None? || r.start < o.value) then Some(r.start) else o
    ensures var e := LatestEnd(rows, from, to);
            LatestEnd(rows + [r], from, to) ==
            if Candidate(r, from, to) && (e.None? || r.End() > e.value) then Some(r.End()) else e
  {
    assert (rows + [r])[..|rows|] == rows;
  }

  method FindStorms(stations: seq<seq<Interval>>, horizon: int) returns (storms: seq<Storm>)
    ensures storms == Find(stations, horizon)
  {
    var merged := MergeRain(stations, BIN);
    storms := SegmentStorms(merged, horizon);
    ghost var found := storms;
    for i := 0 to |storms|
      invariant |storms| == |found|
      invariant forall j :: i <= j < |storms| ==> storms[j] == found[j]
      invariant forall j :: 0 <= j < i ==> storms[j] == Refine(found[j], Rows(stations))
    {
      var t := RefineStorm(storms[i], stations);
      storms := storms[i := t];
    }
  }

  // ----- what the refinement picks -----------------------------------------------------------------

  lemma {:induction false} EarliestMeaning(rows: seq<Interval>, from: int, to: int)
    ensures var o := EarliestStrong(rows, from, to);
            && (o.Some? ==> exists r <- rows :: Candidate(r, from, to) && Strong(r) && r.start == o.value)
            && (forall r <- rows :: Candidate(r, from, to) && Strong(r) ==> o.Some? && o.value <= r.start)
  {
    if rows != [] {
      var n := |rows| - 1;
      EarliestMeaning(rows[..n], from, to);
      assert rows == rows[..n] + [rows[n]];
    }
  }

  lemma {:induction false} LatestMeaning(rows: seq<Interval>, from: int, to: int)
    ensures var e := LatestEnd(rows, from, to);
            && (e.Some? ==> exists r <- rows :: Candidate(r, from, to) && r.End() == e.value)
            && (forall r <- rows :: Candidate(r, from, to) ==> e.Some? && r.End() <= e.value)
  {
    if rows != [] {
      var n := |rows| - 1;
      LatestMeaning(rows[..n], from, to);
      assert rows == rows[..n] + [rows[n]];
    }
  }

  /** Wet, and within a bin of the storm's span. */
  predicate Near(s: Storm, r: Interval) {
    r.mm > 0.0 && r.start + r.dur > s.firstRain - 300_000_000_000 && r.start < s.rainEnd + 300_000_000_000
  }

  /** The refined onset is the earliest start of a strong interval near the storm, and the refined end the latest end of
      a wet one; a storm begins no later than its onset, and without such intervals nothing moves. */
  lemma RefineMeaning(s: Storm, rows: seq<Interval>)
    ensures var t := Refine(s, rows);
            && (if exists r <- rows :: Near(s, r) && Strong(r)
                then (exists r <- rows :: Near(s, r) && Strong(r) && r.start == t.onset)
                     && forall r <- rows :: Near(s, r) && Strong(r) ==> t.onset <= r.start
                else t.onset == s.onset)
            && (if exists r <- rows :: Near(s, r)
                then (exists r <- rows :: Near(s, r) && r.End() == t.rainEnd)
                     && forall r <- rows :: Near(s, r) ==> r.End() <= t.rainEnd
                else t.rainEnd == s.rainEnd)
            && t.firstRain ==
                 (if exists r <- rows :: Near(s, r) && Strong(r) then Min(s.firstRain, t.onset) else s.firstRain)
            && t.total == s.total && t.peak == s.peak && t.closed == s.closed
  {
    var from, to := s.firstRain - BIN, s.rainEnd + BIN;
    EarliestMeaning(rows, from, to);
    LatestMeaning(rows, from, to);
    assert forall r :: Near(s, r) <==> Candidate(r, from, to);
    hide EarliestStrong, LatestEnd, Near, Candidate, Strong;
  }

  /** The refinement only depends on which wet intervals overlap the storm. */
  lemma RefineLocal(s: Storm, rows: seq<Interval>, rows': seq<Interval>)
    requires forall r :: Candidate(r, s.firstRain - BIN, s.rainEnd + BIN) ==> (r in rows <==> r in rows')
    ensures Refine(s, rows) == Refine(s, rows')
  {
    hide EarliestStrong, LatestEnd, Candidate, Strong;
    var from, to := s.firstRain - BIN, s.rainEnd + BIN;
    EarliestMeaning(rows, from, to);
    EarliestMeaning(rows', from, to);
    LatestMeaning(rows, from, to);
    LatestMeaning(rows', from, to);
  }

  // ----- which bins are wet ------------------------------------------------------------------------

  /** Rain is never negative, and rain takes time. */
  ghost predicate GoodRain(rows: seq<Interval>) { forall r <- rows :: r.mm >= 0.0 && (r.Wet() ==> r.dur > 0) }

  ghost predicate WetBin(rows: seq<Interval>, b: int) { exists r <- rows :: r.Wet() && Hits(r, b) }

  lemma PartSign(r: Interval, b: int)
    requires r.mm >= 0.0
    ensures Part(r, b) >= 0.0 && (Part(r, b) > 0.0 <==> r.Wet() && Hits(r, b))
  {
    if Hits(r, b) { ShareSign(r.mm, Overlap(r, b), r.dur); }
  }

  lemma ShareSign(mm: real, part: int, whole: int)
    requires mm >= 0.0 && part > 0 && whole > 0
    ensures Share(mm, part, whole) >= 0.0 && (Share(mm, part, whole) > 0.0 <==> mm > 0.0)
  {
    if mm > 0.0 { assert mm * part as real > 0.0; }
  }

  lemma {:induction false} DepthSign(st: seq<Interval>, b: int)
    requires GoodRain(st)
    ensures Depth(st, b) >= 0.0 && (Depth(st, b) > 0.0 <==> WetBin(st, b))
  {
    if st != [] {
      hide Part, Hits;
      var n := |st| - 1;
      assert st == st[..n] + [st[n]];
      DepthSign(st[..n], b);
      PartSign(st[n], b);
    }
  }

  lemma {:induction false} SumSign(stations: seq<seq<Interval>>, b: int)
    requires GoodRain(Rows(stations))
    ensures SumDepth(stations, b) >= 0.0 && (SumDepth(stations, b) > 0.0 <==> WetBin(Rows(stations), b))
  {
    if stations != [] {
      hide Depth, Hits, Interval.Wet;
      var n := |stations| - 1;
      var rest, st := Rows(stations[..n]), stations[n];
      assert Rows(stations) == rest + st;
      assert GoodRain(rest) && GoodRain(st) by { GoodParts(rest, st); }
      SumSign(stations[..n], b);
      DepthSign(st, b);
      assert WetBin(st, b) ==> Covers(st, b);
      WetBinConcat(rest, st, b);
    }
  }

  lemma GoodParts(a: seq<Interval>, b: seq<Interval>)
    ensures GoodRain(a + b) <==> GoodRain(a) && GoodRain(b)
  {
    assert forall r :: r in a || r in b <==> r in a + b;
  }

  lemma WetBinConcat(a: seq<Interval>, c: seq<Interval>, b: int)
    ensures WetBin(a + c, b) <==> WetBin(a, b) || WetBin(c, b)
  {
    hide Hits;
    assert forall r :: r in a || r in c <==> r in a + c;
  }

  /** A bin of the merged series is wet exactly when some station saw rain in it. */
  lemma ValueSign(stations: seq<seq<Interval>>, b: int)
    requires GoodRain(Rows(stations))
    ensures Value(stations, b) > 0.0 <==> WetBin(Rows(stations), b)
    ensures WetBin(Rows(stations), b) ==> Reporting(stations, b) > 0
  {
    hide SumDepth, WetBin, Rows;
    SumSign(stations, b);
    if Reporting(stations, b) == 0 {
      UnreportedSum(stations, b);
    } else {
      DivSign(SumDepth(stations, b), Reporting(stations, b));
    }
  }

  lemma DivSign(x: real, k: nat)
    requires k > 0 && x >= 0.0
    ensures x / k as real > 0.0 <==> x > 0.0
  {
  }

  function Cell(stations: seq<seq<Interval>>, b: int): Interval { Interval(b * BIN, BIN, Value(stations, b)) }

  /** The wet part of the merged series holds exactly the cells of the wet bins. */
  lemma WetCells(stations: seq<seq<Interval>>, r: Interval)
    requires GoodRain(Rows(stations))
    ensures r in WetOnly(Merged(stations)) <==> exists b :: WetBin(Rows(stations), b) && r == Cell(stations, b)
  {
    hide Value, WetBin, Rows, WetOnly, Ascending, CoveredBins, Reporting;
    var bins := Ascending(CoveredBins(stations));
    var merged := Merged(stations);
    WetMember(merged, r);
    if r in merged && r.Wet() {
      var i :| 0 <= i < |merged| && merged[i] == r;
      ValueSign(stations, bins[i]);
      assert r == Cell(stations, bins[i]);
    }
    if b :| WetBin(Rows(stations), b) && r == Cell(stations, b) {
      ValueSign(stations, b);
      assert b in bins;
      var i :| 0 <= i < |bins| && bins[i] == b;
      assert merged[i] == r;
    }
  }

  lemma {:induction false} WetOrdered(s: seq<Interval>)
    requires Ordered(s)
    ensures Ordered(WetOnly(s))
  {
    if s != [] {
      var n := |s| - 1;
      WetOrdered(s[..n]);
      var w := WetOnly(s[..n]);
      forall i | 0 <= i < |w| ensures w[i].start <= s[n].start {
        WetMember(s[..n], w[i]);
        assert w[i] in w;
        var j :| 0 <= j < n && s[..n][j] == w[i];
        assert s[j] == w[i];
      }
    }
  }

  ghost function WetSeries(stations: seq<seq<Interval>>): seq<Interval> { WetOnly(Merged(stations)) }

  lemma MergedWetOrdered(stations: seq<seq<Interval>>)
    ensures Ordered(WetSeries(stations))
  {
    hide WetOnly, Value, Ascending;
    var m := Merged(stations);
    MergedSorted(stations);
    assert forall i :: 0 <= i < |m| ==> m[i].dur == BIN;
    assert Ordered(m);
    WetOrdered(m);
  }

  // ----- a storm's own intervals lie inside its bins -------------------------------------------------

  /** Bin `b` lies inside the time from `first` to `end`. */
  predicate BinInside(b: int, first: int, end: int) { first <= b * BIN && (b + 1) * BIN <= end }

  /** A wet bin that touches or adjoins a run belongs to it. */
  lemma NearBinInside(stations: seq<seq<Interval>>, k: nat, b: int)
    requires GoodRain(Rows(stations)) && WetBin(Rows(stations), b)
    requires k < |Groups(WetSeries(stations))|
    requires var g := Groups(WetSeries(stations))[k]; g[0].start <= (b + 1) * BIN && b * BIN <= MaxEnd(g)
    ensures var g := Groups(WetSeries(stations))[k]; BinInside(b, g[0].start, MaxEnd(g))
  {
    hide Groups, MaxEnd, WetOnly, Merged, Value, WetBin, Rows;
    MergedWetOrdered(stations);
    WetCells(stations, Cell(stations, b));
    AroundGroup(WetSeries(stations), k, Cell(stations, b));
  }

  /** All bins of an interval belong to the run that one of them belongs to. */
  lemma {:induction false} SpreadInside(stations: seq<seq<Interval>>, k: nat, r: Interval, b: int, c: int)
    requires GoodRain(Rows(stations)) && r in Rows(stations) && r.Wet() && Hits(r, b) && Hits(r, c)
    requires k < |Groups(WetSeries(stations))|
    requires var g := Groups(WetSeries(stations))[k]; BinInside(b, g[0].start, MaxEnd(g))
    ensures var g := Groups(WetSeries(stations))[k]; BinInside(c, g[0].start, MaxEnd(g))
    decreases if b < c then c - b else b - c
  {
    if b != c {
      hide Groups, MaxEnd, WetSeries, Rows, FirstBin, LastBin;
      var d := if b < c then b + 1 else b - 1;
      BinRange(r, b);
      BinRange(r, c);
      BinRange(r, d);
      hide Hits;
      assert WetBin(Rows(stations), d);
      NearBinInside(stations, k, d);
      SpreadInside(stations, k, r, d, c);
    }
  }

  /** The bin of a run's own interval at one end of it. */
  lemma RunBins(stations: seq<seq<Interval>>, k: nat, x: Interval) returns (b: int)
    requires GoodRain(Rows(stations))
    requires k < |Groups(WetSeries(stations))| && x in Groups(WetSeries(stations))[k]
    ensures WetBin(Rows(stations), b) && x == Cell(stations, b)
  {
    hide Groups, Flatten, Segmentation, WetOnly, Merged, Rows, WetBin, Value;
    var w := WetSeries(stations);
    GroupsAreSegmentation(w);
    FlattenMember(Groups(w), k, x);
    WetCells(stations, x);
    b :| WetBin(Rows(stations), b) && x == Cell(stations, b);
  }

  /** Every wet station interval that overlaps the widened storm lies inside the storm's bins. */
  lemma CandidateInside(stations: seq<seq<Interval>>, k: nat, r: Interval)
    requires GoodRain(Rows(stations)) && r in Rows(stations)
    requires k < |Groups(WetSeries(stations))|
    requires var g := Groups(WetSeries(stations))[k]; Candidate(r, g[0].start - BIN, MaxEnd(g) + BIN)
    ensures var g := Groups(WetSeries(stations))[k]; g[0].start <= r.start && r.End() <= MaxEnd(g)
  {
    hide Groups, MaxEnd, WetSeries, Rows, Value;
    var g := Groups(WetSeries(stations))[k];
    var x := LatestOf(g);
    var first := RunBins(stations, k, g[0]);
    var last := RunBins(stations, k, x);
    var t := Max(r.start, g[0].start - BIN);
    var b := FloorDiv(t, BIN);
    assert Hits(r, b);
    assert WetBin(Rows(stations), b);
    NearBinInside(stations, k, b);
    SpansBins(r);
    SpreadInside(stations, k, r, b, FirstBin(r));
    SpreadInside(stations, k, r, b, LastBin(r));
  }

  lemma SpansBins(r: Interval)
    requires r.dur > 0
    ensures Hits(r, FirstBin(r)) && Hits(r, LastBin(r))
    ensures FirstBin(r) * BIN <= r.start && r.End() <= (LastBin(r) + 1) * BIN
  {
    BinRange(r, FirstBin(r));
    BinRange(r, LastBin(r));
  }

  /** Some station interval reaches into a run's last bin. */
  lemma LastBinReached(stations: seq<seq<Interval>>, k: nat) returns (r: Interval)
    requires GoodRain(Rows(stations)) && k < |Groups(WetSeries(stations))|
    ensures var g := Groups(WetSeries(stations))[k];
            && r in Rows(stations) && Candidate(r, g[0].start - BIN, MaxEnd(g) + BIN)
            && MaxEnd(g) - BIN < r.End()
  {
    hide Groups, MaxEnd, WetSeries, Rows, Value;
    var g := Groups(WetSeries(stations))[k];
    var x := LatestOf(g);
    var b := RunBins(stations, k, x);
    r :| r in Rows(stations) && r.Wet() && Hits(r, b);
    var f := RunBins(stations, k, g[0]);
    assert g[0].End() <= MaxEnd(g);
  }

  // ----- the reported storms --------------------------------------------------------------------------

  /** Storms `s` describe the runs `ks`, in the order of the runs. */
  ghost predicate DescribeRuns(gs: seq<Group>, s: seq<Storm>, ks: seq<nat>) {
    && |ks| == |s|
    && (forall i :: 0 <= i < |ks| ==> ks[i] < |gs| && s[i] == Describe(gs[ks[i]], s[i].closed))
    && (forall i, j :: 0 <= i < j < |ks| ==> ks[i] < ks[j])
  }

  lemma DescribeMore(gs: seq<Group>, g: Group, s: seq<Storm>, ks: seq<nat>, closed: bool)
    requires DescribeRuns(gs, s, ks)
    ensures DescribeRuns(gs + [g], s, ks)
    ensures DescribeRuns(gs + [g], s + [Describe(g, closed)], ks + [|gs|])
  {
    hide OnsetOf, PeakOf, MaxEnd, Total;
    var gs' := gs + [g];
    forall i | 0 <= i < |ks| ensures s[i] == Describe(gs'[ks[i]], s[i].closed) {
      assert gs'[ks[i]] == gs[ks[i]];
    }
  }

  lemma {:induction false} ClosedRuns(gs: seq<Group>) returns (ks: seq<nat>)
    ensures DescribeRuns(gs, AllClosed(gs), ks)
  {
    if gs == [] {
      ks := [];
    } else {
      hide Describe, DescribeRuns;
      var rest, g := gs[..|gs| - 1], gs[|gs| - 1];
      assert gs == rest + [g];
      ks := ClosedRuns(rest);
      DescribeMore(rest, g, AllClosed(rest), ks, true);
      if Total(g) >= MIN_TOTAL {
        ks := ks + [|rest|];
      } else {
        assert AllClosed(gs) == AllClosed(rest);
      }
    }
  }

  lemma ReportRuns(gs: seq<Group>, horizon: int) returns (ks: seq<nat>)
    ensures DescribeRuns(gs, Report(gs, horizon), ks)
  {
    if gs == [] {
      ks := [];
    } else {
      hide Describe, DescribeRuns, AllClosed, MaxEnd;
      var rest, g := gs[..|gs| - 1], gs[|gs| - 1];
      assert gs == rest + [g];
      ks := ClosedRuns(rest);
      DescribeMore(rest, g, AllClosed(rest), ks, horizon >= MaxEnd(g) + GAP);
      if Total(g) >= MIN_TOTAL {
        ks := ks + [|rest|];
      } else {
        assert Report(gs, horizon) == AllClosed(rest);
      }
    }
  }

  /** One refined storm: it keeps its first bin, and its onset and rain end move only inside the
      span its bins cover, the end by less than a bin. */
  ghost predicate RefinedWithin(s: Storm, t: Storm) {
    && t.firstRain == s.firstRain <= t.onset < t.rainEnd <= s.rainEnd < t.rainEnd + BIN
    && t.total == s.total && t.peak == s.peak && t.closed == s.closed
  }

  lemma RefineInside(stations: seq<seq<Interval>>, k: nat, closed: bool)
    requires GoodRain(Rows(stations)) && k < |Groups(WetSeries(stations))|
    ensures var s := Describe(Groups(WetSeries(stations))[k], closed); RefinedWithin(s, Refine(s, Rows(stations)))
  {
    hide Groups, MaxEnd, WetSeries, Rows, EarliestStrong, LatestEnd, OnsetOf, PeakOf, Total, Value;
    var g := Groups(WetSeries(stations))[k];
    var rows, s := Rows(stations), Describe(g, closed);
    var from, to := s.firstRain - BIN, s.rainEnd + BIN;
    EarliestMeaning(rows, from, to);
    LatestMeaning(rows, from, to);
    var last := LastBinReached(stations, k);
    forall r <- rows | Candidate(r, from, to) ensures s.firstRain <= r.start && r.End() <= s.rainEnd {
      CandidateInside(stations, k, r);
    }
    var o, e := EarliestStrong(rows, from, to), LatestEnd(rows, from, to);
    if o.Some? {
      var r :| r in rows && Candidate(r, from, to) && Strong(r) && r.start == o.value;
      assert r.dur > 0;
    } else {
      WeakOnset(stations, k, last);
    }
  }

  /** Without a strong station interval the onset is a bin start that the rain reaches past. */
  lemma WeakOnset(stations: seq<seq<Interval>>, k: nat, last: Interval)
    requires GoodRain(Rows(stations)) && k < |Groups(WetSeries(stations))|
    requires MaxEnd(Groups(WetSeries(stations))[k]) - BIN < last.End()
    ensures var g := Groups(WetSeries(stations))[k]; g[0].start <= OnsetOf(g) < last.End()
  {
    hide Groups, MaxEnd, WetSeries, Rows, OnsetOf, Value;
    var g := Groups(WetSeries(stations))[k];
    OnsetIsStart(g);
    var x :| x in g && x.start == OnsetOf(g);
    var b := RunBins(stations, k, x);
    var f := RunBins(stations, k, g[0]);
    assert x.End() <= MaxEnd(g);
    MergedWetOrdered(stations);
    FirstStart(WetSeries(stations), k, x);
  }

  /** The pipeline's storms: refined inside the merged spans, and at least six hours apart. */
  lemma FoundApart(stations: seq<seq<Interval>>, horizon: int)
    requires GoodRain(Rows(stations))
    ensures var s, t := Segment(Merged(stations), horizon), Find(stations, horizon);
            && |t| == |s|
            && (forall i :: 0 <= i < |s| ==> RefinedWithin(s[i], t[i]))
            && (forall i, j :: 0 <= i < j < |t| ==> t[j].firstRain - t[i].rainEnd >= GAP)
  {
    hide Groups, Merged, WetOnly, Rows, MaxEnd, OnsetOf, PeakOf, Total, Refine;
    var w := WetSeries(stations);
    var gs := Groups(w);
    var s, t := Segment(Merged(stations), horizon), Find(stations, horizon);
    assert s == Report(gs, horizon);
    var ks := ReportRuns(gs, horizon);
    hide Report;
    forall i | 0 <= i < |s| ensures RefinedWithin(s[i], t[i]) {
      RefineInside(stations, ks[i], s[i].closed);
    }
    MergedWetOrdered(stations);
    GroupsSeparated(w);
    forall i, j | 0 <= i < j < |t| ensures t[j].firstRain - t[i].rainEnd >= GAP {
      assert FarBefore(gs[ks[i]], gs[ks[j]]);
      var x := LatestOf(gs[ks[i]]);
      assert gs[ks[j]][0] in gs[ks[j]];
      assert RefinedWithin(s[i], t[i]) && RefinedWithin(s[j], t[j]);
    }
  }
}
