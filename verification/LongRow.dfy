/** A rainfall row longer than the scan of a window's query, as the gauge derivation writes it after lost uplinks, hides
    its storm from the windows inside it (internal/weather/gauge.go, internal/storms/storms.go). */
module LongRow {
  import opened Common
  import opened Rain
  import opened Storms
  import opened StormPipeline
  import opened Selection
  import opened StormWindow
  import GaugeRainfall

  // ----- one long interval is one storm ------------------------------------------------------------------------------

  /** Consecutive bins. */
  function Bins(a: int, n: nat): seq<int> { seq(n, i => a + i) }

  lemma OneRowBins(r: Interval)
    requires r.dur > 0
    ensures FirstBin(r) <= LastBin(r)
    ensures Ascending(CoveredBins([[r]])) == Bins(FirstBin(r), LastBin(r) - FirstBin(r) + 1)
  {
    BinRange(r, FirstBin(r));
    hide Ascending, CoveredBins, Hits, FirstBin, LastBin;
    var a, n := FirstBin(r), LastBin(r) - FirstBin(r) + 1;
    var p, q := Ascending(CoveredBins([[r]])), Bins(a, n);
    forall b ensures b in p <==> b in q {
      OneRowCovers(r, b);
      BinRange(r, b);
      if b in q { var i :| 0 <= i < |q| && q[i] == b; }
      if a <= b < a + n { assert q[b - a] == b; }
    }
    AscendingUnique(p, q);
  }

  lemma OneRowCovers(r: Interval, b: int)
    ensures b in CoveredBins([[r]]) <==> Hits(r, b)
  {
    hide Hits;
    assert Reporting([[r]], b) > 0 <==> Covers([r], b) by { assert [[r]][..0] == []; }
    assert Covers([r], b) <==> Hits(r, b) by { assert r in [r]; }
  }

  /** Cells side by side. */
  ghost predicate SideBySide(w: seq<Interval>, a: int) {
    forall i :: 0 <= i < |w| ==> w[i].start == (a + i) * BIN && w[i].dur == BIN && w[i].Wet()
  }

  lemma {:induction false} AllWet(w: seq<Interval>)
    requires forall i :: 0 <= i < |w| ==> w[i].Wet()
    ensures WetOnly(w) == w
  {
    if w != [] {
      AllWet(w[..|w| - 1]);
      assert w == w[..|w| - 1] + [w[|w| - 1]];
    }
  }

  lemma {:induction false} OneGroup(w: seq<Interval>, a: int)
    requires SideBySide(w, a) && w != []
    ensures Groups(w) == [w] && MaxEnd(w) == (a + |w|) * BIN
  {
    var n := |w| - 1;
    assert w == w[..n] + [w[n]];
    if n == 0 {
      assert w[..0] == [];
    } else {
      OneGroup(w[..n], a);
      assert w[n].start - MaxEnd(w[..n]) == 0;
    }
  }

  /** The merged rain of a single wet interval is one run of cells over it. */
  lemma OneRowMerged(r: Interval)
    requires r.dur > 0 && r.Wet()
    ensures var w := Merged([[r]]);
            && w != [] && SideBySide(w, FirstBin(r)) && Total(w) == r.mm
            && FirstBin(r) * BIN <= r.start && r.End() <= (FirstBin(r) + |w|) * BIN
  {
    hide *;
    MergeConserves([r]);
    OneRowGiven(r);
    OneRowCells(r);
    EndsInside(r);
  }

  lemma OneRowCells(r: Interval)
    requires r.dur > 0 && r.Wet()
    ensures var w := Merged([[r]]); |w| == LastBin(r) - FirstBin(r) + 1 > 0 && SideBySide(w, FirstBin(r))
  {
    hide Ascending, CoveredBins, Value, FirstBin, LastBin, Interval.Wet;
    OneRowBins(r);
    var w, a := Merged([[r]]), FirstBin(r);
    forall i | 0 <= i < |w| ensures w[i].start == (a + i) * BIN && w[i].dur == BIN && w[i].Wet() { OneRowCell(r, i); }
  }

  lemma OneRowCell(r: Interval, i: nat)
    requires r.dur > 0 && r.Wet() && i < |Merged([[r]])|
    ensures var c := Merged([[r]])[i]; c.start == (FirstBin(r) + i) * BIN && c.dur == BIN && c.Wet()
  {
    hide Ascending, CoveredBins, Value, FirstBin, LastBin;
    OneRowBins(r);
    OneRowWet(r, FirstBin(r) + i);
  }

  /** The storm that a single wet interval makes spans it. */
  lemma OneRowStorm(r: Interval, h: int)
    requires r.dur > 0 && r.mm >= MIN_TOTAL
    ensures var f := Find([[r]], h); |f| == 1 && f[0].firstRain <= r.start && f[0].rainEnd == r.End()
  {
    hide Merged, Groups, WetOnly, Total, MaxEnd, FirstBin, OnsetOf, PeakOf, Report, Refine, Rows;
    var w := Merged([[r]]);
    OneRowMerged(r);
    OneRowRows(r);
    AllWet(w);
    OneGroup(w, FirstBin(r));
    OneReport(w, h);
    OneRefined(Describe(w, h >= MaxEnd(w) + GAP), r);
  }

  lemma EndsInside(r: Interval)
    ensures FirstBin(r) * BIN <= r.start && r.End() <= (LastBin(r) + 1) * BIN
  {
  }

  lemma OneRowRows(r: Interval)
    ensures Rows([[r]]) == [r]
  {
    assert [[r]][..0] == [];
  }

  lemma OneRowWet(r: Interval, b: int)
    requires r.dur > 0 && r.Wet() && FirstBin(r) <= b <= LastBin(r)
    ensures Value([[r]], b) > 0.0
  {
    OneRowRows(r);
    BinRange(r, b);
    assert r in Rows([[r]]);
    assert WetBin(Rows([[r]]), b);
    assert GoodRain(Rows([[r]]));
    ValueSign([[r]], b);
  }

  lemma OneRowGiven(r: Interval)
    requires r.dur > 0
    ensures Given([r]) == r.mm
  {
    assert [r][..0] == [];
  }

  lemma OneReport(g: Group, h: int)
    requires Total(g) >= MIN_TOTAL
    ensures Report([g], h) == [Describe(g, h >= MaxEnd(g) + GAP)]
  {
    assert [g][..0] == [];
  }

  lemma OneRefined(s: Storm, r: Interval)
    requires r.Wet() && s.firstRain <= r.start < r.End() <= s.rainEnd
    ensures var t := Refine(s, [r]); t.firstRain <= r.start && t.rainEnd == r.End()
  {
    hide EarliestStrong, LatestEnd;
    var from, to := s.firstRain - BIN, s.rainEnd + BIN;
    NoRows(from, to);
    RefineSnoc([], r, from, to);
    assert [] + [r] == [r];
  }

  lemma OneSelected(x: RainRow)
    requires x.source == Gauge
    ensures Selected([x]) == [[x.Iv()]]
  {
    OneIds(x);
    NoIds(x);
    OnePicked(x);
    hide Ascending, Picked, Ids;
    assert [[x.Iv()]] + [] == [[x.Iv()]];
    assert Picked([x], Eccc, []) == [] by { NonePicked([x]); }
  }

  lemma NonePicked(rows: seq<RainRow>)
    ensures Picked(rows, Eccc, []) == []
  {
  }

  lemma OnePicked(x: RainRow)
    requires x.source == Gauge
    ensures Picked([x], Gauge, [x.station]) == [[x.Iv()]]
  {
    assert [x][..0] == [] && [x.station][..0] == [];
    assert SeriesOf([x], Gauge, x.station) == SeriesOf([x][..0], Gauge, x.station) + [x.Iv()];
    assert StationSeries([x], Gauge, x.station) == [x.Iv()];
    assert Picked([x], Gauge, [x.station]) == Picked([x], Gauge, [x.station][..0]) + [[x.Iv()]];
  }

  lemma OneIds(x: RainRow)
    ensures Ascending(Ids([x], x.source)) == [x.station]
  {
    hide Ascending;
    var p, q := Ascending(Ids([x], x.source)), [x.station];
    assert x in [x];
    forall s ensures s in p <==> s in q {}
    AscendingUnique(p, q);
  }

  lemma NoIds(x: RainRow)
    requires x.source == Gauge
    ensures Ascending(Ids([x], Eccc)) == []
  {
    assert Ids([x], Eccc) == {};
  }

  // ----- hidden from a window inside it ------------------------------------------------------------------------------

  /** The row derived from an uplink `len` seconds after the one before it, all between them lost. */
  lemma LostUplinks(len: int, tips: nat, mmPerTip: real)
    requires 2 * 900 < len <= GaugeRainfall.MAX_INT32
    ensures var p := GaugeRainfall.Uplink(0, 1, 0, mmPerTip, 900, false, false);
            var u := GaugeRainfall.Uplink(len * SECOND, 2, tips, mmPerTip, 900, false, false);
            GaugeRainfall.DeriveOne(Some(p), u) == [GaugeRainfall.Row(0, len, tips as real * mmPerTip)]
  {
    var p := GaugeRainfall.Uplink(0, 1, 0, mmPerTip, 900, false, false);
    var u := GaugeRainfall.Uplink(len * SECOND, 2, tips, mmPerTip, 900, false, false);
    assert GaugeRainfall.NodeStart(u) - p.at > GaugeRainfall.LOSS_SLACK;
    assert GaugeRainfall.Seconds(len * SECOND) == len;
    var rows := GaugeRainfall.DeriveOne(Some(p), u);
    assert |rows| == 1 && rows[0].start == 0 && rows[0].intervalS == len;
    assert rows[0].mm == tips as real * mmPerTip;
  }

  /** For every length above the scan limit: the row of such an uplink makes a storm that spans the window, while the
      window's query returns nothing, so that the window counts as settled and shows no storm. */
  lemma LongRowHidden(len: int, tips: nat, mmPerTip: real)
    requires SCAN_BEFORE / SECOND < len <= GaugeRainfall.MAX_INT32 && tips as real * mmPerTip >= MIN_TOTAL
    ensures var p := GaugeRainfall.Uplink(0, 1, 0, mmPerTip, 900, false, false);
            var u := GaugeRainfall.Uplink(len * SECOND, 2, tips, mmPerTip, 900, false, false);
            var rows := GaugeRainfall.DeriveOne(Some(p), u);
            |rows| == 1 && HiddenIn(RainRow(Gauge, 0, rows[0].start, rows[0].intervalS, rows[0].mm))
  {
    hide GaugeRainfall.DeriveOne, HiddenIn;
    LostUplinks(len, tips, mmPerTip);
    Hidden(RainRow(Gauge, 0, 0, len, tips as real * mmPerTip));
  }

  /** A table of this one row, and a window inside the row that the row is hidden from. */
  ghost predicate HiddenIn(x: RainRow) {
    var table, lo, hi, h := [x], x.ts + SCAN_BEFORE + 1, x.ts + SCAN_BEFORE + 1 + 2 * EDGE_PAD, x.Iv().End();
    && GoodTable(table) && IsHorizon(table, h) && !InReach(table, lo, hi) && Settled(table, lo, hi, h)
    && Find(Selected(Listed(table, lo, hi)), h) == []
    && (exists s <- Find(Selected(table), h) :: s.firstRain <= lo < s.rainEnd)
  }

  lemma Hidden(x: RainRow)
    requires x.source == Gauge && x.ts >= 0 && x.intervalS * SECOND > SCAN_BEFORE + 1 && x.mm >= MIN_TOTAL
    ensures HiddenIn(x)
  {
    hide Selected, Find, Listed, Rows;
    var table, lo, hi, h := [x], x.ts + SCAN_BEFORE + 1, x.ts + SCAN_BEFORE + 1 + 2 * EDGE_PAD, x.Iv().End();
    NotListed(x, lo, hi);
    NothingSelected();
    OneSelected(x);
    OneRowStorm(x.Iv(), h);
    assert x in table;
    assert GoodTable(table) && IsHorizon(table, h) && !InReach(table, lo, hi) && Settled(table, lo, hi, h);
    var f := Find(Selected(table), h);
    assert f[0] in f;
  }

  lemma NotListed(x: RainRow, lo: int, hi: int)
    requires x.ts < lo - SCAN_BEFORE
    ensures Listed([x], lo, hi) == []
  {
    assert [x][..0] == [];
  }

  lemma NothingSelected()
    ensures Selected([]) == [] && Rows([]) == [] && forall h :: Find([], h) == []
  {
    assert Ids([], Gauge) == {} && Ids([], Eccc) == {};
    assert CoveredBins([]) == {};
  }
}
