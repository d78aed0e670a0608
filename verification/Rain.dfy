/** Rain intervals and the merge of several stations onto epoch-aligned bins
    (internal/hydrology/storm.go). Times are nanoseconds, depths are exact reals; the 1e-9
    tolerances of the source are zero here. */
module Rain {
  import opened Common

  const HOUR := 3_600_000_000_000
  const BIN := 300_000_000_000

  datatype Interval = Interval(start: int, dur: int, mm: real) {
    function End(): int { start + dur }

    predicate Wet() { mm > 0.0 }

    /** Mean intensity in mm/h. */
    function Intensity(): real { if dur <= 0 then 0.0 else mm / (dur as real / HOUR as real) }
  }

  /** The width of the bins of a merge. */
  type Width = w: int | w > 0 witness 1

  // ----- bins --------------------------------------------------------------------------------

  /** Division that truncates toward zero, as the source language's does. */
  function TruncDiv(a: int, b: int): int
    requires b > 0
  {
    if a >= 0 then a / b else -((-a) / b)
  }

  /** The bin a time falls in, also before the epoch. */
  function FloorDiv(a: int, b: int): (q: int)
    requires b > 0
    ensures q * b <= a < (q + 1) * b
  {
    var q := TruncDiv(a, b);
    var rest := a - q * b;
    assert a < 0 ==> (-a) == ((-a) / b) * b + (-a) % b;
    if rest != 0 && a < 0 then q - 1 else q
  }

  lemma Scale(a: int, b: int, w: Width)
    requires a < b
    ensures a * w + w <= b * w
  {
    assert (b - a - 1) * w >= 0;
    assert b * w == a * w + w + (b - a - 1) * w;
  }

  lemma NextEdge(b: int, w: Width)
    ensures (b + 1) * w == b * w + w
  {
  }

  /** A bin number is at most that of a time exactly if the bin begins by then. */
  lemma FloorAt(t: int, b: int, w: Width)
    ensures b <= FloorDiv(t, w) <==> b * w <= t
  {
    hide FloorDiv;
    var q := FloorDiv(t, w);
    NextEdge(q, w);
    if b < q { Scale(b, q, w); }
    if q < b { Scale(q, b, w); }
  }

  function FirstBin(r: Interval, w: Width := BIN): int { FloorDiv(r.start, w) }

  function LastBin(r: Interval, w: Width := BIN): int { FloorDiv(r.End() - 1, w) }

  /** How much of bin `b` the interval overlaps; negative if they are apart. */
  function Overlap(r: Interval, b: int, w: Width := BIN): int {
    Min((b + 1) * w, r.End()) - Max(b * w, r.start)
  }

  predicate Hits(r: Interval, b: int, w: Width := BIN) { r.dur > 0 && Overlap(r, b, w) > 0 }

  /** The bins an interval is spread over are exactly those it overlaps. */
  lemma BinRange(r: Interval, b: int, w: Width := BIN)
    requires r.dur > 0
    ensures FirstBin(r, w) <= b <= LastBin(r, w) <==> Hits(r, b, w)
  {
    hide FloorDiv;
    FloorAt(r.start, b + 1, w);
    FloorAt(r.End() - 1, b, w);
    NextEdge(b, w);
  }

  /** The depth that falls in `part` of an interval of `whole`. */
  function Share(mm: real, part: int, whole: int): real
    requires whole > 0
  {
    mm * part as real / whole as real
  }

  /** The interval's share of bin `b`, with its depth spread uniformly. */
  function Part(r: Interval, b: int, w: Width := BIN): real {
    if Hits(r, b, w) then Share(r.mm, Overlap(r, b, w), r.dur) else 0.0
  }

  /** Depth is spread evenly: bins that an interval covers wholly get the same, others in proportion to the overlap. */
  lemma SpreadEvenly(r: Interval, b: int, c: int, w: Width := BIN)
    requires Hits(r, b, w) && Hits(r, c, w) && r.mm > 0.0
    ensures Part(r, b, w) * Overlap(r, c, w) as real == Part(r, c, w) * Overlap(r, b, w) as real
    ensures r.start <= b * w && (b + 1) * w <= r.start + r.dur ==> Overlap(r, b, w) == w
  {
    ShareScales(r.mm, Overlap(r, b, w), Overlap(r, c, w), r.dur);
    NextEdge(b, w);
    hide Overlap, Share;
  }

  lemma ShareScales(mm: real, a: int, b: int, whole: int)
    requires whole > 0
    ensures Share(mm, a, whole) * b as real == Share(mm, b, whole) * a as real
  {
    var x, y, d := a as real, b as real, whole as real;
    assert (mm * x / d) * y == mm * x * y / d;
    assert (mm * y / d) * x == mm * y * x / d;
    assert mm * x * y == mm * y * x;
  }

  function Depth(st: seq<Interval>, b: int, w: Width := BIN): real {
    if st == [] then 0.0 else Depth(st[..|st| - 1], b, w) + Part(st[|st| - 1], b, w)
  }

  predicate Covers(st: seq<Interval>, b: int, w: Width := BIN) { exists r <- st :: Hits(r, b, w) }

  // ----- the merged series -------------------------------------------------------------------

  /** Sum of the depths of the stations that cover a bin, and how many they are. */
  function SumDepth(stations: seq<seq<Interval>>, b: int, w: Width := BIN): real {
    if stations == [] then 0.0
    else
      var n := |stations| - 1;
      SumDepth(stations[..n], b, w) + if Covers(stations[n], b, w) then Depth(stations[n], b, w) else 0.0
  }

  function Reporting(stations: seq<seq<Interval>>, b: int, w: Width := BIN): (k: nat)
    ensures k > 0 <==> exists st <- stations :: Covers(st, b, w)
  {
    if stations == [] then 0
    else
      var n := |stations| - 1;
      assert stations == stations[..n] + [stations[n]];
      Reporting(stations[..n], b, w) + if Covers(stations[n], b, w) then 1 else 0
  }

  /** Mean over the stations that report for the bin. */
  function Value(stations: seq<seq<Interval>>, b: int, w: Width := BIN): real {
    if Reporting(stations, b, w) == 0 then 0.0 else SumDepth(stations, b, w) / Reporting(stations, b, w) as real
  }

  function IntervalBins(r: Interval, w: Width := BIN): (s: set<int>)
    ensures forall b :: b in s <==> Hits(r, b, w)
  {
    if r.dur <= 0 then {}
    else
      assert forall b :: FirstBin(r, w) <= b <= LastBin(r, w) <==> Hits(r, b, w) by {
        forall b ensures FirstBin(r, w) <= b <= LastBin(r, w) <==> Hits(r, b, w) { BinRange(r, b, w); }
      }
      set b | FirstBin(r, w) <= b <= LastBin(r, w) && Hits(r, b, w)
  }

  function StationBins(st: seq<Interval>, w: Width := BIN): (s: set<int>)
    ensures forall b :: b in s <==> Covers(st, b, w)
  {
    if st == [] then {}
    else
      var n := |st| - 1;
      assert st == st[..n] + [st[n]];
      StationBins(st[..n], w) + IntervalBins(st[n], w)
  }

  function CoveredBins(stations: seq<seq<Interval>>, w: Width := BIN): (s: set<int>)
    ensures forall b :: b in s <==> Reporting(stations, b, w) > 0
  {
    if stations == [] then {}
    else
      var n := |stations| - 1;
      assert stations == stations[..n] + [stations[n]];
      CoveredBins(stations[..n], w) + StationBins(stations[n], w)
  }

  function Merged(stations: seq<seq<Interval>>, w: Width := BIN): seq<Interval> {
    Series(stations, Ascending(CoveredBins(stations, w)), w)
  }

  function Series(stations: seq<seq<Interval>>, bins: seq<int>, w: Width := BIN): seq<Interval> {
    seq(|bins|, i requires 0 <= i < |bins| => Interval(bins[i] * w, w, Value(stations, bins[i], w)))
  }

  // ----- sorted sets -------------------------------------------------------------------------

  ghost predicate Increasing(s: seq<int>) { forall i, j :: 0 <= i < j < |s| ==> s[i] < s[j] }

  ghost function Pick<T>(s: set<T>): (x: T)
    requires s != {}
    ensures x in s
  {
    var x :| x in s;
    x
  }

  function Greatest(s: set<int>): (m: int)
    requires s != {}
    ensures m in s && forall x <- s :: x <= m
  {
    GreatestExists(s);
    var m :| m in s && forall x <- s :: x <= m;
    m
  }

  lemma {:induction false} GreatestExists(s: set<int>)
    requires s != {}
    ensures exists m :: m in s && forall x <- s :: x <= m
  {
    var x := Pick(s);
    var rest := s - {x};
    if rest == {} {
      assert s == {x};
    } else {
      GreatestExists(rest);
      var m :| m in rest && forall y <- rest :: y <= m;
      var top := if x > m then x else m;
      assert forall y <- s :: y == x || y in rest;
      assert top in s && forall y <- s :: y <= top;
    }
  }

  /** The elements of a set of bin numbers in ascending order. */
  function Ascending(s: set<int>): (q: seq<int>)
    ensures Increasing(q)
    ensures forall x :: x in q <==> x in s
    decreases |s|
  {
    if s == {} then [] else
      var m := Greatest(s);
      assert |s - {m}| < |s|;
      Ascending(s - {m}) + [m]
  }

  /** There is only one ascending enumeration of a set. */
  lemma {:induction false} AscendingUnique(p: seq<int>, q: seq<int>)
    requires Increasing(p) && Increasing(q)
    requires forall x :: x in p <==> x in q
    ensures p == q
    decreases |p|
  {
    if p != [] { var x := p[0]; assert x in q; }
    if q != [] { var x := q[0]; assert x in p; }
    if p != [] {
      var a, b := p[|p| - 1], q[|q| - 1];
      assert a in q && b in p;
      assert a == b;
      var p', q' := p[..|p| - 1], q[..|q| - 1];
      forall x ensures x in p' <==> x in q' {
        if x in p' { assert x in q && x < a; }
        if x in q' { assert x in p && x < b; }
      }
      AscendingUnique(p', q');
      assert p == p' + [a] && q == q' + [b];
    }
  }

  // ----- the merge as the source computes it --------------------------------------------------

  /** One station's depth per bin. */
  method StationDepths(st: seq<Interval>, w: Width := BIN) returns (seen: map<int, real>)
    ensures forall b :: b in seen <==> Covers(st, b, w)
    ensures forall b <- seen :: seen[b] == Depth(st, b, w)
  {
    seen := map[];
    for i := 0 to |st|
      invariant forall b :: b in seen <==> Covers(st[..i], b, w)
      invariant forall b <- seen :: seen[b] == Depth(st[..i], b, w)
    {
      seen := AddInterval(st, i, seen, w);
    }
    assert st[..|st|] == st;
  }

  lemma {:induction false} UncoveredDepth(st: seq<Interval>, b: int, w: Width := BIN)
    requires !Covers(st, b, w)
    ensures Depth(st, b, w) == 0.0
  {
    if st != [] {
      assert st[|st| - 1] in st;
      assert forall r <- st[..|st| - 1] :: r in st;
      UncoveredDepth(st[..|st| - 1], b, w);
    }
  }

  function Get(seen: map<int, real>, b: int): real { if b in seen then seen[b] else 0.0 }

  method AddInterval(st: seq<Interval>, i: nat, seen: map<int, real>, w: Width := BIN) returns (seen': map<int, real>)
    requires i < |st|
    requires forall b :: b in seen <==> Covers(st[..i], b, w)
    requires forall b <- seen :: seen[b] == Depth(st[..i], b, w)
    ensures forall b :: b in seen' <==> Covers(st[..i + 1], b, w)
    ensures forall b <- seen' :: seen'[b] == Depth(st[..i + 1], b, w)
  {
    var r := st[i];
    assert st[..i + 1] == st[..i] + [r];
    assert st[..i + 1][..i] == st[..i];
    seen' := seen;
    if r.dur > 0 {
      seen' := SpreadInterval(r, seen, w);
      forall c ensures c in seen' <==> Covers(st[..i + 1], c, w) { }
      forall c <- seen' ensures seen'[c] == Depth(st[..i + 1], c, w) {
        assert Get(seen', c) == Get(seen, c) + Part(r, c, w);
        if c !in seen { UncoveredDepth(st[..i], c, w); }
      }
    }
  }

  /** Adds the interval's share to every bin it overlaps. */
  method SpreadInterval(r: Interval, seen: map<int, real>, w: Width := BIN) returns (seen': map<int, real>)
    requires r.dur > 0
    ensures forall c :: c in seen' <==> c in seen || Hits(r, c, w)
    ensures forall c :: Get(seen', c) == Get(seen, c) + Part(r, c, w)
  {
    hide FirstBin, LastBin, Overlap;
    seen' := seen;
    var first, last := FirstBin(r, w), LastBin(r, w);
    var b := first;
    while b <= last
      invariant first <= b && (b <= last + 1 || b == first)
      invariant forall c :: c in seen' <==> c in seen || first <= c < b
      invariant forall c :: Get(seen', c) == Get(seen, c) + if first <= c < b then Part(r, c, w) else 0.0
    {
      BinRange(r, b, w);
      var overlap := Overlap(r, b, w);
      if overlap > 0 {
        seen' := AddShare(r, b, seen', w);
      }
      b := b + 1;
    }
    forall c ensures Get(seen', c) == Get(seen, c) + Part(r, c, w) { BinRange(r, c, w); }
    forall c ensures c in seen' <==> c in seen || Hits(r, c, w) { BinRange(r, c, w); }
  }

  method AddShare(r: Interval, b: int, seen: map<int, real>, w: Width := BIN) returns (seen': map<int, real>)
    requires Hits(r, b, w)
    ensures forall c :: c in seen' <==> c in seen || c == b
    ensures forall c :: Get(seen', c) == Get(seen, c) + if c == b then Part(r, c, w) else 0.0
  {
    var share := Share(r.mm, Overlap(r, b, w), r.dur);
    seen' := seen[b := Get(seen, b) + share];
  }

  datatype Acc = Acc(mm: real, stations: nat)

  function Mean(a: Acc): real
    requires a.stations > 0
  {
    a.mm / a.stations as real
  }

  /** Folds one station's bins into the accumulators. */
  method AddStation(bins: map<int, Acc>, seen: map<int, real>) returns (bins': map<int, Acc>)
    ensures bins'.Keys == bins.Keys + seen.Keys
    ensures forall b <- bins' ::
              var was := if b in bins then bins[b] else Acc(0.0, 0);
              bins'[b] == if b in seen then Acc(was.mm + seen[b], was.stations + 1) else was
  {
    bins' := bins;
    var todo := seen.Keys;
    while todo != {}
      invariant todo <= seen.Keys
      invariant bins'.Keys == bins.Keys + (seen.Keys - todo)
      invariant forall b <- bins' ::
                  var was := if b in bins then bins[b] else Acc(0.0, 0);
                  bins'[b] == if b in seen && b !in todo then Acc(was.mm + seen[b], was.stations + 1) else was
      decreases todo
    {
      ghost var some := Pick(todo);
      var b :| b in todo;
      var a := if b in bins' then bins'[b] else Acc(0.0, 0);
      bins' := bins'[b := Acc(a.mm + seen[b], a.stations + 1)];
      todo := todo - {b};
    }
  }

  /** Depth sum and number of reporting stations of every covered bin. */
  method AccumulateBins(stations: seq<seq<Interval>>, w: Width := BIN) returns (bins: map<int, Acc>)
    ensures forall b :: b in bins <==> Reporting(stations, b, w) > 0
    ensures forall b <- bins :: bins[b] == Acc(SumDepth(stations, b, w), Reporting(stations, b, w))
  {
    hide Depth, Covers;
    bins := map[];
    for k := 0 to |stations|
      invariant forall b :: b in bins <==> Reporting(stations[..k], b, w) > 0
      invariant forall b <- bins :: bins[b] == Acc(SumDepth(stations[..k], b, w), Reporting(stations[..k], b, w))
    {
      assert stations[..k + 1][..k] == stations[..k];
      var seen := StationDepths(stations[k], w);
      ghost var before := bins;
      bins := AddStation(bins, seen);
      forall b <- bins ensures bins[b] == Acc(SumDepth(stations[..k + 1], b, w), Reporting(stations[..k + 1], b, w)) {
        if b !in before { UnreportedSum(stations[..k], b, w); }
      }
    }
    assert stations[..|stations|] == stations;
  }

  method BinMeans(bins: map<int, Acc>, keys: seq<int>, w: Width := BIN) returns (out: seq<Interval>)
    requires forall i :: 0 <= i < |keys| ==> keys[i] in bins && bins[keys[i]].stations > 0
    ensures |out| == |keys|
    ensures forall i :: 0 <= i < |keys| ==>
              out[i] == Interval(keys[i] * w, w, Mean(bins[keys[i]]))
  {
    out := [];
    for i := 0 to |keys|
      invariant |out| == i
      invariant forall j :: 0 <= j < i ==>
                  out[j] == Interval(keys[j] * w, w, Mean(bins[keys[j]]))
    {
      out := out + [Interval(keys[i] * w, w, Mean(bins[keys[i]]))];
    }
  }

  /** A width that is not positive means the five minutes of the storm finder. */
  function WidthOf(bin: int): Width { if bin <= 0 then BIN else bin }

  method MergeRain(stations: seq<seq<Interval>>, bin: int) returns (out: seq<Interval>)
    ensures out == Merged(stations, WidthOf(bin))
  {
    var w: Width := if bin <= 0 then BIN else bin;
    hide SumDepth, Reporting, Ascending, Increasing, CoveredBins, Value, Mean, Merged;
    var bins := AccumulateBins(stations, w);
    BinsMeaning(stations, bins, w);
    var keys := Ascending(bins.Keys);
    ListedOnly(bins.Keys);
    out := BinMeans(bins, keys, w);
    MergedIs(stations, out, w);
  }

  lemma BinsMeaning(stations: seq<seq<Interval>>, bins: map<int, Acc>, w: Width)
    requires forall b :: b in bins <==> Reporting(stations, b, w) > 0
    requires forall b <- bins :: bins[b] == Acc(SumDepth(stations, b, w), Reporting(stations, b, w))
    ensures bins.Keys == CoveredBins(stations, w)
    ensures forall b <- bins.Keys :: bins[b].stations > 0 && Mean(bins[b]) == Value(stations, b, w)
  {
    assert bins.Keys == CoveredBins(stations, w) by {
      forall b ensures b in bins.Keys <==> b in CoveredBins(stations, w) {}
    }
  }

  lemma ListedOnly(s: set<int>)
    ensures forall i :: 0 <= i < |Ascending(s)| ==> Ascending(s)[i] in s
  {
    hide Ascending;
    var q := Ascending(s);
    forall i | 0 <= i < |q| ensures q[i] in s {
      var x := q[i];
      assert x in q;
    }
  }

  lemma MergedIs(stations: seq<seq<Interval>>, out: seq<Interval>, w: Width)
    requires var keys := Ascending(CoveredBins(stations, w));
             && |out| == |keys|
             && forall i :: 0 <= i < |keys| ==> out[i] == Interval(keys[i] * w, w, Value(stations, keys[i], w))
    ensures out == Merged(stations, w)
  {
    hide Ascending, CoveredBins, Value;
  }

  lemma {:induction false} UnreportedSum(stations: seq<seq<Interval>>, b: int, w: Width := BIN)
    requires Reporting(stations, b, w) == 0
    ensures SumDepth(stations, b, w) == 0.0
  {
    if stations != [] {
      UnreportedSum(stations[..|stations| - 1], b, w);
    }
  }

  // ----- order and conservation ----------------------------------------------------------------

  ghost predicate SortedDisjoint(s: seq<Interval>) {
    forall i, j :: 0 <= i < j < |s| ==> s[i].End() <= s[j].start
  }

  lemma SeriesSorted(stations: seq<seq<Interval>>, bins: seq<int>, w: Width := BIN)
    requires Increasing(bins)
    ensures SortedDisjoint(Series(stations, bins, w))
  {
    hide Value;
    var s := Series(stations, bins, w);
    forall i, j | 0 <= i < j < |s| ensures s[i].End() <= s[j].start {
      Scale(bins[i], bins[j], w);
    }
  }

  lemma MergedSorted(stations: seq<seq<Interval>>, w: Width := BIN)
    ensures SortedDisjoint(Merged(stations, w))
  {
    SeriesSorted(stations, Ascending(CoveredBins(stations, w)), w);
  }

  function Total(s: seq<Interval>): real {
    if s == [] then 0.0 else Total(s[..|s| - 1]) + s[|s| - 1].mm
  }

  /** The depth a station reports: an interval of no duration carries none. */
  function Given(st: seq<Interval>): real {
    if st == [] then 0.0
    else Given(st[..|st| - 1]) + if st[|st| - 1].dur > 0 then st[|st| - 1].mm else 0.0
  }

  /** How much of the interval lies before time `t`. */
  function Before(r: Interval, t: int): int { Max(0, Min(t - r.start, r.dur)) }

  function OverlapSum(r: Interval, bins: seq<int>, w: Width := BIN): int {
    if bins == [] then 0 else OverlapSum(r, bins[..|bins| - 1], w) + Max(0, Overlap(r, bins[|bins| - 1], w))
  }

  /** Bins the interval misses contain nothing of it. */
  lemma MissedBins(r: Interval, x: int, y: int, w: Width := BIN)
    requires r.dur > 0 && x <= y && forall c :: x <= c < y ==> !Hits(r, c, w)
    ensures Before(r, x * w) == Before(r, y * w)
  {
    if Before(r, x * w) != Before(r, y * w) { var c := SomeHit(r, x, y, w); }
  }

  lemma SomeHit(r: Interval, x: int, y: int, w: Width := BIN) returns (c: int)
    requires r.dur > 0 && x <= y && Before(r, x * w) != Before(r, y * w)
    ensures x <= c < y && Hits(r, c, w)
  {
    hide FloorDiv;
    if x < y { Scale(x, y, w); }
    var t := Max(r.start, x * w);
    c := FloorDiv(t, w);
    FloorAt(t, x, w);
    FloorAt(t, y, w);
    NextEdge(c, w);
  }

  /** A number between two neighbours is not in the list. */
  lemma Gap(bins: seq<int>, n: nat, c: int)
    requires Increasing(bins) && 0 < n <= |bins| && (n > 1 ==> bins[n - 2] < c) && c < bins[n - 1]
    ensures c !in bins
  {
    forall i | 0 <= i < |bins| ensures bins[i] != c {
      if i < n - 1 { assert bins[i] <= bins[n - 2]; } else { assert bins[n - 1] <= bins[i]; }
    }
  }

  lemma {:induction false} OverlapTelescopes(r: Interval, bins: seq<int>, n: nat, w: Width := BIN)
    requires r.dur > 0 && Increasing(bins) && 0 < n <= |bins|
    requires forall b :: Hits(r, b, w) ==> b in bins
    ensures OverlapSum(r, bins[..n], w) == Before(r, (bins[n - 1] + 1) * w)
  {
    hide Overlap, Hits, Before, FirstBin, LastBin;
    var b := bins[n - 1];
    assert bins[..n][..n - 1] == bins[..n - 1];
    var from := if n == 1 then Min(FirstBin(r, w), b) else bins[n - 2] + 1;
    forall c | from <= c < b ensures !Hits(r, c, w) { Gap(bins, n, c); }
    MissedBins(r, from, b, w);
    if n == 1 {
      assert bins[..0] == [];
      NothingBefore(r, from, w);
    } else {
      OverlapTelescopes(r, bins, n - 1, w);
    }
    OverlapBetween(r, b, w);
  }

  lemma OverlapBetween(r: Interval, b: int, w: Width := BIN)
    requires r.dur > 0
    ensures Max(0, Overlap(r, b, w)) == Before(r, (b + 1) * w) - Before(r, b * w)
  {
    NextEdge(b, w);
  }

  lemma NothingBefore(r: Interval, b: int, w: Width := BIN)
    requires b <= FirstBin(r, w)
    ensures Before(r, b * w) == 0
  {
    FloorAt(r.start, b, w);
  }

  lemma AllBefore(r: Interval, b: int, w: Width := BIN)
    requires LastBin(r, w) <= b && r.dur > 0
    ensures Before(r, (b + 1) * w) == r.dur
  {
    hide FloorDiv;
    FloorAt(r.End() - 1, b + 1, w);
  }

  function PartSum(r: Interval, bins: seq<int>, w: Width := BIN): real {
    if bins == [] then 0.0 else PartSum(r, bins[..|bins| - 1], w) + Part(r, bins[|bins| - 1], w)
  }

  lemma ShareAdds(mm: real, a: int, b: int, whole: int)
    requires whole > 0
    ensures Share(mm, a + b, whole) == Share(mm, a, whole) + Share(mm, b, whole)
  {
    var x, y := mm * a as real, mm * b as real;
    assert (a + b) as real == a as real + b as real;
    assert mm * (a + b) as real == x + y;
    assert (x + y) / whole as real == x / whole as real + y / whole as real;
  }

  lemma ShareWhole(mm: real, whole: int)
    requires whole > 0
    ensures Share(mm, whole, whole) == mm && Share(mm, 0, whole) == 0.0
  {
  }

  lemma {:induction false} PartSumScales(r: Interval, bins: seq<int>, w: Width := BIN)
    requires r.dur > 0
    ensures PartSum(r, bins, w) == Share(r.mm, OverlapSum(r, bins, w), r.dur)
  {
    ShareWhole(r.mm, r.dur);
    if bins != [] {
      hide Overlap, PartSum, OverlapSum, Share;
      var n := |bins| - 1;
      PartSumScales(r, bins[..n], w);
      PartSumStep(r, bins, w);
      ShareAdds(r.mm, OverlapSum(r, bins[..n], w), Max(0, Overlap(r, bins[n], w)), r.dur);
    }
  }

  lemma PartSumStep(r: Interval, bins: seq<int>, w: Width := BIN)
    requires bins != []
    ensures var n := |bins| - 1;
            && PartSum(r, bins, w) == PartSum(r, bins[..n], w) + Part(r, bins[n], w)
            && OverlapSum(r, bins, w) == OverlapSum(r, bins[..n], w) + Max(0, Overlap(r, bins[n], w))
  {
  }

  lemma FirstLast(r: Interval, w: Width := BIN)
    requires r.dur > 0
    ensures FirstBin(r, w) <= LastBin(r, w)
  {
    hide FloorDiv;
    FloorAt(r.start, FirstBin(r, w), w);
    FloorAt(r.End() - 1, FirstBin(r, w), w);
  }

  /** Spreading an interval over its bins loses nothing. */
  lemma WholeInterval(r: Interval, bins: seq<int>, w: Width := BIN)
    requires r.dur > 0 && Increasing(bins) && forall b :: Hits(r, b, w) ==> b in bins
    ensures PartSum(r, bins, w) == r.mm
  {
    hide PartSum, OverlapSum, Part, Overlap, Hits, Share, Before, FirstBin, LastBin;
    var last := LastBin(r, w);
    BinRange(r, last, w);
    FirstLast(r, w);
    assert last in bins;
    var i :| 0 <= i < |bins| && bins[i] == last;
    OverlapTelescopes(r, bins, |bins|, w);
    assert bins[..|bins|] == bins;
    assert last <= bins[|bins| - 1];
    PartSumScales(r, bins, w);
    AllBefore(r, bins[|bins| - 1], w);
    ShareWhole(r.mm, r.dur);
  }

  function DepthSum(st: seq<Interval>, bins: seq<int>, w: Width := BIN): real {
    if bins == [] then 0.0 else DepthSum(st, bins[..|bins| - 1], w) + Depth(st, bins[|bins| - 1], w)
  }

  lemma {:induction false} DepthSumSplits(st: seq<Interval>, bins: seq<int>, w: Width := BIN)
    requires st != []
    ensures DepthSum(st, bins, w) == DepthSum(st[..|st| - 1], bins, w) + PartSum(st[|st| - 1], bins, w)
  {
    if bins != [] { DepthSumSplits(st, bins[..|bins| - 1], w); }
  }

  lemma {:induction false} DepthSumGiven(st: seq<Interval>, bins: seq<int>, w: Width := BIN)
    requires Increasing(bins) && forall b :: Covers(st, b, w) ==> b in bins
    ensures DepthSum(st, bins, w) == Given(st)
  {
    if st == [] {
      NothingEverywhere(bins, w);
    } else {
      var n := |st| - 1;
      var r := st[n];
      assert r in st && forall x <- st[..n] :: x in st;
      DepthSumGiven(st[..n], bins, w);
      DepthSumSplits(st, bins, w);
      if r.dur > 0 {
        forall b | Hits(r, b, w) ensures b in bins { assert Covers(st, b, w); }
        WholeInterval(r, bins, w);
      } else {
        NoParts(r, bins, w);
      }
    }
  }

  lemma {:induction false} NothingEverywhere(bins: seq<int>, w: Width := BIN)
    ensures DepthSum([], bins, w) == 0.0
  {
    if bins != [] { NothingEverywhere(bins[..|bins| - 1], w); }
  }

  lemma {:induction false} NoParts(r: Interval, bins: seq<int>, w: Width := BIN)
    requires r.dur <= 0
    ensures PartSum(r, bins, w) == 0.0
  {
    if bins != [] { NoParts(r, bins[..|bins| - 1], w); }
  }

  lemma OneStationValue(st: seq<Interval>, b: int, w: Width := BIN)
    requires Covers(st, b, w)
    ensures Value([st], b, w) == Depth(st, b, w)
  {
    assert [st][..0] == [];
    assert Reporting([st][..0], b, w) == 0 && SumDepth([st][..0], b, w) == 0.0;
    assert Reporting([st], b, w) == 1;
    assert SumDepth([st], b, w) == Depth(st, b, w);
  }

  lemma {:induction false} OneStationTotal(st: seq<Interval>, bins: seq<int>, w: Width := BIN)
    requires forall i :: 0 <= i < |bins| ==> Covers(st, bins[i], w)
    ensures Total(Series([st], bins, w)) == DepthSum(st, bins, w)
  {
    hide Depth, Covers;
    if bins != [] {
      var n := |bins| - 1;
      OneStationTotal(st, bins[..n], w);
      assert Series([st], bins, w)[..n] == Series([st], bins[..n], w);
      OneStationValue(st, bins[n], w);
    }
  }

  /** Merging one station keeps its total depth, whatever the alignment or sign of its times. */
  lemma MergeConserves(st: seq<Interval>, w: Width := BIN)
    ensures Total(Merged([st], w)) == Given(st)
  {
    hide Total, Given, Covers;
    var bins := Ascending(CoveredBins([st], w));
    forall i | 0 <= i < |bins| ensures Covers(st, bins[i], w) {
      var b := bins[i];
      assert b in bins;
      assert [st][..0] == [];
    }
    forall b | Covers(st, b, w) ensures b in bins { assert [st][..0] == []; }
    OneStationTotal(st, bins, w);
    DepthSumGiven(st, bins, w);
  }

  /** A bin's merged depth lies between those of the stations that report for it. */
  lemma MeanBetween(stations: seq<seq<Interval>>, b: int, lo: real, hi: real, w: Width := BIN)
    requires Reporting(stations, b, w) > 0
    requires forall i :: 0 <= i < |stations| && Covers(stations[i], b, w) ==> lo <= Depth(stations[i], b, w) <= hi
    ensures lo <= Value(stations, b, w) <= hi
  {
    hide SumDepth, Reporting, Covers, Depth;
    SumBetween(stations, b, lo, hi, w);
    DivBetween(SumDepth(stations, b, w), Reporting(stations, b, w), lo, hi);
  }

  function Times(x: real, k: nat): real { x * k as real }

  lemma TimesNext(x: real, k: nat)
    ensures Times(x, 0) == 0.0 && Times(x, k + 1) == Times(x, k) + x
  {
    assert (k + 1) as real == k as real + 1.0;
  }

  lemma DivBetween(s: real, k: nat, lo: real, hi: real)
    requires k > 0 && Times(lo, k) <= s <= Times(hi, k)
    ensures lo <= s / k as real <= hi
  {
    var r := k as real;
    DivNonNegative(s - lo * r, r);
    DivNonNegative(hi * r - s, r);
    assert (s - lo * r) / r == s / r - lo;
    assert (hi * r - s) / r == hi - s / r;
  }

  lemma DivNonNegative(a: real, r: real)
    requires a >= 0.0 && r > 0.0
    ensures a / r >= 0.0
  {
  }

  lemma {:induction false} SumBetween(stations: seq<seq<Interval>>, b: int, lo: real, hi: real, w: Width := BIN)
    requires forall i :: 0 <= i < |stations| && Covers(stations[i], b, w) ==> lo <= Depth(stations[i], b, w) <= hi
    ensures Times(lo, Reporting(stations, b, w)) <= SumDepth(stations, b, w) <= Times(hi, Reporting(stations, b, w))
  {
    hide Depth, Covers, Times;
    TimesNext(lo, 0);
    TimesNext(hi, 0);
    if stations != [] {
      var n := |stations| - 1;
      SumBetween(stations[..n], b, lo, hi, w);
      TimesNext(lo, Reporting(stations[..n], b, w));
      TimesNext(hi, Reporting(stations[..n], b, w));
    }
  }
}
