/** Rows derived from a gauge node's uplinks against the rain that fell
    (internal/sim/gauge.go with internal/weather/gauge.go). */
module GaugeTruth {
  import opened Common
  import opened GaugeRainfall
  import opened GaugeNode

  /** The uplinks so far: each continues the one before it, and the node knows the last. */
  ghost predicate Chained(tipNM: int, phase: int, rain: seq<nat>, rs: seq<Report>)
    requires tipNM > 0
  {
    forall i :: 0 <= i < |rs| ==> Link(tipNM, phase, rain, rs, i)
  }

  ghost predicate Link(tipNM: int, phase: int, rain: seq<nat>, rs: seq<Report>, i: nat)
    requires tipNM > 0 && i < |rs|
  {
    var r := rs[i];
    && 0 <= r.step < |rain| && r.tips == CounterAt(tipNM, rain, r.step + 1) && (r.reset <==> i == 0)
    && (i == 0 ==> r.step == r.interval == phase)
    && (i > 0 ==> 0 <= rs[i - 1].step < r.step && r.interval == r.step - rs[i - 1].step && Prompt(rs[i - 1].tips, r)
                  && (r.interval > WAKE ==> CounterAt(tipNM, rain, r.step - WAKE + 1) == rs[i - 1].tips))
  }

  ghost predicate Recalls(n: Node, rs: seq<Report>) {
    (n.booted <==> rs != []) && (rs != [] ==> n.lastTxStep == rs[|rs| - 1].step && n.lastTxTips == rs[|rs| - 1].tips)
  }

  lemma LinkGrows(tipNM: int, phase: int, rain: seq<nat>, k: nat, rs: seq<Report>, r: seq<Report>, i: nat)
    requires tipNM > 0 && k <= |rain| && i < |rs| && Link(tipNM, phase, rain[..k], rs, i)
    ensures Link(tipNM, phase, rain, rs + r, i)
  {
    TipsPrefix(tipNM, rain, k, rs[i].step + 1);
    if i > 0 && rs[i].interval > WAKE { TipsPrefix(tipNM, rain, k, rs[i].step - WAKE + 1); }
    hide CounterAt;
  }

  lemma NewLink(tipNM: int, phase: int, rain: seq<nat>, n: Node, rs: seq<Report>, r: Report)
    requires tipNM > 0 && rain != [] && Recalls(n, rs) && Truthful(tipNM, phase, rain, n, r)
             && (!n.booted ==> n.lastTxStep == 0)
    ensures Link(tipNM, phase, rain, rs + [r], |rs|)
  {
    hide CounterAt;
  }

  lemma StepRecalls(tipNM: int, n: Node, step: int, fallen: nat, rs: seq<Report>)
    requires tipNM > 0 && Recalls(n, rs)
    ensures var (n', s) := StepNode(n, tipNM, step, fallen);
            Recalls(n', rs + (if s.Sent? then [s.report] else []))
  {
    FillSame(n, tipNM, fallen);
    hide Fill;
    assert rs + [] == rs;
  }

  /** Every run of the node: it counts the rain and its uplinks chain up. */
  lemma {:induction false} RunChains(tipNM: int, phase: int, rain: seq<nat>)
    requires tipNM > 0 && 0 < phase < WAKE
    ensures Knows(tipNM, phase, rain, Run(tipNM, phase, rain))
    ensures Chained(tipNM, phase, rain, Reports(tipNM, phase, rain))
            && Recalls(Run(tipNM, phase, rain), Reports(tipNM, phase, rain))
    decreases |rain|
  {
    if rain != [] {
      var k := |rain| - 1;
      var before := rain[..k];
      hide Knows, Chained, Recalls, StepNode;
      RunChains(tipNM, phase, before);
      assert before + [rain[k]] == rain;
      ChainOn(tipNM, phase, before, rain[k], Run(tipNM, phase, before), Reports(tipNM, phase, before));
    } else {
      NothingYet(tipNM, phase);
    }
  }

  lemma NothingYet(tipNM: int, phase: int)
    requires tipNM > 0 && 0 < phase
    ensures Knows(tipNM, phase, [], Booting(phase)) && Chained(tipNM, phase, [], []) && Recalls(Booting(phase), [])
  {
  }

  lemma ChainOn(tipNM: int, phase: int, before: seq<nat>, fallen: nat, n: Node, rs: seq<Report>)
    requires tipNM > 0 && 0 < phase < WAKE
    requires Knows(tipNM, phase, before, n) && Chained(tipNM, phase, before, rs) && Recalls(n, rs)
    ensures var rain := before + [fallen];
            var (n', s) := StepNode(n, tipNM, |before|, fallen);
            var rs' := rs + (if s.Sent? then [s.report] else []);
            Knows(tipNM, phase, rain, n') && Chained(tipNM, phase, rain, rs') && Recalls(n', rs')
  {
    assert !n.booted ==> n.lastTxStep == 0;
    hide Link, Knows, Truthful, StepNode, Recalls;
    var rain, k := before + [fallen], |before|;
    StepKnows(tipNM, phase, before, fallen, n);
    StepRecalls(tipNM, n, k, fallen, rs);
    var s := StepNode(n, tipNM, k, fallen).1;
    var new_ := if s.Sent? then [s.report] else [];
    assert rain[..k] == before;
    forall i | 0 <= i < |rs + new_| ensures Link(tipNM, phase, rain, rs + new_, i) {
      if i < |rs| {
        LinkGrows(tipNM, phase, rain, k, rs, new_, i);
      } else {
        NewLink(tipNM, phase, rain, n, rs, s.report);
      }
    }
  }

  // ----- what the rows say ------------------------------------------------------------------------------------

  function ToUplink(boot: int, mmPerTip: real, r: Report, fCnt: int): Uplink {
    Uplink(boot + r.step * SECOND, fCnt, r.tips, mmPerTip, r.interval, r.reset, false)
  }

  function Uplinks(boot: int, mmPerTip: real, rs: seq<Report>): seq<Uplink> {
    if rs == [] then [] else
    Uplinks(boot, mmPerTip, rs[..|rs| - 1]) + [ToUplink(boot, mmPerTip, rs[|rs| - 1], |rs| - 1)]
  }

  lemma {:induction false} UplinksAt(boot: int, mmPerTip: real, rs: seq<Report>)
    ensures |Uplinks(boot, mmPerTip, rs)| == |rs|
    ensures forall i :: 0 <= i < |rs| ==> Uplinks(boot, mmPerTip, rs)[i] == ToUplink(boot, mmPerTip, rs[i], i)
  {
    if rs != [] { UplinksAt(boot, mmPerTip, rs[..|rs| - 1]); }
  }

  /** The depth of a number of tips. */
  function Depths(tips: int, mmPerTip: real): real { tips as real * mmPerTip }

  lemma DepthsAdd(a: int, b: int, mmPerTip: real)
    ensures Depths(b, mmPerTip) + Depths(a - b, mmPerTip) == Depths(a, mmPerTip)
  {
    assert (a - b) as real == a as real - b as real;
  }

  lemma DepthsPlain(a: int, b: int, mmPerTip: real)
    ensures Depths(0, mmPerTip) == 0.0
    ensures Depths(a, mmPerTip) == Depths(b, mmPerTip) <==> a == b || mmPerTip == 0.0
  {
    if Depths(a, mmPerTip) == Depths(b, mmPerTip) {
      assert (a as real - b as real) * mmPerTip == 0.0;
      assert a as real == b as real || mmPerTip == 0.0;
    }
  }

  /** The tips a derivation sees between two counters: a counter that fell restarts at zero. */
  function Counts(p: int, u: int): int { if u < p then u else u - p }

  /** Of a true count, the counters show too little once the counter has wrapped between them. */
  lemma CountsExactly(t: nat, t': nat)
    requires t <= t'
    ensures var d := Counts(t % WRAP, t' % WRAP);
            && 0 <= d <= t' - t && (t' < WRAP ==> d == t' - t) && (t < WRAP <= t' ==> d < t' - t)
  {
  }

  /** Tips counted up to and including second `a`, none at boot. */
  function SoFar(tipNM: int, rain: seq<nat>, a: nat): nat
    requires tipNM > 0 && a < |rain|
  {
    if a == 0 then 0 else TipsAt(tipNM, rain, a + 1)
  }

  lemma NoneAtBoot(tipNM: int, rain: seq<nat>)
    requires tipNM > 0 && rain != []
    ensures SoFar(tipNM, rain, 0) == 0
  {
  }

  /** The row's depth is that of exactly the tips counted in its interval. */
  ghost predicate Exact(boot: int, mmPerTip: real, tipNM: int, rain: seq<nat>, r: Row)
    requires tipNM > 0
  {
    exists a: nat :: ExactFrom(boot, mmPerTip, tipNM, rain, r, a)
  }

  ghost predicate ExactFrom(boot: int, mmPerTip: real, tipNM: int, rain: seq<nat>, r: Row, a: nat)
    requires tipNM > 0
  {
    && r.intervalS > 0 && a + r.intervalS < |rain| && r.start == boot + a * SECOND
    && r.mm == Depths(SoFar(tipNM, rain, a + r.intervalS) - SoFar(tipNM, rain, a), mmPerTip)
  }

  lemma ExactMeans(boot: int, mmPerTip: real, tipNM: int, rain: seq<nat>, r: Row, a: nat)
    requires tipNM > 0 && r.intervalS > 0 && a + r.intervalS < |rain| && r.start == boot + a * SECOND
    ensures Exact(boot, mmPerTip, tipNM, rain, r) <==>
            r.mm == Depths(SoFar(tipNM, rain, a + r.intervalS) - SoFar(tipNM, rain, a), mmPerTip)
  {
    hide SoFar, Depths;
    assert Exact(boot, mmPerTip, tipNM, rain, r) <==> ExactFrom(boot, mmPerTip, tipNM, rain, r, a);
  }

  // ----- the rows between two reports -------------------------------------------------------------------------------

  /** The rows of the seconds from `a` to `b`: `d` late tips are placed in the last wake period. */
  function Between(boot: int, mmPerTip: real, a: int, b: int, d: int): seq<Row> {
    if d > 0 && b - a > WAKE then
      [Row(boot + a * SECOND, b - a - WAKE, 0.0), Row(boot + (b - WAKE) * SECOND, WAKE, Depths(d, mmPerTip))]
    else
      [Row(boot + a * SECOND, b - a, Depths(d, mmPerTip))]
  }

  /** When the i-th report's interval begins, what the counter was then, and the rows derived from the report. */
  function Since(rs: seq<Report>, i: nat): int
    requires i < |rs|
  {
    if i == 0 then 0 else rs[i - 1].step
  }

  function CountSince(rs: seq<Report>, i: nat): int
    requires i < |rs|
  {
    Counts(if i == 0 then 0 else rs[i - 1].tips, rs[i].tips)
  }

  function RowsAt(boot: int, mmPerTip: real, rs: seq<Report>, i: nat): seq<Row>
    requires i < |rs|
  {
    Between(boot, mmPerTip, Since(rs, i), rs[i].step, CountSince(rs, i))
  }

  lemma DeriveLink(boot: int, mmPerTip: real, tipNM: int, phase: int, rain: seq<nat>, rs: seq<Report>, i: nat)
    requires tipNM > 0 && 0 < phase < WAKE && |rain| < MAX_INT32 && i < |rs| && Link(tipNM, phase, rain, rs, i)
    ensures var p := if i == 0 then None else Some(ToUplink(boot, mmPerTip, rs[i - 1], i - 1));
            DeriveOne(p, ToUplink(boot, mmPerTip, rs[i], i)) == RowsAt(boot, mmPerTip, rs, i)
  {
    hide CounterAt;
    if i == 0 { FirstRows(boot, mmPerTip, rs[0]); } else { NextRows(boot, mmPerTip, rs[i - 1], i - 1, rs[i], i); }
  }

  lemma FirstRows(boot: int, mmPerTip: real, u: Report)
    requires 0 < u.step == u.interval < WAKE && u.reset && u.tips >= 0
    ensures DeriveOne(None, ToUplink(boot, mmPerTip, u, 0)) == Between(boot, mmPerTip, 0, u.step, u.tips)
  {
    assert (u.step * SECOND) / SECOND == u.step;
    var rows := DeriveOne(None, ToUplink(boot, mmPerTip, u, 0));
    assert |rows| == 1 && rows[0].start == boot && rows[0].intervalS == u.step
           && rows[0].mm == Depths(u.tips, mmPerTip);
  }

  lemma NextRows(boot: int, mmPerTip: real, p: Report, pCnt: int, u: Report, uCnt: int)
    requires 0 <= p.step < u.step < MAX_INT32 && u.interval == u.step - p.step && !u.reset
    ensures DeriveOne(Some(ToUplink(boot, mmPerTip, p, pCnt)), ToUplink(boot, mmPerTip, u, uCnt)) ==
            Between(boot, mmPerTip, p.step, u.step, Counts(p.tips, u.tips))
  {
    var total := (u.step - p.step) * SECOND;
    assert total / SECOND == u.step - p.step;
    assert (total - TIP_WINDOW) / SECOND == u.step - p.step - WAKE;
    var d := Counts(p.tips, u.tips);
    var rows := DeriveOne(Some(ToUplink(boot, mmPerTip, p, pCnt)), ToUplink(boot, mmPerTip, u, uCnt));
    assert rows[0].start == boot + p.step * SECOND;
    if d > 0 && u.step - p.step > WAKE {
      assert |rows| == 2 && rows[0].mm == 0.0 && rows[1].mm == Depths(d, mmPerTip);
      assert rows[1].start == boot + (u.step - WAKE) * SECOND;
    } else {
      assert |rows| == 1 && rows[0].mm == Depths(d, mmPerTip);
    }
  }

  lemma {:induction false} DeriveLinks(boot: int, mmPerTip: real, tipNM: int, phase: int, rain: seq<nat>,
                                       rs: seq<Report>, n: nat)
    requires tipNM > 0 && 0 < phase < WAKE && |rain| < MAX_INT32 && n <= |rs| && Chained(tipNM, phase, rain, rs)
    requires |Uplinks(boot, mmPerTip, rs)| == |rs|
    requires forall i :: 0 <= i < |rs| ==> Uplinks(boot, mmPerTip, rs)[i] == ToUplink(boot, mmPerTip, rs[i], i)
    ensures Derive(None, Uplinks(boot, mmPerTip, rs)[..n]) == AllRows(boot, mmPerTip, rs, n)
  {
    hide DeriveOne, Link, RowsAt, ToUplink, Uplinks;
    if n > 0 {
      var ups := Uplinks(boot, mmPerTip, rs);
      assert ups[..n][..n - 1] == ups[..n - 1];
      DeriveLinks(boot, mmPerTip, tipNM, phase, rain, rs, n - 1);
      assert Link(tipNM, phase, rain, rs, n - 1);
      DeriveLink(boot, mmPerTip, tipNM, phase, rain, rs, n - 1);
    }
  }

  function AllRows(boot: int, mmPerTip: real, rs: seq<Report>, n: nat): seq<Row>
    requires n <= |rs|
  {
    if n == 0 then [] else AllRows(boot, mmPerTip, rs, n - 1) + RowsAt(boot, mmPerTip, rs, n - 1)
  }

  /** The true count at a report. */
  function TrueAt(tipNM: int, rain: seq<nat>, rs: seq<Report>, i: nat): nat
    requires tipNM > 0 && i < |rs| && 0 <= rs[i].step < |rain|
  {
    TipsAt(tipNM, rain, rs[i].step + 1)
  }

  /** While the counter has not wrapped, or if a tip has no depth, the rows of a report are exact. */
  lemma LinkExact(boot: int, mmPerTip: real, tipNM: int, phase: int, rain: seq<nat>, rs: seq<Report>, i: nat, r: Row)
    requires tipNM > 0 && 0 < phase < WAKE && i < |rs| && Chained(tipNM, phase, rain, rs)
    requires Link(tipNM, phase, rain, rs, i) && (TrueAt(tipNM, rain, rs, i) < WRAP || mmPerTip == 0.0)
    requires r in RowsAt(boot, mmPerTip, rs, i)
    ensures Exact(boot, mmPerTip, tipNM, rain, r)
  {
    var a, b, d := Since(rs, i), rs[i].step, CountSince(rs, i);
    LinkCounts(tipNM, phase, rain, rs, i);
    if b - a > WAKE { LateTips(tipNM, phase, rain, rs, i); }
    hide Exact, SoFar, Depths, TrueAt, Chained, Link, CountSince, Since;
    var k := if r.start == boot + a * SECOND then a else b - WAKE;
    ExactMeans(boot, mmPerTip, tipNM, rain, r, k);
    DepthsPlain(d, SoFar(tipNM, rain, k + r.intervalS) - SoFar(tipNM, rain, k), mmPerTip);
    DepthsPlain(0, SoFar(tipNM, rain, k + r.intervalS) - SoFar(tipNM, rain, k), mmPerTip);
  }

  /** The counters of a report against the true counts. */
  lemma LinkCounts(tipNM: int, phase: int, rain: seq<nat>, rs: seq<Report>, i: nat)
    requires tipNM > 0 && 0 < phase < WAKE && i < |rs| && Chained(tipNM, phase, rain, rs)
    ensures Link(tipNM, phase, rain, rs, i) && (i > 0 ==> Link(tipNM, phase, rain, rs, i - 1))
    ensures 0 <= Since(rs, i) < rs[i].step < |rain| && (i > 0 ==> 0 <= rs[i - 1].step < |rain|)
    ensures var d, p, u := CountSince(rs, i), SoFar(tipNM, rain, Since(rs, i)), SoFar(tipNM, rain, rs[i].step);
            && u == TrueAt(tipNM, rain, rs, i) && (i > 0 ==> p == TrueAt(tipNM, rain, rs, i - 1))
            && p <= u && 0 <= d <= u - p && (u < WRAP ==> d == u - p) && (p < WRAP <= u ==> d < u - p)
  {
    LinkPlaces(tipNM, phase, rain, rs, i);
    TipsGrow(tipNM, rain, Since(rs, i) + 1, rs[i].step + 1);
    hide TipsAt, Chained, Counts;
    CountsExactly(SoFar(tipNM, rain, Since(rs, i)), SoFar(tipNM, rain, rs[i].step));
  }

  lemma LinkPlaces(tipNM: int, phase: int, rain: seq<nat>, rs: seq<Report>, i: nat)
    requires tipNM > 0 && 0 < phase < WAKE && i < |rs| && Chained(tipNM, phase, rain, rs)
    ensures Link(tipNM, phase, rain, rs, i) && (i > 0 ==> Link(tipNM, phase, rain, rs, i - 1) && rs[i - 1].step > 0)
    ensures 0 <= Since(rs, i) < rs[i].step < |rain|
  {
    assert Link(tipNM, phase, rain, rs, i);
    hide CounterAt, Chained;
    if i > 0 {
      assert Link(tipNM, phase, rain, rs, i - 1) by { InChain(tipNM, phase, rain, rs, i - 1); }
      FirstLater(tipNM, phase, rain, rs, i - 1);
    }
  }

  lemma InChain(tipNM: int, phase: int, rain: seq<nat>, rs: seq<Report>, i: nat)
    requires tipNM > 0 && i < |rs| && Chained(tipNM, phase, rain, rs)
    ensures Link(tipNM, phase, rain, rs, i)
  {
    hide Link;
  }

  /** A long interval's tips all fall into its last wake period while the counter has not wrapped. */
  lemma LateTips(tipNM: int, phase: int, rain: seq<nat>, rs: seq<Report>, i: nat)
    requires tipNM > 0 && 0 < phase < WAKE && i < |rs| && Chained(tipNM, phase, rain, rs)
    requires rs[i].step - Since(rs, i) > WAKE
    ensures 0 <= Since(rs, i) < rs[i].step - WAKE < rs[i].step < |rain|
    ensures SoFar(tipNM, rain, rs[i].step) < WRAP ==>
              SoFar(tipNM, rain, rs[i].step - WAKE) == SoFar(tipNM, rain, Since(rs, i))
  {
    LinkPlaces(tipNM, phase, rain, rs, i);
    LinkWake(tipNM, phase, rain, rs, i);
    hide Link, Chained, CounterAt, TipsAt;
    var a, b := rs[i - 1].step, rs[i].step;
    TipsGrow(tipNM, rain, a + 1, b - WAKE + 1);
    TipsGrow(tipNM, rain, b - WAKE + 1, b + 1);
    SameCount(tipNM, rain, a + 1, b - WAKE + 1);
  }

  lemma LinkWake(tipNM: int, phase: int, rain: seq<nat>, rs: seq<Report>, i: nat)
    requires tipNM > 0 && 0 < phase < WAKE && i < |rs| && Link(tipNM, phase, rain, rs, i)
             && rs[i].step - Since(rs, i) > WAKE
    requires i > 0 ==> Link(tipNM, phase, rain, rs, i - 1)
    ensures i > 0 && 0 <= rs[i - 1].step < rs[i].step - WAKE < |rain|
    ensures CounterAt(tipNM, rain, rs[i - 1].step + 1) == CounterAt(tipNM, rain, rs[i].step - WAKE + 1)
  {
    hide CounterAt;
  }

  lemma SameCount(tipNM: int, rain: seq<nat>, j: nat, k: nat)
    requires tipNM > 0 && j <= |rain| && k <= |rain| && CounterAt(tipNM, rain, j) == CounterAt(tipNM, rain, k)
    ensures TipsAt(tipNM, rain, j) < WRAP && TipsAt(tipNM, rain, k) < WRAP ==>
              TipsAt(tipNM, rain, j) == TipsAt(tipNM, rain, k)
  {
    hide TipsAt;
  }

  /** No report but the first begins at boot. */
  lemma FirstLater(tipNM: int, phase: int, rain: seq<nat>, rs: seq<Report>, i: nat)
    requires tipNM > 0 && 0 < phase && i < |rs| && Chained(tipNM, phase, rain, rs)
    ensures rs[i].step >= phase
  {
    hide CounterAt;
    assert Link(tipNM, phase, rain, rs, i);
    if i > 0 { FirstLater(tipNM, phase, rain, rs, i - 1); }
  }

  /** Exact rows of a report add up to its true tips. */
  lemma ExactSum(boot: int, mmPerTip: real, tipNM: int, phase: int, rain: seq<nat>, rs: seq<Report>, i: nat)
    requires tipNM > 0 && 0 < phase < WAKE && i < |rs| && Chained(tipNM, phase, rain, rs)
    requires forall r <- RowsAt(boot, mmPerTip, rs, i) :: Exact(boot, mmPerTip, tipNM, rain, r)
    ensures 0 <= Since(rs, i) < rs[i].step < |rain|
    ensures Depth(RowsAt(boot, mmPerTip, rs, i)) ==
            Depths(SoFar(tipNM, rain, rs[i].step) - SoFar(tipNM, rain, Since(rs, i)), mmPerTip)
  {
    hide Exact, SoFar, Depths, Chained, Depth, Link, CountSince, Since, Between;
    LinkPlaces(tipNM, phase, rain, rs, i);
    BetweenSum(boot, mmPerTip, tipNM, rain, Since(rs, i), rs[i].step, CountSince(rs, i));
  }

  lemma BetweenSum(boot: int, mmPerTip: real, tipNM: int, rain: seq<nat>, a: nat, b: nat, d: int)
    requires tipNM > 0 && a < b < |rain|
    requires forall r <- Between(boot, mmPerTip, a, b, d) :: Exact(boot, mmPerTip, tipNM, rain, r)
    ensures Depth(Between(boot, mmPerTip, a, b, d)) == Depths(SoFar(tipNM, rain, b) - SoFar(tipNM, rain, a), mmPerTip)
  {
    hide Exact, SoFar, Depths, Depth;
    var rows := Between(boot, mmPerTip, a, b, d);
    assert rows[0] in rows;
    ExactMeans(boot, mmPerTip, tipNM, rain, rows[0], a);
    DepthOne(rows[0]);
    if |rows| == 2 {
      assert rows[1] in rows;
      ExactMeans(boot, mmPerTip, tipNM, rain, rows[1], b - WAKE);
      assert rows == [rows[0]] + [rows[1]];
      DepthJoin([rows[0]], [rows[1]]);
      DepthOne(rows[1]);
      var t := SoFar(tipNM, rain, b - WAKE);
      DepthsAdd(SoFar(tipNM, rain, b) - SoFar(tipNM, rain, a), t - SoFar(tipNM, rain, a), mmPerTip);
    } else {
      assert rows == [rows[0]];
    }
  }

  lemma {:induction false} ExactTotal(boot: int, mmPerTip: real, tipNM: int, phase: int, rain: seq<nat>,
                                      rs: seq<Report>, n: nat)
    requires tipNM > 0 && 0 < phase < WAKE && 0 < n <= |rs| && Chained(tipNM, phase, rain, rs)
    requires forall r <- AllRows(boot, mmPerTip, rs, n) :: Exact(boot, mmPerTip, tipNM, rain, r)
    ensures Link(tipNM, phase, rain, rs, n - 1)
    ensures Depth(AllRows(boot, mmPerTip, rs, n)) == Depths(TrueAt(tipNM, rain, rs, n - 1), mmPerTip)
  {
    hide Exact, RowsAt, Depths, Depth, Chained, Link, SoFar, TrueAt, Counts;
    LinkCounts(tipNM, phase, rain, rs, n - 1);
    var before, rows := AllRows(boot, mmPerTip, rs, n - 1), RowsAt(boot, mmPerTip, rs, n - 1);
    ExactSum(boot, mmPerTip, tipNM, phase, rain, rs, n - 1);
    DepthJoin(before, rows);
    DepthsAdd(TrueAt(tipNM, rain, rs, n - 1), SoFar(tipNM, rain, Since(rs, n - 1)), mmPerTip);
    if n == 1 {
      EmptyDepth();
      NoneAtBoot(tipNM, rain);
      DepthsPlain(0, 0, mmPerTip);
    } else {
      ExactTotal(boot, mmPerTip, tipNM, phase, rain, rs, n - 1);
    }
  }

  lemma {:induction false} TrueGrows(tipNM: int, phase: int, rain: seq<nat>, rs: seq<Report>, i: nat, j: nat)
    requires tipNM > 0 && 0 < phase < WAKE && i <= j < |rs| && Chained(tipNM, phase, rain, rs)
    ensures Link(tipNM, phase, rain, rs, i) && Link(tipNM, phase, rain, rs, j) && rs[i].step <= rs[j].step
    ensures TrueAt(tipNM, rain, rs, i) <= TrueAt(tipNM, rain, rs, j)
    ensures i < j ==> rs[i].step < rs[j].step
  {
    LinkCounts(tipNM, phase, rain, rs, j);
    hide TrueAt, SoFar, Chained, CountSince;
    if i < j { TrueGrows(tipNM, phase, rain, rs, i, j - 1); }
  }

  /** When no uplink is lost, every derived row holds exactly the tips the gauge counted in its interval, so that
      placing late tips in the last wake period is right: if and only if the counter has not wrapped by then. */
  lemma RowsExact(boot: int, mmPerTip: real, tipNM: int, phase: int, rain: seq<nat>)
    requires tipNM > 0 && 0 < phase < WAKE && |rain| < MAX_INT32
    ensures var rs := Reports(tipNM, phase, rain);
            && (rs != [] ==> 0 <= rs[|rs| - 1].step < |rain|)
            && ((forall r <- Derive(None, Uplinks(boot, mmPerTip, rs)) :: Exact(boot, mmPerTip, tipNM, rain, r)) <==>
                rs == [] || TrueAt(tipNM, rain, rs, |rs| - 1) < WRAP || mmPerTip == 0.0)
  {
    hide TrueAt, Exact, Run, Reports, Depth, RowsAt, Link, Depths;
    var rs := Reports(tipNM, phase, rain);
    RunChains(tipNM, phase, rain);
    RowsAre(boot, mmPerTip, tipNM, phase, rain, rs);
    if rs != [] {
      var n := |rs|;
      TrueGrows(tipNM, phase, rain, rs, n - 1, n - 1);
      StepInside(tipNM, phase, rain, rs, n - 1);
      if TrueAt(tipNM, rain, rs, n - 1) < WRAP || mmPerTip == 0.0 {
        AllExact(boot, mmPerTip, tipNM, phase, rain, rs, n);
      }
      if forall r <- AllRows(boot, mmPerTip, rs, n) :: Exact(boot, mmPerTip, tipNM, rain, r) {
        ExactTotal(boot, mmPerTip, tipNM, phase, rain, rs, n);
        UplinksAt(boot, mmPerTip, rs);
        PickedAll(Uplinks(boot, mmPerTip, rs));
        DepthExactly(boot, mmPerTip, tipNM, phase, rain, rs, Everything(n));
      }
    }
  }

  lemma RowsAre(boot: int, mmPerTip: real, tipNM: int, phase: int, rain: seq<nat>, rs: seq<Report>)
    requires tipNM > 0 && 0 < phase < WAKE && |rain| < MAX_INT32 && Chained(tipNM, phase, rain, rs)
    ensures Derive(None, Uplinks(boot, mmPerTip, rs)) == AllRows(boot, mmPerTip, rs, |rs|)
  {
    hide Chained, Uplinks, ToUplink, AllRows, Derive;
    UplinksAt(boot, mmPerTip, rs);
    DeriveLinks(boot, mmPerTip, tipNM, phase, rain, rs, |rs|);
    var ups := Uplinks(boot, mmPerTip, rs);
    assert ups[..|rs|] == ups;
  }

  lemma StepInside(tipNM: int, phase: int, rain: seq<nat>, rs: seq<Report>, i: nat)
    requires tipNM > 0 && i < |rs| && Link(tipNM, phase, rain, rs, i)
    ensures 0 <= rs[i].step < |rain| && rs[i].interval >= 0
  {
  }

  lemma {:induction false} AllExact(boot: int, mmPerTip: real, tipNM: int, phase: int, rain: seq<nat>,
                                    rs: seq<Report>, n: nat)
    requires tipNM > 0 && 0 < phase < WAKE && 0 < n <= |rs| && Chained(tipNM, phase, rain, rs)
    requires Link(tipNM, phase, rain, rs, n - 1) && (TrueAt(tipNM, rain, rs, n - 1) < WRAP || mmPerTip == 0.0)
    ensures forall r <- AllRows(boot, mmPerTip, rs, n) :: Exact(boot, mmPerTip, tipNM, rain, r)
  {
    hide TrueAt, Exact, RowsAt, Depths, Chained;
    forall r <- RowsAt(boot, mmPerTip, rs, n - 1) ensures Exact(boot, mmPerTip, tipNM, rain, r) {
      LinkExact(boot, mmPerTip, tipNM, phase, rain, rs, n - 1, r);
    }
    if n > 1 {
      TrueGrows(tipNM, phase, rain, rs, n - 2, n - 1);
      AllExact(boot, mmPerTip, tipNM, phase, rain, rs, n - 1);
    }
  }

  // ----- lost uplinks lose no rain ----------------------------------------------------------------------------

  function Depth(rows: seq<Row>): real { if rows == [] then 0.0 else Depth(rows[..|rows| - 1]) + rows[|rows| - 1].mm }

  lemma {:induction false} DepthJoin(a: seq<Row>, b: seq<Row>)
    ensures Depth(a + b) == Depth(a) + Depth(b)
  {
    if b == [] {
      assert a + b == a;
    } else {
      var n := |b| - 1;
      DepthJoin(a, b[..n]);
      assert (a + b)[..|a| + n] == a + b[..n];
    }
  }

  /** One boot first, then uplinks at least a second apart, no fault, one bucket size. */
  ghost predicate Steady(mmPerTip: real, ups: seq<Uplink>) {
    && ups != [] && ups[0].counterReset
    && (forall i :: 0 <= i < |ups| ==> SteadyOne(mmPerTip, ups[i]) && (i > 0 ==> !ups[i].counterReset))
    && (forall i, j :: 0 <= i < j < |ups| ==> ups[i].at + SECOND <= ups[j].at)
  }

  predicate SteadyOne(mmPerTip: real, u: Uplink) { u.mmPerTip == mmPerTip && !u.sensorFault && u.intervalS >= 1 }

  /** The counter never falls. */
  ghost predicate NeverFalls(ups: seq<Uplink>) {
    forall i, j :: 0 <= i < j < |ups| ==> 0 <= ups[i].tipCount <= ups[j].tipCount
  }

  function Before(ups: seq<Uplink>, i: nat): int
    requires i < |ups|
  {
    if i == 0 then 0 else ups[i - 1].tipCount
  }

  /** The tips a derivation sees in all. */
  function Told(ups: seq<Uplink>): int {
    if ups == [] then 0 else
    var n := |ups| - 1;
    Told(ups[..n]) + Counts(Before(ups, n), ups[n].tipCount)
  }

  lemma OneDepth(p: Option<Uplink>, u: Uplink)
    requires SteadyOne(u.mmPerTip, u)
    requires if p.None? then u.counterReset && u.tipCount >= 0 else !u.counterReset && p.value.at + SECOND <= u.at
    ensures var before := if p.None? then 0 else p.value.tipCount;
            Depth(DeriveOne(p, u)) == Depths(Counts(before, u.tipCount), u.mmPerTip)
  {
    var rows := DeriveOne(p, u);
    var mm := Depths(Counts(if p.None? then 0 else p.value.tipCount, u.tipCount), u.mmPerTip);
    if |rows| == 2 {
      assert rows == [rows[0]] + [rows[1]] && rows[0].mm == 0.0 && rows[1].mm == mm;
      DepthJoin([rows[0]], [rows[1]]);
      DepthOne(rows[0]);
      DepthOne(rows[1]);
    } else {
      assert rows == [rows[0]] && rows[0].mm == mm;
      DepthOne(rows[0]);
    }
  }

  lemma DepthOne(r: Row)
    ensures Depth([r]) == r.mm
  {
    assert Depth([r]) == Depth([]) + r.mm;
  }

  lemma SteadyLast(mmPerTip: real, ups: seq<Uplink>)
    requires Steady(mmPerTip, ups) && ups[0].tipCount >= 0
    ensures ups != []
    ensures var n := |ups| - 1;
            && (n > 0 ==> Steady(mmPerTip, ups[..n]))
            && Depth(DeriveOne(Pred(None, ups, n), ups[n])) == Depths(Counts(Before(ups, n), ups[n].tipCount), mmPerTip)
  {
    hide DeriveOne, Depth, Depths, Counts;
    OneDepth(Pred(None, ups, |ups| - 1), ups[|ups| - 1]);
  }

  /** The derived rows add up to the tips seen. */
  lemma {:induction false} SteadyDepth(mmPerTip: real, ups: seq<Uplink>)
    requires Steady(mmPerTip, ups) && ups[0].tipCount >= 0
    ensures Depth(Derive(None, ups)) == Depths(Told(ups), mmPerTip)
  {
    hide *;
    SteadyLast(mmPerTip, ups);
    DepthLast(mmPerTip, ups);
    var n := |ups| - 1;
    if n > 0 { SteadyDepth(mmPerTip, ups[..n]); } else { NoDepth(mmPerTip, ups); }
    DepthsAdd(Told(ups), Told(ups[..n]), mmPerTip);
  }

  lemma DepthLast(mmPerTip: real, ups: seq<Uplink>)
    requires ups != []
    ensures var n := |ups| - 1;
            && Depth(Derive(None, ups)) == Depth(Derive(None, ups[..n])) + Depth(DeriveOne(Pred(None, ups, n), ups[n]))
            && Told(ups) - Told(ups[..n]) == Counts(Before(ups, n), ups[n].tipCount)
  {
    hide DeriveOne, Depth, Counts, Before, Pred;
    var n := |ups| - 1;
    DepthJoin(Derive(None, ups[..n]), DeriveOne(Pred(None, ups, n), ups[n]));
  }

  lemma NoDepth(mmPerTip: real, ups: seq<Uplink>)
    requires |ups| == 1
    ensures Depth(Derive(None, ups[..0])) == Depths(Told(ups[..0]), mmPerTip)
  {
    assert ups[..0] == [];
    hide DeriveOne, Counts;
  }

  lemma EmptyDepth()
    ensures Depth([]) == 0.0
  {
  }

  /** Some reports, the first and the last among them. */
  ghost predicate KeepsEnds(keep: seq<nat>, n: nat) {
    Rising(keep, n) && keep != [] && keep[0] == 0 && keep[|keep| - 1] == n - 1
  }

  function Everything(n: nat): seq<nat> { seq(n, i => i) }

  function Picked(ups: seq<Uplink>, keep: seq<nat>): seq<Uplink>
    requires forall i :: 0 <= i < |keep| ==> keep[i] < |ups|
  {
    seq(|keep|, i requires 0 <= i < |keep| => ups[keep[i]])
  }

  lemma PickedAll(ups: seq<Uplink>)
    requires ups != []
    ensures KeepsEnds(Everything(|ups|), |ups|) && Picked(ups, Everything(|ups|)) == ups
  {
  }

  /** With a counter that never falls, losing any uplinks but the first and last changes where rain is placed, not how
      much there is. */
  lemma LossConserves(mmPerTip: real, ups: seq<Uplink>, keep: seq<nat>)
    requires Steady(mmPerTip, ups) && NeverFalls(ups) && ups[0].tipCount >= 0 && KeepsEnds(keep, |ups|)
    ensures Depth(Derive(None, Picked(ups, keep))) == Depth(Derive(None, ups)) ==
              Depths(ups[|ups| - 1].tipCount, mmPerTip)
  {
    hide Depth, Derive, Depths, Told, Steady, NeverFalls;
    var s := Picked(ups, keep);
    PickedSteady(mmPerTip, ups, keep);
    PickedRising(ups, keep);
    SteadyDepth(mmPerTip, s);
    SteadyDepth(mmPerTip, ups);
    ToldRising(s);
    ToldRising(ups);
  }

  lemma PickedRising(ups: seq<Uplink>, keep: seq<nat>)
    requires NeverFalls(ups) && KeepsEnds(keep, |ups|)
    ensures NeverFalls(Picked(ups, keep)) && Picked(ups, keep) != []
    ensures Picked(ups, keep)[|keep| - 1] == ups[|ups| - 1]
  {
    var s := Picked(ups, keep);
    assert forall i :: 0 <= i < |s| ==> s[i] == ups[keep[i]];
    forall i, j | 0 <= i < j < |s| ensures 0 <= s[i].tipCount <= s[j].tipCount {
      assert keep[i] < keep[j];
      assert s[i] == ups[keep[i]] && s[j] == ups[keep[j]];
    }
  }

  lemma {:induction false} ToldRising(ups: seq<Uplink>)
    requires NeverFalls(ups) && ups != [] && ups[0].tipCount >= 0
    ensures Told(ups) == ups[|ups| - 1].tipCount
  {
    if |ups| > 1 { ToldRising(ups[..|ups| - 1]); }
  }

  lemma PickedSteady(mmPerTip: real, ups: seq<Uplink>, keep: seq<nat>)
    requires Steady(mmPerTip, ups) && Rising(keep, |ups|) && keep != [] && keep[0] == 0
    ensures Steady(mmPerTip, Picked(ups, keep)) && Picked(ups, keep)[0] == ups[0]
  {
    hide SteadyOne;
    var s := Picked(ups, keep);
    forall i | 0 <= i < |s| ensures SteadyOne(mmPerTip, s[i]) && (i > 0 ==> !s[i].counterReset) {
      assert s[i] == ups[keep[i]];
      if i > 0 { assert keep[0] < keep[i]; }
    }
    forall i, j | 0 <= i < j < |s| ensures s[i].at + SECOND <= s[j].at {
      assert keep[i] < keep[j] && s[i] == ups[keep[i]] && s[j] == ups[keep[j]];
    }
  }

  // ----- a wrapped counter ------------------------------------------------------------------------------------------

  /** Counters that show true counts up to their wrap-around. */
  ghost predicate Shows(ts: seq<nat>, ups: seq<Uplink>) {
    && |ts| == |ups| && (forall i :: 0 <= i < |ts| ==> ups[i].tipCount == ts[i] % WRAP)
    && (forall i, j :: 0 <= i < j < |ts| ==> ts[i] <= ts[j])
  }

  /** What is seen of a true count is never too much, and too little exactly if the counter has wrapped. */
  lemma {:induction false} ToldExactly(ts: seq<nat>, ups: seq<Uplink>)
    requires Shows(ts, ups) && ups != []
    ensures var t := ts[|ts| - 1]; Told(ups) <= t && (Told(ups) == t <==> t < WRAP)
  {
    hide Counts;
    var n := |ups| - 1;
    var t := if n == 0 then 0 else ts[n - 1];
    CountsExactly(t, ts[n]);
    if n > 0 { ToldExactly(ts[..n], ups[..n]); }
  }

  /** Rows derived from any part of a node's uplinks that keeps the first and the last sum to the tips counted by the
      last: if and only if the counter has not wrapped by then. */
  lemma NodeConserves(boot: int, mmPerTip: real, tipNM: int, phase: int, rain: seq<nat>, keep: seq<nat>)
    requires tipNM > 0 && 0 < phase < WAKE && KeepsEnds(keep, |Reports(tipNM, phase, rain)|)
    ensures var rs := Reports(tipNM, phase, rain);
            && rs != [] && 0 <= rs[|rs| - 1].step < |rain| && |Uplinks(boot, mmPerTip, rs)| == |rs|
            && var truth := TrueAt(tipNM, rain, rs, |rs| - 1);
               (Depth(Derive(None, Picked(Uplinks(boot, mmPerTip, rs), keep))) == Depths(truth, mmPerTip) <==>
                truth < WRAP || mmPerTip == 0.0)
  {
    hide Reports, Run, TrueAt, Uplinks, Derive, Depth, Depths;
    RunChains(tipNM, phase, rain);
    DepthExactly(boot, mmPerTip, tipNM, phase, rain, Reports(tipNM, phase, rain), keep);
  }

  lemma DepthExactly(boot: int, mmPerTip: real, tipNM: int, phase: int, rain: seq<nat>, rs: seq<Report>, keep: seq<nat>)
    requires tipNM > 0 && 0 < phase < WAKE && Chained(tipNM, phase, rain, rs) && KeepsEnds(keep, |rs|)
    ensures rs != [] && 0 <= rs[|rs| - 1].step < |rain| && |Uplinks(boot, mmPerTip, rs)| == |rs|
    ensures var truth := TrueAt(tipNM, rain, rs, |rs| - 1);
            Depth(Derive(None, Picked(Uplinks(boot, mmPerTip, rs), keep))) == Depths(truth, mmPerTip) <==>
            truth < WRAP || mmPerTip == 0.0
  {
    hide TrueAt, Uplinks, Derive, Depth, Depths, Link, Told, ToUplink;
    var ups := Uplinks(boot, mmPerTip, rs);
    UplinksAt(boot, mmPerTip, rs);
    TrueGrows(tipNM, phase, rain, rs, |rs| - 1, |rs| - 1);
    StepInside(tipNM, phase, rain, rs, |rs| - 1);
    NodeSteady(boot, mmPerTip, tipNM, phase, rain, rs, ups);
    PickedSteady(mmPerTip, ups, keep);
    var s := Picked(ups, keep);
    SteadyDepth(mmPerTip, s);
    var ts := PickedShows(boot, mmPerTip, tipNM, phase, rain, rs, ups, keep);
    ToldExactly(ts, s);
    DepthsPlain(Told(s), ts[|ts| - 1], mmPerTip);
  }

  lemma PickedShows(boot: int, mmPerTip: real, tipNM: int, phase: int, rain: seq<nat>, rs: seq<Report>,
                    ups: seq<Uplink>, keep: seq<nat>)
    returns (ts: seq<nat>)
    requires tipNM > 0 && 0 < phase < WAKE && Chained(tipNM, phase, rain, rs) && |ups| == |rs| && KeepsEnds(keep, |rs|)
    requires forall i :: 0 <= i < |rs| ==> ups[i] == ToUplink(boot, mmPerTip, rs[i], i)
    ensures Shows(ts, Picked(ups, keep)) && 0 <= rs[|rs| - 1].step < |rain|
    ensures ts[|ts| - 1] == TrueAt(tipNM, rain, rs, |rs| - 1)
  {
    forall i | 0 <= i < |rs| ensures 0 <= rs[i].step < |rain| && rs[i].tips == TrueAt(tipNM, rain, rs, i) % WRAP {
      assert Link(tipNM, phase, rain, rs, i);
    }
    hide TrueAt, Link, Chained;
    ts := seq(|keep|, i requires 0 <= i < |keep| => TrueAt(tipNM, rain, rs, keep[i]));
    forall i, j | 0 <= i < j < |ts| ensures ts[i] <= ts[j] { TrueGrows(tipNM, phase, rain, rs, keep[i], keep[j]); }
  }

  /** The node's own uplinks are steady. */
  lemma NodeSteady(boot: int, mmPerTip: real, tipNM: int, phase: int, rain: seq<nat>, rs: seq<Report>, ups: seq<Uplink>)
    requires tipNM > 0 && 0 < phase < WAKE && rs != [] && Chained(tipNM, phase, rain, rs) && |ups| == |rs|
    requires forall i :: 0 <= i < |rs| ==> ups[i] == ToUplink(boot, mmPerTip, rs[i], i)
    ensures Steady(mmPerTip, ups) && ups[0].tipCount >= 0
  {
    hide CounterAt, TrueAt;
    forall i | 0 <= i < |ups| ensures SteadyOne(mmPerTip, ups[i]) && (ups[i].counterReset <==> i == 0) {
      assert Link(tipNM, phase, rain, rs, i);
    }
    assert Link(tipNM, phase, rain, rs, 0);
    hide Chained, Link, SteadyOne;
    forall i, j | 0 <= i < j < |ups| ensures ups[i].at + SECOND <= ups[j].at {
      TrueGrows(tipNM, phase, rain, rs, i, j);
    }
  }

  // ----- lost uplinks keep the rows exact ----------------------------------------------------------------------------

  /** The row derived from a report some of whose predecessors are lost. */
  lemma LostRow(boot: int, mmPerTip: real, tipNM: int, phase: int, rain: seq<nat>, rs: seq<Report>, a: nat, b: nat)
    requires tipNM > 0 && 0 < phase < WAKE && |rain| < MAX_INT32 && a + 1 < b < |rs| && Chained(tipNM, phase, rain, rs)
    requires rs[a].tips <= rs[b].tips
    ensures 0 <= rs[a].step < rs[b].step < |rain|
    ensures DeriveOne(Some(ToUplink(boot, mmPerTip, rs[a], a)), ToUplink(boot, mmPerTip, rs[b], b)) ==
            [Row(boot + rs[a].step * SECOND, rs[b].step - rs[a].step, Depths(rs[b].tips - rs[a].tips, mmPerTip))]
  {
    hide TrueAt, CounterAt;
    TrueGrows(tipNM, phase, rain, rs, a, b);
    InChain(tipNM, phase, rain, rs, a + 1);
    InChain(tipNM, phase, rain, rs, b);
    TrueGrows(tipNM, phase, rain, rs, a + 1, b - 1);
    hide Chained;
    LostRowOf(boot, mmPerTip, rs[a], a, rs[b], b);
  }

  lemma LostRowOf(boot: int, mmPerTip: real, p: Report, pCnt: int, u: Report, uCnt: int)
    requires 0 <= p.step < u.step < MAX_INT32 && !u.reset && p.tips <= u.tips && p.step + WAKE <= u.step - u.interval
    ensures DeriveOne(Some(ToUplink(boot, mmPerTip, p, pCnt)), ToUplink(boot, mmPerTip, u, uCnt)) ==
            [Row(boot + p.step * SECOND, u.step - p.step, Depths(u.tips - p.tips, mmPerTip))]
  {
    var total := (u.step - p.step) * SECOND;
    assert total / SECOND == u.step - p.step;
    var rows := DeriveOne(Some(ToUplink(boot, mmPerTip, p, pCnt)), ToUplink(boot, mmPerTip, u, uCnt));
    assert |rows| == 1 && rows[0].mm == Depths(u.tips - p.tips, mmPerTip);
  }

  lemma KeptExact(boot: int, mmPerTip: real, tipNM: int, phase: int, rain: seq<nat>, rs: seq<Report>, a: nat, b: nat,
                  r: Row)
    requires tipNM > 0 && 0 < phase < WAKE && |rain| < MAX_INT32 && a < b < |rs| && Chained(tipNM, phase, rain, rs)
    requires Link(tipNM, phase, rain, rs, b) && TrueAt(tipNM, rain, rs, b) < WRAP
    requires r in DeriveOne(Some(ToUplink(boot, mmPerTip, rs[a], a)), ToUplink(boot, mmPerTip, rs[b], b))
    ensures Exact(boot, mmPerTip, tipNM, rain, r)
  {
    hide DeriveOne, Exact, TrueAt, Chained, Depths;
    TrueGrows(tipNM, phase, rain, rs, a, b);
    if b == a + 1 {
      DeriveLink(boot, mmPerTip, tipNM, phase, rain, rs, b);
      LinkExact(boot, mmPerTip, tipNM, phase, rain, rs, b, r);
    } else {
      Unwrapped(tipNM, phase, rain, rs, a);
      Unwrapped(tipNM, phase, rain, rs, b);
      LostRow(boot, mmPerTip, tipNM, phase, rain, rs, a, b);
      hide Link, SoFar;
      ExactMeans(boot, mmPerTip, tipNM, rain, r, rs[a].step);
    }
  }

  lemma Unwrapped(tipNM: int, phase: int, rain: seq<nat>, rs: seq<Report>, i: nat)
    requires tipNM > 0 && 0 < phase < WAKE && i < |rs| && Chained(tipNM, phase, rain, rs)
    requires Link(tipNM, phase, rain, rs, i) && TrueAt(tipNM, rain, rs, i) < WRAP
    ensures rs[i].tips == TrueAt(tipNM, rain, rs, i) == SoFar(tipNM, rain, rs[i].step)
  {
    LinkCounts(tipNM, phase, rain, rs, i);
    hide TipsAt, Chained;
  }

  /** Whatever uplinks are lost but the first: as long as the counter has not wrapped, every derived row holds exactly
      the tips counted in its interval. */
  lemma LossyRowsExact(boot: int, mmPerTip: real, tipNM: int, phase: int, rain: seq<nat>, keep: seq<nat>, r: Row)
    requires tipNM > 0 && 0 < phase < WAKE && |rain| < MAX_INT32
    requires Rising(keep, |Reports(tipNM, phase, rain)|) && keep != [] && keep[0] == 0
    requires |Uplinks(boot, mmPerTip, Reports(tipNM, phase, rain))| == |Reports(tipNM, phase, rain)|
    requires r in Derive(None, Picked(Uplinks(boot, mmPerTip, Reports(tipNM, phase, rain)), keep))
    ensures var rs := Reports(tipNM, phase, rain);
            var last := rs[keep[|keep| - 1]];
            0 <= last.step < |rain|
              && (TipsAt(tipNM, rain, last.step + 1) < WRAP ==> Exact(boot, mmPerTip, tipNM, rain, r))
  {
    hide Reports, Run, Uplinks, Derive, TipsAt, Exact;
    var rs := Reports(tipNM, phase, rain);
    RunChains(tipNM, phase, rain);
    UplinksAt(boot, mmPerTip, rs);
    LossyExact(boot, mmPerTip, tipNM, phase, rain, rs, Uplinks(boot, mmPerTip, rs), keep, r);
  }

  lemma LossyExact(boot: int, mmPerTip: real, tipNM: int, phase: int, rain: seq<nat>, rs: seq<Report>,
                   ups: seq<Uplink>, keep: seq<nat>, r: Row)
    requires tipNM > 0 && 0 < phase < WAKE && |rain| < MAX_INT32 && Chained(tipNM, phase, rain, rs)
    requires |ups| == |rs| && forall i :: 0 <= i < |rs| ==> ups[i] == ToUplink(boot, mmPerTip, rs[i], i)
    requires Rising(keep, |rs|) && keep != [] && keep[0] == 0 && r in Derive(None, Picked(ups, keep))
    ensures var last := rs[keep[|keep| - 1]];
            0 <= last.step < |rain|
              && (TipsAt(tipNM, rain, last.step + 1) < WRAP ==> Exact(boot, mmPerTip, tipNM, rain, r))
  {
    hide Derive, TipsAt, Exact, DeriveOne, ToUplink, Chained, Link;
    var n := keep[|keep| - 1];
    InChain(tipNM, phase, rain, rs, n);
    StepInside(tipNM, phase, rain, rs, n);
    var j := PickedRow(ups, keep, r);
    TrueGrows(tipNM, phase, rain, rs, keep[j], n);
    StepInside(tipNM, phase, rain, rs, keep[j]);
    if TipsAt(tipNM, rain, rs[n].step + 1) < WRAP {
      if j == 0 {
        DeriveLink(boot, mmPerTip, tipNM, phase, rain, rs, 0);
        LinkExact(boot, mmPerTip, tipNM, phase, rain, rs, 0, r);
      } else {
        KeptExact(boot, mmPerTip, tipNM, phase, rain, rs, keep[j - 1], keep[j], r);
      }
    }
  }

  /** The kept uplink that a row comes from. */
  lemma PickedRow(ups: seq<Uplink>, keep: seq<nat>, r: Row) returns (j: nat)
    requires Rising(keep, |ups|) && keep != [] && r in Derive(None, Picked(ups, keep))
    ensures j < |keep| && keep[j] <= keep[|keep| - 1] < |ups| && (j > 0 ==> keep[j - 1] < keep[j])
    ensures r in DeriveOne(if j == 0 then None else Some(ups[keep[j - 1]]), ups[keep[j]])
  {
    var s := Picked(ups, keep);
    hide Derive, DeriveOne, Rising, Pred;
    DeriveMember(s, r);
    j :| 0 <= j < |s| && r in DeriveOne(Pred(None, s, j), s[j]);
    RisingAt(keep, |ups|, j);
    PickedPred(ups, keep, j);
  }

  lemma RisingAt(keep: seq<nat>, n: nat, j: nat)
    requires Rising(keep, n) && j < |keep|
    ensures keep[j] <= keep[|keep| - 1] < n && (j > 0 ==> keep[j - 1] < keep[j])
  {
  }

  lemma PickedPred(ups: seq<Uplink>, keep: seq<nat>, j: nat)
    requires Rising(keep, |ups|) && j < |keep|
    ensures var s := Picked(ups, keep);
            s[j] == ups[keep[j]] && Pred(None, s, j) == (if j == 0 then None else Some(ups[keep[j - 1]]))
  {
  }

  lemma {:induction false} DeriveMember(ups: seq<Uplink>, r: Row)
    requires r in Derive(None, ups)
    ensures exists i :: 0 <= i < |ups| && r in DeriveOne(Pred(None, ups, i), ups[i])
  {
    hide DeriveOne;
    var n := |ups| - 1;
    if r in Derive(None, ups[..n]) {
      DeriveMember(ups[..n], r);
      var i :| 0 <= i < n && r in DeriveOne(Pred(None, ups[..n], i), ups[..n][i]);
      assert Pred(None, ups, i) == Pred(None, ups[..n], i);
    }
  }

  /** For every bucket and phase: a cloudburst that turns the counter over once, and the uplink that shows no tip. */
  lemma WrapLoses(boot: int, mmPerTip: real, tipNM: int, phase: int)
    requires tipNM > 0 && 0 < phase < WAKE && mmPerTip > 0.0
    ensures var rain := seq(phase, _ => 0) + [WRAP * tipNM];
            var rs := Reports(tipNM, phase, rain);
            && |rs| == 1 && TipsAt(tipNM, rain, |rain|) == WRAP
            && Depth(Derive(None, Uplinks(boot, mmPerTip, rs))) != Depths(WRAP, mmPerTip)
  {
    hide TipsAt, Derive, Depth, Depths, Reports, Run, Uplinks, Rising, Counts;
    var rain: seq<nat> := seq(phase, _ => 0) + [WRAP * tipNM];
    var rs := Reports(tipNM, phase, rain);
    CloudburstTips(tipNM, phase);
    OneReport(tipNM, phase, rain);
    UplinksAt(boot, mmPerTip, rs);
    PickedAll(Uplinks(boot, mmPerTip, rs));
    NodeConserves(boot, mmPerTip, tipNM, phase, rain, Everything(1));
  }

  /** A node that has just woken up for the first time has sent one report. */
  lemma OneReport(tipNM: int, phase: int, rain: seq<nat>)
    requires tipNM > 0 && 0 < phase < WAKE && |rain| == phase + 1
    ensures var rs := Reports(tipNM, phase, rain); |rs| == 1 && rs[0].step == phase
  {
    var rs := Reports(tipNM, phase, rain);
    RunChains(tipNM, phase, rain);
    assert rs != [];
    hide Knows, Recalls, Reports, Run, CounterAt, Chained;
    assert Link(tipNM, phase, rain, rs, 0) by { InChain(tipNM, phase, rain, rs, 0); }
    if |rs| > 1 {
      hide TrueAt;
      TrueGrows(tipNM, phase, rain, rs, 0, 1);
      StepInside(tipNM, phase, rain, rs, 1);
    }
  }

  lemma CloudburstTips(tipNM: int, phase: nat)
    requires tipNM > 0
    ensures var rain: seq<nat> := seq(phase, _ => 0) + [WRAP * tipNM]; TipsAt(tipNM, rain, |rain|) == WRAP
  {
    var dry: seq<nat> := seq(phase, _ => 0);
    var rain := dry + [WRAP * tipNM];
    assert rain[..|rain|] == rain && rain[..phase] == dry;
    DryTotal(dry);
    DivUnique(WRAP * tipNM, tipNM, WRAP);
  }

  lemma {:induction false} DryTotal(rain: seq<nat>)
    requires forall i :: 0 <= i < |rain| ==> rain[i] == 0
    ensures Total(rain) == 0
  {
    if rain != [] { DryTotal(rain[..|rain| - 1]); }
  }
}
