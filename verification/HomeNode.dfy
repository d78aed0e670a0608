/** Storm-mode roll-up in the pump node's firmware (internal/sim/home.go). */
module HomeNode {
  import opened Common

  const WINDOW := 900
  const THRESHOLD := 6

  /** A completed pump run: when it ended, how long it ran, its peak current and its starting level. */
  datatype Cycle = Cycle(end: int, runS: nat, peakDA: nat, startDist: nat)

  datatype Uplink = CycleUp(c: Cycle) | SummaryUp(count: nat, totalRunS: nat, maxPeakDA: nat, minLevel: nat)

  /** What the firmware sees: a pump run ends, or a second passes. */
  datatype Event = Ended(c: Cycle) | Second(step: int)

  datatype Node = Node(storm: bool, windowStart: int, recent: seq<int>, count: nat, runS: nat, peakDA: nat,
                       minLevel: nat)

  const fresh_ := Node(false, 0, [], 0, 0, 0, 65535)

  /** The ends less than a window before `step`. */
  function Within(ends: seq<int>, step: int): seq<int> {
    if ends == [] then [] else
    Within(ends[..|ends| - 1], step) + (if step - ends[|ends| - 1] < WINDOW then [ends[|ends| - 1]] else [])
  }

  function AfterEnd(n: Node, c: Cycle): Node {
    var recent := Within(n.recent, c.end) + [c.end];
    var m := if !n.storm && |recent| > THRESHOLD
             then n.(storm := true, windowStart := c.end, recent := recent,
                     count := 0, runS := 0, peakDA := 0, minLevel := 65535)
             else n.(recent := recent);
    if m.storm
    then m.(count := m.count + 1, runS := m.runS + c.runS,
            peakDA := Max(m.peakDA, c.peakDA), minLevel := Min(m.minLevel, c.startDist))
    else m
  }

  function AfterEvent(n: Node, e: Event): Node {
    match e
    case Ended(c) => AfterEnd(n, c)
    case Second(step) =>
      if n.storm && step - n.windowStart >= WINDOW
      then Node(n.count > THRESHOLD, step, n.recent, 0, 0, 0, 65535)
      else n
  }

  /** What the two-byte fields of an uplink can say of a run. */
  function Coded(c: Cycle): Cycle {
    c.(runS := Min(c.runS, 65535), peakDA := Min(c.peakDA, 65535), startDist := c.startDist % 65536)
  }

  function Sends(n: Node, e: Event): seq<Uplink> {
    match e
    case Ended(c) => if AfterEnd(n, c).storm then [] else [CycleUp(Coded(c))]
    case Second(step) =>
      if n.storm && step - n.windowStart >= WINDOW
      then [SummaryUp(Min(n.count, 255), Min(n.runS, 65535), Min(n.peakDA, 65535), n.minLevel)]
      else []
  }

  class Home {
    var storm: bool
    var windowStart: int
    var recent: seq<int>
    var count: nat
    var runS: nat
    var peakDA: nat
    var minLevel: nat

    constructor ()
      ensures Contents() == fresh_
    {
      storm, windowStart, recent, count, runS, peakDA, minLevel := false, 0, [], 0, 0, 0, 65535;
    }

    function Contents(): Node
      reads this
    {
      Node(storm, windowStart, recent, count, runS, peakDA, minLevel)
    }

    method ResetAccumulator()
      modifies this
      ensures Contents() == old(Contents()).(count := 0, runS := 0, peakDA := 0, minLevel := 65535)
    {
      count, runS, peakDA, minLevel := 0, 0, 0, 65535;
    }

    /** A pump run ended: an uplink of its own, or folded into the storm window. */
    method EndCycle(c: Cycle) returns (out: seq<Uplink>)
      modifies this
      ensures Contents() == AfterEvent(old(Contents()), Ended(c)) && out == Sends(old(Contents()), Ended(c))
    {
      var keep := [];
      for i := 0 to |recent|
        invariant keep == Within(recent[..i], c.end) && Contents() == old(Contents())
      {
        assert recent[..i + 1][..i] == recent[..i];
        if c.end - recent[i] < WINDOW { keep := keep + [recent[i]]; }
      }
      assert recent[..|recent|] == recent;
      recent := keep + [c.end];
      if !storm && |recent| > THRESHOLD {
        storm, windowStart := true, c.end;
        ResetAccumulator();
      }
      if storm {
        count, runS, peakDA, minLevel := count + 1, runS + c.runS, Max(peakDA, c.peakDA), Min(minLevel, c.startDist);
        return [];
      }
      return [CycleUp(Coded(c))];
    }

    /** A second passes; at the end of a storm window its summary goes out. */
    method Pass(step: int) returns (out: seq<Uplink>)
      modifies this
      ensures Contents() == AfterEvent(old(Contents()), Second(step)) && out == Sends(old(Contents()), Second(step))
    {
      if !(storm && step - windowStart >= WINDOW) { return []; }
      out := [SummaryUp(Min(count, 255), Min(runS, 65535), Min(peakDA, 65535), minLevel)];
      if count <= THRESHOLD { storm := false; }
      windowStart := step;
      ResetAccumulator();
    }
  }

  // ----- whole runs ------------------------------------------------------------------------------------------

  function Run(es: seq<Event>): Node { if es == [] then fresh_ else AfterEvent(Run(es[..|es| - 1]), es[|es| - 1]) }

  function Uplinks(es: seq<Event>): seq<Uplink> {
    if es == [] then [] else Uplinks(es[..|es| - 1]) + Sends(Run(es[..|es| - 1]), es[|es| - 1])
  }

  /** The pump runs completed. */
  function Completed(es: seq<Event>): seq<Cycle> {
    if es == [] then [] else Completed(es[..|es| - 1]) + (match es[|es| - 1] case Ended(c) => [c] case Second(_) => [])
  }

  /** The pump runs a list of uplinks tells of. */
  function Told(us: seq<Uplink>): nat {
    if us == [] then 0
    else Told(us[..|us| - 1]) + (match us[|us| - 1] case CycleUp(_) => 1 case SummaryUp(count, _, _, _) => count)
  }

  /** What the one-byte counts of summaries could not say. */
  function Clipped(es: seq<Event>): nat {
    if es == [] then 0 else
    Clipped(es[..|es| - 1]) + Clip(Run(es[..|es| - 1]), es[|es| - 1])
  }

  /** No summary so far had a larger count than it can say. */
  ghost predicate CountsFit(es: seq<Event>) {
    forall k :: 0 <= k < |es| ==> Fits(Run(es[..k]), es[k])
  }

  lemma ToldSnoc(us: seq<Uplink>, u: Uplink)
    ensures Told(us + [u]) == Told(us) + (match u case CycleUp(_) => 1 case SummaryUp(count, _, _, _) => count)
  {
    assert (us + [u])[..|us|] == us;
  }

  function Clip(n: Node, e: Event): nat { if e.Second? && Sends(n, e) != [] then Max(n.count - 255, 0) else 0 }

  /** The accumulator is empty outside storm mode. */
  predicate Tidy(n: Node) { !n.storm ==> n.count == 0 && n.runS == 0 }

  lemma StepConserved(n: Node, e: Event)
    requires Tidy(n)
    ensures Tidy(AfterEvent(n, e)) && |Sends(n, e)| <= 1
    ensures n.count + (if e.Ended? then 1 else 0) == Told(Sends(n, e)) + AfterEvent(n, e).count + Clip(n, e)
  {
    match e
    case Ended(c) => EndConserved(n, c);
    case Second(step) => SecondConserved(n, step);
  }

  lemma ToldOne(u: Uplink)
    ensures Told([u]) == (match u case CycleUp(_) => 1 case SummaryUp(count, _, _, _) => count) && Told([]) == 0
  {
    assert [] + [u] == [u];
    ToldSnoc([], u);
  }

  lemma EndConserved(n: Node, c: Cycle)
    requires Tidy(n)
    ensures Tidy(AfterEnd(n, c)) && |Sends(n, Ended(c))| <= 1
    ensures n.count + 1 == Told(Sends(n, Ended(c))) + AfterEnd(n, c).count
  {
    hide Within, Told;
    ToldOne(CycleUp(Coded(c)));
  }

  lemma SecondConserved(n: Node, step: int)
    requires Tidy(n)
    ensures Tidy(AfterEvent(n, Second(step))) && |Sends(n, Second(step))| <= 1
    ensures n.count == Told(Sends(n, Second(step))) + AfterEvent(n, Second(step)).count + Clip(n, Second(step))
  {
    hide Told;
    ToldOne(SummaryUp(Min(n.count, 255), Min(n.runS, 65535), Min(n.peakDA, 65535), n.minLevel));
  }

  /** Every completed pump run is told of once, or still in the accumulator, or clipped; outside storm mode
      the accumulator is empty. */
  lemma {:induction false} RunsConserved(es: seq<Event>)
    ensures |Completed(es)| == Told(Uplinks(es)) + Run(es).count + Clipped(es) && Tidy(Run(es))
  {
    if es != [] {
      var k := |es| - 1;
      RunsConserved(es[..k]);
      var n, us := Run(es[..k]), Uplinks(es[..k]);
      StepConserved(n, es[k]);
      hide Sends, AfterEvent, Tidy;
      var s := Sends(n, es[k]);
      if s != [] {
        assert s == [] + [s[0]];
        ToldSnoc(us, s[0]);
        ToldSnoc([], s[0]);
      } else {
        assert us + s == us;
      }
    }
  }

  lemma {:induction false} ClippedZero(es: seq<Event>)
    ensures Clipped(es) == 0 <==> CountsFit(es)
  {
    if es != [] {
      var k := |es| - 1;
      ClippedZero(es[..k]);
      hide Sends, Run;
      FitsSnoc(es);
    }
  }

  ghost predicate Fits(n: Node, e: Event) { e.Second? && Sends(n, e) != [] ==> n.count <= 255 }

  lemma FitsSnoc(es: seq<Event>)
    requires es != []
    ensures CountsFit(es) <==> CountsFit(es[..|es| - 1]) && Fits(Run(es[..|es| - 1]), es[|es| - 1])
  {
    hide Fits, Run;
    var k := |es| - 1;
    forall i | 0 <= i < k ensures es[..k][i] == es[i] && es[..k][..i] == es[..i] {}
    if CountsFit(es[..k]) && Fits(Run(es[..k]), es[k]) {
      forall i | 0 <= i < |es| ensures Fits(Run(es[..i]), es[i]) {
        if i < k { assert Fits(Run(es[..k][..i]), es[..k][i]); }
      }
    }
    if CountsFit(es) {
      forall i | 0 <= i < k ensures Fits(Run(es[..k][..i]), es[..k][i]) { assert Fits(Run(es[..i]), es[i]); }
      assert Fits(Run(es[..k]), es[k]);
    }
  }

  /** Every storm window that was summarised held at most 255 runs. */
  ghost predicate WindowsFit(es: seq<Event>) {
    forall k :: 0 <= k < |es| && Summarises(es, k) ==> |Folded(es[..k])| <= 255
  }

  ghost predicate Summarises(es: seq<Event>, k: nat)
    requires k < |es|
  {
    es[k].Second? && Sends(Run(es[..k]), es[k]) != []
  }

  lemma WindowsAreCounts(es: seq<Event>)
    ensures WindowsFit(es) <==> CountsFit(es)
  {
    forall k | 0 <= k < |es| && Summarises(es, k) ensures |Folded(es[..k])| == Run(es[..k]).count {
      AccumulatorExact(es[..k]);
      StormSums(Run(es[..k]), es[k], Folded(es[..k]));
    }
    hide Sends, Run, Folded;
    if WindowsFit(es) {
      forall k | 0 <= k < |es| ensures Fits(Run(es[..k]), es[k]) {
        if Summarises(es, k) { assert |Folded(es[..k])| <= 255; }
      }
    }
    if CountsFit(es) {
      forall k | 0 <= k < |es| && Summarises(es, k) ensures |Folded(es[..k])| <= 255 {
        assert Fits(Run(es[..k]), es[k]);
      }
    }
  }

  lemma StormSums(n: Node, e: Event, cs: seq<Cycle>)
    requires (Sums(n, cs) || !n.storm) && e.Second? && Sends(n, e) != []
    ensures |cs| == n.count
  {
  }

  /** The uplinks and the accumulator account for every completed run exactly if no window held more than 255. */
  lemma ConservedExactly(es: seq<Event>)
    ensures |Completed(es)| == Told(Uplinks(es)) + Run(es).count <==> WindowsFit(es)
  {
    hide *;
    RunsConserved(es);
    ClippedZero(es);
    WindowsAreCounts(es);
  }

  /** Runs that all end in the same second. */
  function Burst(n: nat): seq<Event> { seq(n, _ => Ended(Cycle(0, 1, 0, 0))) }

  function Zeros(n: nat): seq<int> { if n == 0 then [] else Zeros(n - 1) + [0] }

  lemma {:induction false} WithinAll(n: nat)
    ensures Within(Zeros(n), 0) == Zeros(n) && |Zeros(n)| == n
  {
    if n > 0 {
      WithinAll(n - 1);
      assert Zeros(n)[..n - 1] == Zeros(n - 1);
    }
  }

  /** The node after a burst of `n` runs. */
  predicate InBurst(m: Node, n: nat) {
    && m.windowStart == 0 && m.recent == Zeros(n) && m.storm == (n > THRESHOLD)
    && m.count == (if n > THRESHOLD then n - THRESHOLD else 0)
  }

  lemma BurstOn(m: Node, n: nat)
    requires InBurst(m, n)
    ensures InBurst(AfterEnd(m, Cycle(0, 1, 0, 0)), n + 1)
  {
    hide Within;
    WithinAll(n);
    WithinAll(n + 1);
  }

  lemma {:induction false} BurstRuns(n: nat)
    ensures InBurst(Run(Burst(n)), n)
  {
    hide InBurst, AfterEnd;
    if n == 0 {
      assert InBurst(fresh_, 0) by { NoBurst(); }
    } else {
      BurstRuns(n - 1);
      var b := Burst(n);
      assert b[..n - 1] == Burst(n - 1) && b[n - 1] == Ended(Cycle(0, 1, 0, 0));
      BurstOn(Run(Burst(n - 1)), n - 1);
    }
  }

  lemma NoBurst()
    ensures InBurst(fresh_, 0)
  {
  }

  /** 256 runs in one storm window: its summary says 255, and one run is told of nowhere. */
  lemma OverfullWindow()
    ensures var es := Burst(THRESHOLD + 256) + [Second(WINDOW)];
            |Completed(es)| == Told(Uplinks(es)) + Run(es).count + 1
  {
    var b, e := Burst(THRESHOLD + 256), Second(WINDOW);
    var es := b + [e];
    assert es[..|b|] == b;
    BurstRuns(THRESHOLD + 256);
    RunsConserved(es);
    ClippedBurst(THRESHOLD + 256);
    hide Within;
  }

  lemma {:induction false} ClippedBurst(n: nat)
    ensures Clipped(Burst(n)) == 0
  {
    if n > 0 {
      ClippedBurst(n - 1);
      assert Burst(n)[..n - 1] == Burst(n - 1);
    }
  }

  // ----- entering storm mode ----------------------------------------------------------------------------------

  function Ends(cs: seq<Cycle>): seq<int> { if cs == [] then [] else Ends(cs[..|cs| - 1]) + [cs[|cs| - 1].end] }

  ghost predicate InOrder(cs: seq<Cycle>) { forall i, j :: 0 <= i < j < |cs| ==> cs[i].end <= cs[j].end }

  lemma WithinLast(front: seq<int>, e: int, step: int)
    ensures Within(front + [e], step) == if step - e < WINDOW then Within(front, step) + [e] else Within(front, step)
  {
    assert (front + [e])[..|front|] == front;
  }

  /** Filtering by a later step refines filtering by an earlier one. */
  lemma {:induction false} WithinTwice(ends: seq<int>, a: int, b: int)
    requires a <= b
    ensures Within(Within(ends, a), b) == Within(ends, b)
  {
    if ends != [] {
      var n := |ends| - 1;
      var e, front := ends[n], ends[..n];
      assert ends == front + [e];
      WithinTwice(front, a, b);
      WithinLast(front, e, a);
      WithinLast(front, e, b);
      WithinLast(Within(front, a), e, b);
      hide Within;
    }
  }

  /** The remembered ends are exactly the completed runs that ended less than a window before the last one. */
  lemma {:induction false} RecentExact(es: seq<Event>)
    requires InOrder(Completed(es))
    ensures var cs := Completed(es);
            Run(es).recent == if cs == [] then [] else Within(Ends(cs), cs[|cs| - 1].end)
  {
    if es != [] {
      var k := |es| - 1;
      var before := Completed(es[..k]);
      OrderBefore(es);
      RecentExact(es[..k]);
      match es[k]
      case Second(_) =>
        assert Completed(es) == before;
        hide Within, Ends, AfterEnd;
      case Ended(c) =>
        RecentOn(before, Run(es[..k]), c);
        hide Within, Ends, InOrder;
    }
  }

  lemma OrderBefore(es: seq<Event>)
    requires es != [] && InOrder(Completed(es))
    ensures var before := Completed(es[..|es| - 1]);
            && InOrder(before)
            && (es[|es| - 1].Ended? && before != [] ==> before[|before| - 1].end <= es[|es| - 1].c.end)
  {
    var before, all := Completed(es[..|es| - 1]), Completed(es);
    assert forall i :: 0 <= i < |before| ==> all[i] == before[i];
    if es[|es| - 1].Ended? && before != [] { assert all[|before|] == es[|es| - 1].c; }
  }

  lemma RecentOn(before: seq<Cycle>, n: Node, c: Cycle)
    requires n.recent == if before == [] then [] else Within(Ends(before), before[|before| - 1].end)
    requires before != [] ==> before[|before| - 1].end <= c.end
    ensures AfterEnd(n, c).recent == Within(Ends(before + [c]), c.end)
  {
    assert (before + [c])[..|before|] == before;
    WithinLast(Ends(before), c.end, c.end);
    if before != [] { WithinTwice(Ends(before), before[|before| - 1].end, c.end); }
    hide Within, Ends;
    assert AfterEnd(n, c).recent == Within(n.recent, c.end) + [c.end];
    if before == [] {
      assert Within([], c.end) == [] by { WithinNone(c.end); }
      assert Ends(before) == [] by { EndsNone(); }
    }
    assert Ends(before + [c]) == Ends(before) + [c.end] by { EndsSnoc(before, c); }
  }

  lemma WithinNone(step: int)
    ensures Within([], step) == []
  {
  }

  lemma EndsNone()
    ensures Ends([]) == []
  {
  }

  lemma EndsSnoc(cs: seq<Cycle>, c: Cycle)
    ensures Ends(cs + [c]) == Ends(cs) + [c.end]
  {
    assert (cs + [c])[..|cs|] == cs;
  }

  /** Storm mode begins exactly when more than the threshold of runs ended within one window. */
  lemma EntersStorm(es: seq<Event>, c: Cycle)
    requires InOrder(Completed(es + [Ended(c)])) && !Run(es).storm
    ensures Run(es + [Ended(c)]).storm <==> |Within(Ends(Completed(es + [Ended(c)])), c.end)| > THRESHOLD
  {
    var all := es + [Ended(c)];
    assert all[..|es|] == es;
    RecentExact(all);
    hide Within;
    assert Completed(all)[|Completed(all)| - 1] == c;
  }

  /** In an ordered list those within a window are the last ones. */
  lemma {:induction false} WithinCount(cs: seq<Cycle>, step: int, n: nat)
    requires InOrder(cs) && 0 < n
    ensures |Within(Ends(cs), step)| >= n <==> |cs| >= n && step - cs[|cs| - n].end < 900
  {
    if cs != [] {
      var k := |cs| - 1;
      var front := cs[..k];
      assert cs == front + [cs[k]];
      EndsSnoc(front, cs[k]);
      WithinLast(Ends(front), cs[k].end, step);
      if step - cs[k].end < WINDOW {
        if n > 1 { WithinCount(front, step, n - 1); }
      } else {
        WithinCount(front, step, 1);
        assert |cs| >= n ==> cs[|cs| - n].end <= cs[k].end;
      }
      hide Within, Ends;
    }
  }

  /** Storm mode begins exactly with the seventh run to end within fifteen minutes. */
  lemma SeventhRun(es: seq<Event>, c: Cycle)
    requires InOrder(Completed(es + [Ended(c)])) && !Run(es).storm
    ensures var cs := Completed(es + [Ended(c)]);
            Run(es + [Ended(c)]).storm <==> |cs| >= 7 && c.end - cs[|cs| - 7].end < 900
  {
    EntersStorm(es, c);
    WithinCount(Completed(es + [Ended(c)]), c.end, 7);
    hide Within;
  }

  // ----- what a summary says ------------------------------------------------------------------------------------

  /** The runs folded into the current window. */
  function Folded(es: seq<Event>): seq<Cycle> {
    if es == [] then [] else
    var n := Run(es[..|es| - 1]);
    match es[|es| - 1]
    case Ended(c) => if !AfterEnd(n, c).storm then [] else if n.storm then Folded(es[..|es| - 1]) + [c] else [c]
    case Second(_) => if Sends(n, es[|es| - 1]) != [] then [] else Folded(es[..|es| - 1])
  }

  function SumRun(cs: seq<Cycle>): nat { if cs == [] then 0 else SumRun(cs[..|cs| - 1]) + cs[|cs| - 1].runS }

  /** The accumulator holds the number, total time, highest current and lowest level of exactly those runs. */
  ghost predicate Sums(n: Node, cs: seq<Cycle>) {
    && n.count == |cs| && n.runS == SumRun(cs)
    && (forall i :: 0 <= i < |cs| ==> cs[i].peakDA <= n.peakDA && n.minLevel <= cs[i].startDist)
    && (n.peakDA == 0 || exists i :: 0 <= i < |cs| && cs[i].peakDA == n.peakDA)
    && (n.minLevel == 65535 || exists i :: 0 <= i < |cs| && cs[i].startDist == n.minLevel)
  }

  lemma SumsSnoc(n: Node, cs: seq<Cycle>, c: Cycle)
    requires Sums(n, cs)
    ensures Sums(n.(count := n.count + 1, runS := n.runS + c.runS,
                    peakDA := Max(n.peakDA, c.peakDA), minLevel := Min(n.minLevel, c.startDist)),
                 cs + [c])
  {
    var all := cs + [c];
    assert all[..|cs|] == cs && all[|cs|] == c;
    assert forall i :: 0 <= i < |cs| ==> all[i] == cs[i];
    if n.peakDA != 0 { var i :| 0 <= i < |cs| && cs[i].peakDA == n.peakDA; assert all[i].peakDA == n.peakDA; }
    if n.minLevel != 65535 {
      var i :| 0 <= i < |cs| && cs[i].startDist == n.minLevel;
      assert all[i].startDist == n.minLevel;
    }
  }

  /** So a summary, before clipping, describes exactly the runs of its window. */
  lemma {:induction false} AccumulatorExact(es: seq<Event>)
    ensures Sums(Run(es), Folded(es)) || !Run(es).storm
    ensures !Run(es).storm ==> Folded(es) == []
  {
    if es != [] {
      var k := |es| - 1;
      AccumulatorExact(es[..k]);
      hide Within, Sums, SumRun;
      match es[k]
      case Ended(c) => SumsEnd(Run(es[..k]), Folded(es[..k]), c);
      case Second(step) => NoSums(Node(true, step, Run(es[..k]).recent, 0, 0, 0, 65535));
    }
  }

  /** What ending a run does to the runs of the window. */
  lemma SumsEnd(n: Node, cs: seq<Cycle>, c: Cycle)
    requires Sums(n, cs) || !n.storm
    ensures var m := AfterEnd(n, c); m.storm ==> Sums(m, if n.storm then cs + [c] else [c])
  {
    hide Within, Sums, SumRun;
    var recent := AfterEnd(n, c).recent;
    if n.storm {
      SumsRecent(n, recent, cs);
      SumsSnoc(n.(recent := recent), cs, c);
    } else {
      var m := Node(true, c.end, recent, 0, 0, 0, 65535);
      NoSums(m);
      SumsSnoc(m, [], c);
      assert [] + [c] == [c];
    }
  }

  lemma SumsRecent(n: Node, recent: seq<int>, cs: seq<Cycle>)
    requires Sums(n, cs)
    ensures Sums(n.(recent := recent), cs)
  {
  }

  lemma NoSums(m: Node)
    requires m.count == 0 && m.runS == 0 && m.peakDA == 0 && m.minLevel == 65535
    ensures Sums(m, [])
  {
  }

  // ----- what is sent ---------------------------------------------------------------------------------------------

  function Least(cs: seq<Cycle>): nat { if cs == [] then 65535 else Min(Least(cs[..|cs| - 1]), cs[|cs| - 1].startDist) }

  function Highest(cs: seq<Cycle>): nat { if cs == [] then 0 else Max(Highest(cs[..|cs| - 1]), cs[|cs| - 1].peakDA) }

  lemma {:induction false} SumsAre(n: Node, cs: seq<Cycle>)
    requires Sums(n, cs) && n.minLevel <= 65535
    ensures n.peakDA == Highest(cs) && n.minLevel == Least(cs)
  {
    HighestMeaning(cs);
    LeastMeaning(cs);
  }

  lemma {:induction false} HighestMeaning(cs: seq<Cycle>)
    ensures forall i :: 0 <= i < |cs| ==> cs[i].peakDA <= Highest(cs)
    ensures Highest(cs) == 0 || exists i :: 0 <= i < |cs| && cs[i].peakDA == Highest(cs)
  {
    if cs != [] {
      var n := |cs| - 1;
      HighestMeaning(cs[..n]);
      if i :| 0 <= i < n && cs[..n][i].peakDA == Highest(cs[..n]) { assert cs[i].peakDA == Highest(cs[..n]); }
      assert forall i :: 0 <= i < n ==> cs[..n][i] == cs[i];
    }
  }

  lemma {:induction false} LeastMeaning(cs: seq<Cycle>)
    ensures (forall i :: 0 <= i < |cs| ==> Least(cs) <= cs[i].startDist) && Least(cs) <= 65535
    ensures Least(cs) == 65535 || exists i :: 0 <= i < |cs| && cs[i].startDist == Least(cs)
  {
    if cs != [] {
      var n := |cs| - 1;
      LeastMeaning(cs[..n]);
      if i :| 0 <= i < n && cs[..n][i].startDist == Least(cs[..n]) { assert cs[i].startDist == Least(cs[..n]); }
      assert forall i :: 0 <= i < n ==> cs[..n][i] == cs[i];
    }
  }

  lemma {:induction false} LevelBounded(es: seq<Event>)
    ensures Run(es).minLevel <= 65535
  {
    if es != [] {
      LevelBounded(es[..|es| - 1]);
      hide Within;
    }
  }

  /** Storm mode, and no summary, since `k`. */
  ghost predicate Unbroken(es: seq<Event>, k: nat) {
    && (forall m :: k < m <= |es| ==> Run(es[..m]).storm) && (forall m :: k < m < |es| ==> !Summarises(es, m))
  }

  /** The current storm window began at `k`, with the run that started storm mode or with the last summary; `cs` are the
      runs completed in it. */
  ghost predicate WindowSince(es: seq<Event>, k: nat, cs: seq<Cycle>) {
    && k < |es| && Unbroken(es, k)
    && match es[k]
       case Ended(c) => !Run(es[..k]).storm && Run(es).windowStart == c.end && cs == Completed(es[k..])
       case Second(step) => Summarises(es, k) && Run(es).windowStart == step && cs == Completed(es[k + 1..])
  }

  /** In storm mode the accumulator is about the runs completed since the window began. */
  lemma {:induction false} WindowBegan(es: seq<Event>) returns (k: nat)
    requires Run(es).storm
    ensures WindowSince(es, k, Folded(es))
  {
    var n := |es| - 1;
    var before := Run(es[..n]);
    hide Folded, Within;
    FoldedOn(es);
    if es[n].Second? && Sends(before, es[n]) != [] {
      k := n;
      WholeRun(es);
      assert es[n + 1..] == [];
    } else if es[n].Ended? && !before.storm {
      k := n;
      WholeRun(es);
      OneCompleted(es, n);
    } else {
      k := WindowBegan(es[..n]);
      WindowOn(es, k, Folded(es[..n]));
    }
  }

  lemma WholeRun(es: seq<Event>)
    requires es != []
    ensures es[..|es|] == es && forall m :: |es| - 1 < m <= |es| ==> es[..m] == es
  {
  }

  lemma OneCompleted(es: seq<Event>, n: nat)
    requires n + 1 == |es| && es[n].Ended?
    ensures Completed(es[n..]) == [es[n].c]
  {
    assert es[n..] == [es[n]];
    assert [es[n]][..0] == [];
  }

  lemma FoldedOn(es: seq<Event>)
    requires es != []
    ensures var n := |es| - 1;
            var before := Run(es[..n]);
            Folded(es) ==
            match es[n]
            case Ended(c) =>
              if !AfterEnd(before, c).storm then [] else if before.storm then Folded(es[..n]) + [c] else [c]
            case Second(_) => if Sends(before, es[n]) != [] then [] else Folded(es[..n])
  {
    hide Within, AfterEnd, Run, Sends;
  }

  lemma WindowOn(es: seq<Event>, k: nat, cs: seq<Cycle>)
    requires es != [] && Run(es).storm && WindowSince(es[..|es| - 1], k, cs) && !Summarises(es, |es| - 1)
    requires Run(es).windowStart == Run(es[..|es| - 1]).windowStart
    ensures var last := es[|es| - 1]; WindowSince(es, k, if last.Ended? then cs + [last.c] else cs)
  {
    hide Run, Completed, Unbroken, Summarises;
    UnbrokenOn(es, k);
    SamePrefix(es, k);
    CompletedFrom(es, k);
    CompletedFrom(es, k + 1);
    assert cs + [] == cs;
  }

  lemma UnbrokenOn(es: seq<Event>, k: nat)
    requires es != [] && Run(es).storm && k + 1 < |es| && Unbroken(es[..|es| - 1], k) && !Summarises(es, |es| - 1)
    ensures Unbroken(es, k)
  {
    hide Run, Summarises;
    var n := |es| - 1;
    var front := es[..n];
    forall m | k < m <= |es| ensures Run(es[..m]).storm {
      if m <= n { assert front[..m] == es[..m]; } else { assert es[..m] == es; }
    }
    forall m | k < m < |es| ensures !Summarises(es, m) {
      if m < n { SamePrefix(es, m); }
    }
  }

  lemma SamePrefix(es: seq<Event>, m: nat)
    requires m + 1 < |es|
    ensures es[..|es| - 1][..m] == es[..m] && (Summarises(es[..|es| - 1], m) <==> Summarises(es, m))
  {
    assert es[..|es| - 1][..m] == es[..m];
    hide Run, Sends;
  }

  lemma CompletedFrom(es: seq<Event>, k: nat)
    requires k < |es|
    ensures var n := |es| - 1;
            Completed(es[k..]) == Completed(es[..n][k..]) + (if es[n].Ended? then [es[n].c] else [])
  {
    var n := |es| - 1;
    assert es[k..][..n - k] == es[..n][k..];
  }

  /** A completed run outside storm mode is sent by itself; in storm mode it is not. A summary is sent exactly in the
      first second at least a window after the window began; it says how many runs were completed in the window, how
      long they took, their highest current and lowest level, clipped to its fields; and storm mode goes on exactly if
      they were more than the threshold. */
  lemma SendsExactly(es: seq<Event>, e: Event)
    ensures var n, us := Run(es), Sends(Run(es), e);
            match e
            case Ended(c) =>
              us == if Run(es + [e]).storm then []
                    else [CycleUp(Cycle(c.end, Min(c.runS, 65535), Min(c.peakDA, 65535), c.startDist % 65536))]
            case Second(step) =>
              if !n.storm || step < n.windowStart + WINDOW then us == [] && Run(es + [e]) == n
              else exists k, cs :: WindowSince(es, k, cs) && us == [SummaryOf(cs)]
                                   && (Run(es + [e]).storm <==> |cs| > THRESHOLD)
  {
    assert (es + [e])[..|es|] == es;
    AccumulatorExact(es);
    LevelBounded(es);
    hide Within, AfterEnd, Sums, WindowSince;
    var n := Run(es);
    if n.storm {
      var k := WindowBegan(es);
      var cs := Folded(es);
      SumsAre(n, cs);
      SumsCount(n, cs);
      assert WindowSince(es, k, cs);
    }
  }

  lemma SumsCount(n: Node, cs: seq<Cycle>)
    requires Sums(n, cs)
    ensures n.count == |cs| && n.runS == SumRun(cs)
  {
  }

  function SummaryOf(cs: seq<Cycle>): Uplink {
    SummaryUp(Min(|cs|, 255), Min(SumRun(cs), 65535), Min(Highest(cs), 65535), Least(cs))
  }
}
