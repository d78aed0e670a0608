/** Pump detections: raise, latch, clear, and what a re-seeding does to them (internal/detector/detector.go). */
module Detector {
  import opened Streaks

  const DRY_MIN_RUN := 30
  const DRY_MAX_DROP := 5
  const CONTINUOUS := 600

  predicate IsDryRun(c: Cycle) { c.runS >= DRY_MIN_RUN && c.levelEnd - c.levelStart < DRY_MAX_DROP }

  predicate IsContinuousRun(c: Cycle) { c.runS > CONTINUOUS }

  predicate SummaryShortCycling(count: int, windowS: int) {
    count >= SHORT_COUNT && windowS > 0 && windowS <= SHORT_GAP * count
  }

  // ----- one condition of one device -------------------------------------------------------------------------------

  datatype Action = Raise | Clear

  /** Whether a condition is active, and the count of healthy observations kept with it. */
  datatype Condition = Condition(active: bool, healthy: nat)

  function Observe(c: Condition, o: Observation, toClear: int): Condition {
    match o
    case Bad => Condition(true, 0)
    case Good(resets) =>
      if c.active then Condition(c.healthy + 1 < toClear, c.healthy + 1)
      else if resets then Condition(false, 0)
      else c
    case Neither => Condition(c.active, 0)
  }

  function Emits(c: Condition, o: Observation, toClear: int): seq<Action> {
    if !c.active && o == Bad then [Raise]
    else if c.active && o.Good? && c.healthy + 1 >= toClear then [Clear]
    else []
  }

  function After(c: Condition, os: seq<Observation>, toClear: int): Condition {
    if os == [] then c else Observe(After(c, os[..|os| - 1], toClear), os[|os| - 1], toClear)
  }

  function Actions(c: Condition, os: seq<Observation>, toClear: int): seq<Action> {
    if os == [] then [] else
    Actions(c, os[..|os| - 1], toClear) + Emits(After(c, os[..|os| - 1], toClear), os[|os| - 1], toClear)
  }

  /** Raise and clear alternate, starting with a raise unless the condition was active. */
  ghost predicate Alternates(as_: seq<Action>, active: bool) {
    forall i :: 0 <= i < |as_| ==> (as_[i] == Raise <==> (i % 2 == 0) != active)
  }

  lemma {:induction false} ActionsAlternate(c: Condition, os: seq<Observation>, toClear: int)
    ensures Alternates(Actions(c, os, toClear), c.active)
    ensures After(c, os, toClear).active <==> (|Actions(c, os, toClear)| % 2 == 0) == c.active
  {
    if os != [] { ActionsAlternate(c, os[..|os| - 1], toClear); }
  }

  // ----- when a condition is active, from any start ------------------------------------------------------------------

  /** How many healthy observations ended the sequence. */
  function GoodTail(os: seq<Observation>): nat {
    if os == [] || !os[|os| - 1].Good? then 0 else 1 + GoodTail(os[..|os| - 1])
  }

  /** The same, counting on from `h` if there were only healthy ones. */
  function TailFrom(h: nat, os: seq<Observation>): nat {
    if os == [] then h else if os[|os| - 1].Good? then 1 + TailFrom(h, os[..|os| - 1]) else 0
  }

  lemma {:induction false} TailFromMeaning(h: nat, os: seq<Observation>)
    ensures TailFrom(h, os) == GoodTail(os) + (if GoodTail(os) == |os| then h else 0) && GoodTail(os) <= |os|
  {
    if os != [] { TailFromMeaning(h, os[..|os| - 1]); }
  }

  /** There was a bad observation and never enough healthy ones in a row since. */
  ghost predicate BadSince(os: seq<Observation>, toClear: int, b: int) {
    0 <= b < |os| && os[b] == Bad && forall k :: b < k <= |os| ==> GoodTail(os[..k]) < toClear
  }

  /** It was active to begin with and there were never enough healthy observations, those before included. */
  ghost predicate ActiveSince(c: Condition, os: seq<Observation>, toClear: int) {
    c.active && forall k :: 0 < k <= |os| ==> TailFrom(c.healthy, os[..k]) < toClear
  }

  ghost predicate Latched(c: Condition, os: seq<Observation>, toClear: int) {
    ActiveSince(c, os, toClear) || exists b :: BadSince(os, toClear, b)
  }

  /** From any start a condition is active exactly if it is latched, and then the count is that of the last healthy
      observations. */
  lemma {:induction false} LatchedExactly(c: Condition, os: seq<Observation>, toClear: int)
    requires toClear > 0
    ensures var a := After(c, os, toClear);
            && (a.active <==> Latched(c, os, toClear)) && (a.active ==> a.healthy == TailFrom(c.healthy, os))
    decreases |os|
  {
    if os != [] {
      LatchedExactly(c, os[..|os| - 1], toClear);
      LatchedStep(c, os, toClear);
      hide Latched;
    }
  }

  /** A condition that is not active keeps its count, unless a pause was long or an observation of neither kind came;
      then it is zero. A count kept through a seeding shortens the next clearing. */
  lemma {:induction false} IdleCount(c: Condition, os: seq<Observation>, toClear: int)
    requires !c.active && Bad !in os
    ensures After(c, os, toClear) ==
            Condition(false, if forall i :: 0 <= i < |os| ==> os[i] == Good(false) then c.healthy else 0)
  {
    if os != [] {
      var rest, last := os[..|os| - 1], os[|os| - 1];
      assert os == rest + [last] && last in os && forall i :: 0 <= i < |rest| ==> os[i] == rest[i];
      IdleCount(c, rest, toClear);
    }
  }

  lemma LatchedStep(c: Condition, os: seq<Observation>, toClear: int)
    requires toClear > 0 && os != []
    ensures Latched(c, os, toClear) <==>
            os[|os| - 1] == Bad || (Latched(c, os[..|os| - 1], toClear) && TailFrom(c.healthy, os) < toClear)
  {
    var before, last := os[..|os| - 1], os[|os| - 1];
    assert os == before + [last];
    ActiveStep(c, before, last, toClear);
    BadStep(before, last, toClear);
    TailFromMeaning(c.healthy, os);
    if b :| BadSince(os, toClear, b) { BadTail(c.healthy, os, b); }
    if b :| BadSince(before, toClear, b) { BadTail(c.healthy, os, b); }
    hide ActiveSince, BadSince, GoodTail, TailFrom;
  }

  /** After a bad observation the count no longer reaches back to the start. */
  lemma {:induction false} BadTail(h: nat, os: seq<Observation>, b: nat)
    requires b < |os| && os[b] == Bad
    ensures TailFrom(h, os) == GoodTail(os)
  {
    var n := |os| - 1;
    if b < n { BadTail(h, os[..n], b); }
  }

  lemma ActiveStep(c: Condition, before: seq<Observation>, last: Observation, toClear: int)
    ensures var os := before + [last];
            ActiveSince(c, os, toClear) <==> ActiveSince(c, before, toClear) && TailFrom(c.healthy, os) < toClear
  {
    var os := before + [last];
    assert os[..|os|] == os;
    hide TailFrom;
    forall k | 0 < k <= |before| ensures os[..k] == before[..k] {}
    if ActiveSince(c, os, toClear) {
      forall k | 0 < k <= |before| ensures TailFrom(c.healthy, before[..k]) < toClear { assert os[..k] == before[..k]; }
      assert TailFrom(c.healthy, os[..|os|]) < toClear;
    }
    if ActiveSince(c, before, toClear) && TailFrom(c.healthy, os) < toClear {
      forall k | 0 < k <= |os| ensures TailFrom(c.healthy, os[..k]) < toClear {
        if k <= |before| { assert os[..k] == before[..k]; }
      }
    }
  }

  lemma BadStep(before: seq<Observation>, last: Observation, toClear: int)
    requires toClear > 0
    ensures var os := before + [last];
            (exists b :: BadSince(os, toClear, b)) <==>
            last == Bad || ((exists b :: BadSince(before, toClear, b)) && GoodTail(os) < toClear)
  {
    var os, n := before + [last], |before|;
    assert os[..|os|] == os;
    assert last == Bad ==> GoodTail(os) == 0;
    hide GoodTail;
    if b :| BadSince(os, toClear, b) {
      assert GoodTail(os[..|os|]) < toClear;
      if b < n {
        forall k | b < k <= n ensures GoodTail(before[..k]) < toClear { assert os[..k] == before[..k]; }
        assert BadSince(before, toClear, b);
      }
    }
    if last == Bad {
      assert BadSince(os, toClear, n);
    } else if b :| BadSince(before, toClear, b) {
      if GoodTail(os) < toClear {
        forall k | b < k <= |os| ensures GoodTail(os[..k]) < toClear { if k <= n { assert os[..k] == before[..k]; } }
        assert BadSince(os, toClear, b);
      }
    }
  }

  /** From any start, a healthy observation clears exactly if the condition is latched and the count is reached. */
  lemma ClearsExactly(c: Condition, os: seq<Observation>, toClear: int, o: Observation)
    requires toClear > 0 && o.Good?
    ensures Emits(After(c, os, toClear), o, toClear) == [Clear] <==>
            Latched(c, os, toClear) && TailFrom(c.healthy, os) + 1 >= toClear
  {
    LatchedExactly(c, os, toClear);
    hide Latched, After, TailFrom;
  }

  /** A clear at the end of these observations follows exactly the configured number of healthy ones among them. */
  ghost predicate ClearsInTime(c: Condition, os: seq<Observation>, toClear: int) {
    Emits(After(c, os, toClear), Good(false), toClear) == [Clear] ==> GoodTail(os) + 1 == toClear
  }

  /** Every clear of a stretch that begins at `c` follows the configured number of consecutive healthy observations of
      that stretch, exactly if the condition was not active, or no healthy observation was counted before, or one is
      enough. */
  lemma ClearsInTimeExactly(c: Condition, toClear: int)
    requires toClear > 0
    ensures (!c.active || c.healthy == 0 || toClear == 1) <==>
              forall os: seq<Observation> :: ClearsInTime(c, os, toClear)
  {
    if !c.active || c.healthy == 0 || toClear == 1 {
      forall os: seq<Observation> ensures ClearsInTime(c, os, toClear) { InTime(c, os, toClear); }
    } else {
      var n := if c.healthy + 1 >= toClear then 0 else toClear - 1 - c.healthy;
      Goods(c, n, toClear);
      assert !ClearsInTime(c, Healthy(n), toClear);
    }
  }

  lemma InTime(c: Condition, os: seq<Observation>, toClear: int)
    requires toClear > 0 && (!c.active || c.healthy == 0 || toClear == 1)
    ensures ClearsInTime(c, os, toClear)
  {
    ClearsExactly(c, os, toClear, Good(false));
    TailFromMeaning(c.healthy, os);
    assert os[..|os|] == os;
    if b :| BadSince(os, toClear, b) {
      BadTail(c.healthy, os, b);
      assert GoodTail(os[..|os|]) < toClear;
    }
    hide After, TailFrom, GoodTail;
    if ActiveSince(c, os, toClear) && os != [] { assert TailFrom(c.healthy, os[..|os|]) < toClear; }
    if os == [] { EmptyTails(c.healthy); }
  }

  lemma EmptyTails(h: nat)
    ensures GoodTail([]) == 0 && TailFrom(h, []) == h
  {
  }

  function Healthy(n: nat): seq<Observation> { seq(n, _ => Good(false)) }

  /** A run of healthy observations that does not reach the count leaves an active condition active. */
  lemma {:induction false} Goods(c: Condition, n: nat, toClear: int)
    requires c.active && (n == 0 || c.healthy + n < toClear)
    ensures After(c, Healthy(n), toClear) == Condition(true, c.healthy + n) && GoodTail(Healthy(n)) == n
    ensures Actions(c, Healthy(n), toClear) == []
  {
    if n > 0 {
      Goods(c, n - 1, toClear);
      assert Healthy(n)[..n - 1] == Healthy(n - 1);
    }
  }

  // ----- re-seeding --------------------------------------------------------------------------------------------------

  datatype Code = DryRun | ShortCycling | ContinuousRun

  /** What the loaded window says of a condition. */
  predicate SeedsActive(w: seq<Cycle>, code: Code)
    requires w != []
  {
    match code
    case DryRun => IsDryRun(w[|w| - 1])
    case ShortCycling => Streak(w) >= SHORT_COUNT
    case ContinuousRun => false
  }

  /** Dry if the newest cycle ran thirty seconds or more and lowered the water by less than five millimetres; short
      cycling if the newest five are each less than a minute apart. */
  lemma SeedsMeaning(w: seq<Cycle>)
    requires w != []
    ensures var last := w[|w| - 1]; SeedsActive(w, DryRun) <==> last.runS >= 30 && last.levelEnd - last.levelStart < 5
    ensures SeedsActive(w, ShortCycling) <==>
            |w| >= 5 && forall i :: |w| - 5 < i < |w| ==> w[i].start - (w[i - 1].start + w[i - 1].runS) < 60
  {
    ShortMeaning(w);
    hide Streak;
  }

  /** Loading one pump's window overwrites whether the device's condition is active, and keeps its count. */
  function Seeded(c: Condition, w: seq<Cycle>, code: Code): Condition {
    if w == [] || code == ContinuousRun then c else Condition(SeedsActive(w, code), c.healthy)
  }

  /** Detections go on alternating across a seeding whatever comes, exactly if the window it loads says of the
      condition what was so already. */
  lemma SeedAlternates(c: Condition, os: seq<Observation>, w: seq<Cycle>, code: Code, toClear: int)
    requires toClear > 0
    ensures var a := After(c, os, toClear);
            (w == [] || code == ContinuousRun || SeedsActive(w, code) == a.active) <==>
            forall more: seq<Observation> :: AlternatesAcross(c, os, Seeded(a, w, code), more, toClear)
  {
    hide After, Actions, SeedsActive;
    var a := After(c, os, toClear);
    var s := Seeded(a, w, code);
    if s.active == a.active {
      forall more: seq<Observation> ensures AlternatesAcross(c, os, s, more, toClear) {
        Across(c, os, s, more, toClear);
      }
    } else {
      var more := FirstAction(s, toClear);
      Across(c, os, s, more, toClear);
    }
  }

  ghost predicate AlternatesAcross(c: Condition, os: seq<Observation>, s: Condition, more: seq<Observation>,
                                   toClear: int) {
    Alternates(Actions(c, os, toClear) + Actions(s, more, toClear), c.active)
  }

  lemma Across(c: Condition, os: seq<Observation>, s: Condition, more: seq<Observation>, toClear: int)
    ensures AlternatesAcross(c, os, s, more, toClear) <==>
            Actions(s, more, toClear) == [] || s.active == After(c, os, toClear).active
  {
    ActionsAlternate(c, os, toClear);
    ActionsAlternate(s, more, toClear);
    hide Actions, After;
    JoinAlternates(Actions(c, os, toClear), Actions(s, more, toClear), c.active, s.active);
  }

  lemma JoinAlternates(a: seq<Action>, b: seq<Action>, first: bool, second: bool)
    requires Alternates(a, first) && Alternates(b, second)
    ensures Alternates(a + b, first) <==> b == [] || second == ((|a| % 2 == 0) == first)
  {
    if b != [] && second != ((|a| % 2 == 0) == first) {
      assert (a + b)[|a|] == b[0];
    } else {
      forall i | 0 <= i < |a + b| ensures (a + b)[i] == Raise <==> (i % 2 == 0) != first {
        if i >= |a| {
          assert (a + b)[i] == b[i - |a|];
          Parity(i, |a|);
        }
      }
    }
  }

  lemma Parity(i: int, n: int)
    ensures ((i - n) % 2 == 0) == ((i % 2 == 0) == (n % 2 == 0))
  {
  }

  /** From any state some observations lead to a detection. */
  lemma FirstAction(s: Condition, toClear: int) returns (more: seq<Observation>)
    requires toClear > 0
    ensures Actions(s, more, toClear) != []
  {
    if s.active {
      var n := if s.healthy + 1 >= toClear then 0 else toClear - 1 - s.healthy;
      Goods(s, n, toClear);
      more := Healthy(n) + [Good(false)];
      assert more[..n] == Healthy(n);
    } else {
      more := [Bad];
      assert more[..0] == [];
    }
  }

  /** The two failures in one history: a dry primary run is raised and, after three healthy ones, cleared; the backup's
      window is then loaded from a dry stored run; one healthy run clears again. */
  lemma SeedClearsTwice(w: seq<Cycle>)
    requires w != [] && IsDryRun(w[|w| - 1])
    ensures var os := [Bad, Good(false), Good(false), Good(false)];
            var a := After(Condition(false, 0), os, 3);
            var s := Seeded(a, w, DryRun);
            && Actions(Condition(false, 0), os, 3) == [Raise, Clear] && a == Condition(false, 3)
            && s == Condition(true, 3) && Actions(s, [Good(false)], 3) == [Clear] && !ClearsInTime(s, [], 3)
  {
    var c, g := Condition(false, 0), Good(false);
    ActionsSnoc(c, [], Bad, 3);
    ActionsSnoc(c, [Bad], g, 3);
    ActionsSnoc(c, [Bad, g], g, 3);
    ActionsSnoc(c, [Bad, g, g], g, 3);
    assert [] + [Bad] == [Bad] && [Bad] + [g] == [Bad, g] && [Bad, g] + [g] == [Bad, g, g];
    assert [Bad, g, g] + [g] == [Bad, g, g, g];
    var s := Condition(true, 3);
    ActionsSnoc(s, [], g, 3);
    assert [] + [g] == [g];
    EmptyTails(0);
  }

  lemma ActionsSnoc(c: Condition, os: seq<Observation>, o: Observation, toClear: int)
    ensures After(c, os + [o], toClear) == Observe(After(c, os, toClear), o, toClear)
    ensures Actions(c, os + [o], toClear) == Actions(c, os, toClear) + Emits(After(c, os, toClear), o, toClear)
    ensures After(c, [], toClear) == c && Actions(c, [], toClear) == []
  {
    assert (os + [o])[..|os|] == os;
  }
}
