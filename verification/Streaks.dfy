/** Short cycling in a window of pump runs (internal/hydrology/hydrology.go, internal/detector/detector.go). */
module Streaks {

  datatype Cycle = Cycle(start: int, runS: int, levelStart: int, levelEnd: int, pump: int)

  const SHORT_GAP := 60
  const SHORT_COUNT := 5

  function EndedAt(c: Cycle): int { c.start + c.runS }

  /** The cycle began less than the gap after the one before it ended. */
  predicate Close(w: seq<Cycle>, i: int)
    requires 0 < i < |w|
  {
    w[i].start - EndedAt(w[i - 1]) < SHORT_GAP
  }

  /** The length of the trailing run of close cycles. */
  function Streak(w: seq<Cycle>): (n: nat)
    ensures n <= |w| && (w != [] ==> n > 0)
  {
    if |w| <= 1 then |w| else if Close(w, |w| - 1) then 1 + Streak(w[..|w| - 1]) else 1
  }

  method ShortCyclingRun(w: seq<Cycle>) returns (run: nat)
    ensures run == Streak(w)
  {
    var n := |w|;
    if n == 0 { return 0; }
    run := 1;
    var i := n - 1;
    assert w[..i + 1] == w;
    while i > 0
      invariant 0 <= i < n && run == n - i && Streak(w) == run - 1 + Streak(w[..i + 1])
    {
      assert w[..i + 1][..i] == w[..i];
      if w[i].start - EndedAt(w[i - 1]) >= SHORT_GAP {
        assert !Close(w[..i + 1], i);
        return;
      }
      assert Close(w[..i + 1], i);
      run := run + 1;
      i := i - 1;
    }
  }

  /** The streak is the longest close suffix. */
  lemma {:induction false} StreakMeaning(w: seq<Cycle>, n: nat)
    requires 0 < n <= |w|
    ensures Streak(w) >= n <==> forall i :: |w| - n < i < |w| ==> Close(w, i)
  {
    var k := |w| - 1;
    if n > 1 && Close(w, k) {
      StreakMeaning(w[..k], n - 1);
      assert forall i :: 0 < i < k ==> (Close(w[..k], i) <==> Close(w, i));
    }
  }

  /** What a cycle or a summary says about a condition. A healthy observation may also reset the count of a condition
      that is not active. */
  datatype Observation = Bad | Good(resets: bool) | Neither

  /** What the window says when a cycle has been added to it. */
  function ShortObservation(w: seq<Cycle>): Observation {
    if Streak(w) >= SHORT_COUNT then Bad else if Streak(w) == 1 then Good(true) else Neither
  }

  /** Bad from the fifth of five runs on, each less than a minute after the one before; good if the last pause was a
      minute or more, or there was none before. */
  lemma ShortMeaning(w: seq<Cycle>)
    ensures var o := ShortObservation(w);
            && (o == Bad <==>
                |w| >= 5 && forall i :: |w| - 5 < i < |w| ==> w[i].start - (w[i - 1].start + w[i - 1].runS) < 60)
            && (o == Good(true) <==> w != [] && (|w| == 1 || w[|w| - 1].start - EndedAt(w[|w| - 2]) >= 60))
            && !(o == Good(false))
  {
    if |w| >= 5 {
      StreakMeaning(w, 5);
      assert forall i :: |w| - 5 < i < |w| ==>
               (Close(w, i) <==> w[i].start - (w[i - 1].start + w[i - 1].runS) < 60);
    }
    if |w| >= 2 {
      StreakMeaning(w, 2);
      assert Close(w, |w| - 1) <==> w[|w| - 1].start - EndedAt(w[|w| - 2]) < 60;
    }
    hide Streak, Close;
  }

  // ----- bounded windows -----------------------------------------------------------------------------------------

  /** The last `size` cycles. */
  function Latest(all: seq<Cycle>, size: nat): seq<Cycle> { if |all| > size then all[|all| - size..] else all }

  /** A suffix sees the streak up to its own length. */
  lemma {:induction false} WindowStreak(all: seq<Cycle>, size: nat)
    requires 0 < size <= |all|
    ensures Streak(all[|all| - size..]) == if Streak(all) < size then Streak(all) else size
  {
    var w := all[|all| - size..];
    if size > 1 {
      var k := |all| - 1;
      assert Close(w, size - 1) <==> Close(all, k);
      WindowStreak(all[..k], size - 1);
      assert w[..size - 1] == all[..k][k - (size - 1)..];
    }
  }

  ghost predicate SameVerdict(all: seq<Cycle>, size: nat) {
    ShortObservation(Latest(all, size)) == ShortObservation(all)
  }

  /** The latest cycles give the verdict of all history, for every history, exactly if the window holds at least as
      many cycles as the verdict needs. */
  lemma WindowVerdict(size: nat)
    requires size > 0
    ensures size >= SHORT_COUNT <==> forall all: seq<Cycle> :: SameVerdict(all, size)
  {
    hide SameVerdict;
    if size >= SHORT_COUNT {
      forall all: seq<Cycle> ensures SameVerdict(all, size) { BigWindow(all, size); }
    } else {
      var all := SmallWindow(size);
    }
  }

  lemma BigWindow(all: seq<Cycle>, size: nat)
    requires size >= SHORT_COUNT
    ensures SameVerdict(all, size)
  {
    if size <= |all| {
      WindowStreak(all, size);
      assert Latest(all, size) == all[|all| - size..];
    }
    hide Streak;
  }

  lemma SmallWindow(size: nat) returns (all: seq<Cycle>)
    requires 0 < size < SHORT_COUNT
    ensures !SameVerdict(all, size)
  {
    all := seq(SHORT_COUNT, _ => Cycle(0, 0, 0, 0, 0));
    StreakMeaning(all, SHORT_COUNT);
    hide Streak;
    assert |Latest(all, size)| == size;
  }

  /** Appending to a bounded window keeps it the latest cycles. */
  lemma LatestGrows(all: seq<Cycle>, size: nat, c: Cycle)
    requires size > 0
    ensures Latest(Latest(all, size) + [c], size) == Latest(all + [c], size)
  {
  }

  // ----- windows loaded from the database --------------------------------------------------------------------------

  /** A pump's cycles among a device's. */
  function PumpOf(h: seq<Cycle>, pump: int): seq<Cycle> {
    if h == [] then [] else
    PumpOf(h[..|h| - 1], pump) + (if h[|h| - 1].pump == pump then [h[|h| - 1]] else [])
  }

  /** The query's answer: the device's latest cycles, newest first. */
  function Newest(h: seq<Cycle>, limit: nat): seq<Cycle> { Reversed(Latest(h, limit)) }

  function Reversed(s: seq<Cycle>): seq<Cycle> { if s == [] then [] else [s[|s| - 1]] + Reversed(s[..|s| - 1]) }

  /** The pump's cycles of a newest-first list, oldest first. */
  function OfPump(before: seq<Cycle>, pump: int): seq<Cycle> {
    if before == [] then [] else
    (if before[|before| - 1].pump == pump then [before[|before| - 1]] else []) + OfPump(before[..|before| - 1], pump)
  }

  method LoadWindow(before: seq<Cycle>, pump: int) returns (w: seq<Cycle>)
    ensures w == OfPump(before, pump)
  {
    w := [];
    var i := |before|;
    assert before[..i] == before;
    while i > 0
      invariant 0 <= i <= |before| && w + OfPump(before[..i], pump) == OfPump(before, pump)
    {
      i := i - 1;
      assert before[..i + 1][..i] == before[..i];
      ghost var rest := OfPump(before[..i], pump);
      if before[i].pump == pump {
        assert w + ([before[i]] + rest) == w + [before[i]] + rest;
        w := w + [before[i]];
      } else {
        assert [] + rest == rest;
      }
    }
    assert before[..0] == [] && w + [] == w;
  }

  lemma {:induction false} OfPumpFirst(x: Cycle, before: seq<Cycle>, pump: int)
    ensures OfPump([x] + before, pump) == OfPump(before, pump) + (if x.pump == pump then [x] else [])
  {
    hide OfPump;
    var none: seq<Cycle> := [];
    OfPumpLast(none, x, pump);
    if before == [] {
      assert [x] + before == none + [x];
    } else {
      var n := |before| - 1;
      var front, y := before[..n], before[n];
      OfPumpFirst(x, front, pump);
      assert before == front + [y] && [x] + before == ([x] + front) + [y];
      OfPumpLast(front, y, pump);
      OfPumpLast([x] + front, y, pump);
    }
  }

  lemma OfPumpLast(s: seq<Cycle>, y: Cycle, pump: int)
    ensures OfPump(s + [y], pump) == (if y.pump == pump then [y] else []) + OfPump(s, pump)
    ensures OfPump([], pump) == []
  {
    assert (s + [y])[..|s|] == s;
  }

  /** Loading reads the pump's cycles among the device's latest, in order. */
  lemma {:induction false} LoadedIs(h: seq<Cycle>, pump: int)
    ensures OfPump(Reversed(h), pump) == PumpOf(h, pump)
  {
    if h != [] {
      var n := |h| - 1;
      LoadedIs(h[..n], pump);
      OfPumpFirst(h[n], Reversed(h[..n]), pump);
    }
  }

  lemma {:induction false} PumpOfJoin(a: seq<Cycle>, b: seq<Cycle>, pump: int)
    ensures PumpOf(a + b, pump) == PumpOf(a, pump) + PumpOf(b, pump)
  {
    if b == [] {
      assert a + b == a;
    } else {
      var n := |b| - 1;
      PumpOfJoin(a, b[..n], pump);
      assert (a + b)[..|a| + n] == a + b[..n];
    }
  }

  lemma {:induction false} PumpOfSize(h: seq<Cycle>, pump: int)
    ensures |PumpOf(h, pump)| <= |h|
  {
    if h != [] { PumpOfSize(h[..|h| - 1], pump); }
  }

  /** So a loaded window is a suffix of the pump's history, at most as long as the limit. */
  lemma LoadedSuffix(h: seq<Cycle>, limit: nat, pump: int)
    ensures var w, all := OfPump(Newest(h, limit), pump), PumpOf(h, pump);
            |w| <= |all| && |w| <= limit && w == all[|all| - |w|..]
  {
    var tail := Latest(h, limit);
    LoadedIs(tail, pump);
    PumpOfSize(tail, pump);
    var head := h[..|h| - |tail|];
    assert h == head + tail;
    PumpOfJoin(head, tail, pump);
  }

  lemma {:induction false} StreakGrows(h: seq<Cycle>, cs: seq<Cycle>)
    ensures Streak(h + cs) <= Streak(h) + |cs|
  {
    if cs == [] {
      assert h + cs == h;
    } else {
      var n := |cs| - 1;
      StreakGrows(h, cs[..n]);
      assert (h + cs)[..|h| + n] == h + cs[..n];
    }
  }

  /** The window of the last `m` cycles, after more of them, gives the verdict of all history. */
  ghost predicate StillSame(h: seq<Cycle>, m: nat, cs: seq<Cycle>, size: nat)
    requires m <= |h|
  {
    ShortObservation(Latest(h[|h| - m..] + cs, size)) == ShortObservation(h + cs)
  }

  lemma LatestSuffix(h: seq<Cycle>, m: nat, cs: seq<Cycle>, size: nat)
    requires m <= |h| && m <= size
    ensures var all, k := h + cs, if m + |cs| < size then m + |cs| else size;
            Latest(h[|h| - m..] + cs, size) == all[|all| - k..]
  {
  }

  lemma EnoughLoaded(h: seq<Cycle>, m: nat, cs: seq<Cycle>, size: nat)
    requires m <= |h| && m <= size && size >= SHORT_COUNT && cs != [] && (m >= SHORT_COUNT - 1 || Streak(h) <= m)
    ensures StillSame(h, m, cs, size)
  {
    hide Streak, Latest, ShortObservation;
    var all := h + cs;
    var k := if m + |cs| < size then m + |cs| else size;
    LatestSuffix(h, m, cs, size);
    StreakGrows(h, cs);
    SuffixSame(all, k);
  }

  /** A suffix that holds five cycles, or the whole streak, gives the verdict of the whole. */
  lemma SuffixSame(all: seq<Cycle>, k: nat)
    requires 0 < k <= |all| && (k >= SHORT_COUNT || Streak(all) <= k)
    ensures ShortObservation(all[|all| - k..]) == ShortObservation(all)
  {
    hide Streak;
    WindowStreak(all, k);
  }

  /** Cycles without a pause at the end of a history. */
  function Burst(at: int, n: nat): seq<Cycle> { seq(n, _ => Cycle(at, 0, 0, 0, 0)) }

  lemma {:induction false} BurstStreak(h: seq<Cycle>, n: nat)
    requires h != []
    ensures Streak(h + Burst(EndedAt(h[|h| - 1]), n)) == Streak(h) + n
  {
    var at := EndedAt(h[|h| - 1]);
    var all := h + Burst(at, n);
    if n == 0 {
      assert all == h;
    } else {
      BurstStreak(h, n - 1);
      assert all[..|all| - 1] == h + Burst(at, n - 1);
      assert EndedAt(all[|all| - 2]) == at;
      assert Close(all, |all| - 1);
    }
  }

  lemma TooLittleLoaded(h: seq<Cycle>, m: nat, size: nat) returns (cs: seq<Cycle>)
    requires m <= |h| && size >= SHORT_COUNT && m < SHORT_COUNT - 1 && Streak(h) > m
    ensures cs != [] && !StillSame(h, m, cs, size)
  {
    hide Streak;
    var t := if Streak(h) >= SHORT_COUNT - 1 then 1 else SHORT_COUNT - Streak(h);
    cs := Burst(EndedAt(h[|h| - 1]), t);
    BurstStreak(h, t);
    hide Burst;
    BurstSize(EndedAt(h[|h| - 1]), t);
    var w, all := h[|h| - m..], h + cs;
    assert w + cs == all[|all| - (m + t)..];
    WindowStreak(all, m + t);
  }

  lemma BurstSize(at: int, n: nat)
    ensures |Burst(at, n)| == n
  {
  }

  /** A loaded window of `m` cycles gives the verdict of the pump's whole history from then on, exactly if it holds
      four cycles or the pump's whole current streak. */
  lemma LoadedVerdict(h: seq<Cycle>, m: nat, size: nat)
    requires m <= |h| && m <= size && size >= SHORT_COUNT
    ensures (m >= SHORT_COUNT - 1 || Streak(h) <= m) <==>
            forall cs: seq<Cycle> :: cs != [] ==> StillSame(h, m, cs, size)
  {
    hide StillSame, Streak;
    if m >= SHORT_COUNT - 1 || Streak(h) <= m {
      forall cs: seq<Cycle> | cs != [] ensures StillSame(h, m, cs, size) { EnoughLoaded(h, m, cs, size); }
    } else {
      var cs := TooLittleLoaded(h, m, size);
    }
  }

  lemma {:induction false} NoneOfPump(h: seq<Cycle>, pump: int)
    requires forall i :: 0 <= i < |h| ==> h[i].pump != pump
    ensures PumpOf(h, pump) == []
  {
    if h != [] { NoneOfPump(h[..|h| - 1], pump); }
  }

  /** Nine backup cycles during one long primary run push the primary's streak out of the ten cycles that are read:
      its fifth close cycle goes unnoticed. */
  lemma BackupsHideStreak() returns (h: seq<Cycle>, c: Cycle)
    ensures var w, all := OfPump(Newest(h, 10), 0), PumpOf(h, 0);
            && Streak(all) == 4 && Streak(all + [c]) == 5 && |w| == 1
            && ShortObservation(all + [c]) == Bad && ShortObservation(w + [c]) == Neither
  {
    var four := [Cycle(0, 10, 0, 0, 0), Cycle(20, 10, 0, 0, 0), Cycle(40, 10, 0, 0, 0), Cycle(60, 1000, 0, 0, 0)];
    var nine := seq(9, k => Cycle(100 + 50 * k, 10, 0, 0, 1));
    h, c := four + nine, Cycle(1070, 10, 0, 0, 0);
    var long := four[3];
    FourPrimaries(four);
    NoneOfPump(nine, 0);
    PumpOfJoin(four, nine, 0);
    assert four + [] == four;
    assert Latest(h, 10) == [long] + nine;
    LoadedIs(Latest(h, 10), 0);
    PumpOfJoin([long], nine, 0);
    OnePrimary(long);
    assert [long] + [] == [long];
    FiveClose(four, c);
    hide PumpOf, OfPump, Reversed, Streak;
  }

  lemma OnePrimary(c: Cycle)
    requires c.pump == 0
    ensures PumpOf([c], 0) == [c]
  {
    assert [c][..0] == [];
  }

  lemma FourPrimaries(s: seq<Cycle>)
    requires |s| == 4 && forall i :: 0 <= i < 4 ==> s[i].pump == 0
    ensures PumpOf(s, 0) == s
  {
    hide PumpOf;
    OnePrimary(s[0]);
    OnePrimary(s[1]);
    OnePrimary(s[2]);
    OnePrimary(s[3]);
    PumpOfJoin([s[0]], [s[1]], 0);
    PumpOfJoin([s[0]] + [s[1]], [s[2]], 0);
    PumpOfJoin([s[0]] + [s[1]] + [s[2]], [s[3]], 0);
    assert s == [s[0]] + [s[1]] + [s[2]] + [s[3]];
  }

  lemma FiveClose(four: seq<Cycle>, c: Cycle)
    requires |four| == 4 && forall i :: 0 < i < 4 ==> Close(four, i)
    requires c.start - EndedAt(four[3]) < SHORT_GAP
    ensures Streak(four) == 4 && Streak(four + [c]) == 5 && Streak([four[3]] + [c]) == 2
  {
    StreakMeaning(four, 4);
    var all := four + [c];
    assert forall i :: 0 < i < 4 ==> (Close(all, i) <==> Close(four, i));
    assert Close(all, 4);
    StreakMeaning(all, 5);
    var two := [four[3]] + [c];
    assert Close(two, 1);
    StreakMeaning(two, 2);
    hide Streak;
  }
}
