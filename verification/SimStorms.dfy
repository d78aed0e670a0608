/** The simulator's own storm finder (findStorms in internal/sim/truth.go): it scans one sample per
    virtual minute and agrees with the analytics' segmentation of the same series. */
module SimStorms {
  import opened Rain
  import opened Storms

  const MINUTE := 60_000_000_000
  const GAP_MIN := 360

  /** A storm in minutes from the start of the run; `rainEnd` is its last wet minute. */
  datatype Window = Window(firstRain: int, onset: int, rainEnd: int, total: real, peak: real)

  const NO_STORM := Window(-1, -1, 0, 0.0, 0.0)

  /** Minute m of the run as the rain interval the analytics sees; samples are mm/h. */
  function Minute(t0: int, m: int, mmh: real): Interval { Interval(t0 + m * MINUTE, MINUTE, mmh / 60.0) }

  function Series(t0: int, rain: seq<real>): seq<Interval> {
    seq(|rain|, m requires 0 <= m < |rain| => Minute(t0, m, rain[m]))
  }

  /** An analytics storm in the simulator's convention: the rain end is a minute, not its end. */
  function InMinutes(t0: int, s: Storm): Window {
    Window((s.firstRain - t0) / MINUTE, (s.onset - t0) / MINUTE, (s.rainEnd - t0) / MINUTE - 1, s.total, s.peak)
  }

  lemma MinuteIntensity(t0: int, m: int, mmh: real)
    ensures Minute(t0, m, mmh).Intensity() == mmh && (Minute(t0, m, mmh).Wet() <==> mmh > 0.0)
  {
    assert MINUTE as real / HOUR as real == 1.0 / 60.0;
  }

  // ----- the scan's state, against the analytics' runs -----------------------------------------------

  /** A run as the scan records it: no onset until a minute reaches 1 mm/h. */
  ghost function Raw(t0: int, g: Group): Window {
    InMinutes(t0, Describe(g, true)).(onset := if AnyStrong(g) then (OnsetOf(g) - t0) / MINUTE else -1)
  }

  ghost function RawClosed(t0: int, gs: seq<Group>): seq<Window> {
    if gs == [] then []
    else
      var n := |gs| - 1;
      if Total(gs[n]) >= MIN_TOTAL then RawClosed(t0, gs[..n]) + [Raw(t0, gs[n])] else RawClosed(t0, gs[..n])
  }

  /** The scan after minute m: the open run ends with wet minute `lastRain`, less than six hours ago;
      or every run has been flushed and the newest is at least six hours back. */
  ghost predicate Tracks(t0: int, m: int, gs: seq<Group>, cur: Window, lastRain: int, out: seq<Window>) {
    if lastRain >= 0 then
      && gs != [] && m - 1 - lastRain < GAP_MIN && lastRain < m
      && MaxEnd(gs[|gs| - 1]) == t0 + (lastRain + 1) * MINUTE
      && cur == Raw(t0, gs[|gs| - 1])
      && cur.firstRain >= 0
      && out == RawClosed(t0, gs[..|gs| - 1])
    else
      && cur == NO_STORM
      && out == RawClosed(t0, gs)
      && (gs != [] ==> MaxEnd(gs[|gs| - 1]) + GAP <= t0 + m * MINUTE)
  }

  lemma RawSnoc(t0: int, gs: seq<Group>)
    requires gs != []
    ensures var n := |gs| - 1;
            RawClosed(t0, gs) ==
            if Total(gs[n]) >= MIN_TOTAL then RawClosed(t0, gs[..n]) + [Raw(t0, gs[n])] else RawClosed(t0, gs[..n])
  {
  }

  function Wetter(cur: Window, m: int, mmh: real): Window {
    Window(if cur.firstRain < 0 then m else cur.firstRain,
           if cur.onset < 0 && mmh >= 1.0 then m else cur.onset,
           m, cur.total + mmh / 60.0, if mmh > cur.peak then mmh else cur.peak)
  }

  lemma StartRun(t0: int, m: nat, mmh: real)
    requires mmh > 0.0
    ensures var r := Minute(t0, m, mmh);
            Raw(t0, [r]) == Wetter(NO_STORM, m, mmh) && MaxEnd([r]) == t0 + (m + 1) * MINUTE
  {
    var r := Minute(t0, m, mmh);
    MinuteIntensity(t0, m, mmh);
    FirstOfGroup(r);
    assert r in [r];
  }

  lemma GrowRun(t0: int, m: nat, mmh: real, g: Group)
    requires mmh > 0.0 && g[0].start >= t0 && MaxEnd(g) <= t0 + m * MINUTE
    requires AnyStrong(g) ==> OnsetOf(g) >= t0
    requires Raw(t0, g).firstRain >= 0
    ensures var r := Minute(t0, m, mmh);
            Raw(t0, g + [r]) == Wetter(Raw(t0, g), m, mmh) && MaxEnd(g + [r]) == t0 + (m + 1) * MINUTE
  {
    hide OnsetOf, PeakOf, Total, AnyStrong, MaxEnd;
    var r := Minute(t0, m, mmh);
    MinuteIntensity(t0, m, mmh);
    Extended(g, r);
  }

  lemma RunTimes(t0: int, rain: seq<real>, k: nat)
    requires k < |Groups(WetOnly(Series(t0, rain)))|
    ensures var g := Groups(WetOnly(Series(t0, rain)))[k]; g[0].start >= t0 && OnsetOf(g) >= t0
  {
    hide Groups, WetOnly, OnsetOf, Flatten, Segmentation;
    var w := WetOnly(Series(t0, rain));
    var g := Groups(w)[k];
    GroupsAreSegmentation(w);
    OnsetIsStart(g);
    var x: Interval :| x in g && x.start == OnsetOf(g);
    forall y: Interval | y in g ensures y.start >= t0 {
      FlattenMember(Groups(w), k, y);
      WetMember(Series(t0, rain), y);
    }
    assert g[0] in g;
  }

  lemma WetMinute(t0: int, m: nat, mmh: real, gs: seq<Group>, cur: Window, lastRain: int, out: seq<Window>)
    requires mmh > 0.0 && Tracks(t0, m, gs, cur, lastRain, out)
    requires lastRain >= 0 ==> gs[|gs| - 1][0].start >= t0 && OnsetOf(gs[|gs| - 1]) >= t0
    ensures Tracks(t0, m + 1, Join(gs, Minute(t0, m, mmh)), Wetter(cur, m, mmh), m, out)
  {
    hide OnsetOf, PeakOf, Total, AnyStrong, MaxEnd, RawClosed;
    var r := Minute(t0, m, mmh);
    var gs' := Join(gs, r);
    if lastRain >= 0 {
      GrowRun(t0, m, mmh, gs[|gs| - 1]);
      assert gs'[..|gs'| - 1] == gs[..|gs| - 1];
    } else {
      StartRun(t0, m, mmh);
      assert gs'[..|gs'| - 1] == gs;
    }
  }

  method FindStorms(rain: seq<real>, ghost t0: int, ghost horizon: int) returns (out: seq<Window>)
    ensures var storms := Segment(Series(t0, rain), horizon);
            && |out| == |storms|
            && forall i :: 0 <= i < |out| ==> out[i] == InMinutes(t0, storms[i])
  {
    hide Groups, WetOnly, Join, MaxEnd, Raw, Total;
    out := [];
    var cur, lastRain := NO_STORM, -1;
    ghost var gs: seq<Group> := [];
    assert Series(t0, rain[..0]) == [];
    EmptyGroups();
    for m := 0 to |rain|
      invariant gs == Groups(WetOnly(Series(t0, rain[..m])))
      invariant Tracks(t0, m, gs, cur, lastRain, out)
    {
      MinuteStep(t0, rain, m);
      if rain[m] <= 0.0 {
        if lastRain >= 0 && m - lastRain >= GAP_MIN {
          RawSnoc(t0, gs);
          TotalOfRaw(t0, gs[|gs| - 1]);
          out := Flushed(out, cur);
          cur, lastRain := NO_STORM, -1;
        }
      } else {
        if lastRain >= 0 { RunTimes(t0, rain[..m], |gs| - 1); }
        WetMinute(t0, m, rain[m], gs, cur, lastRain, out);
        gs := Join(gs, Minute(t0, m, rain[m]));
        cur := Wetter(cur, m, rain[m]);
        lastRain := m;
      }
    }
    assert rain[..|rain|] == rain;
    if gs != [] {
      RawSnoc(t0, gs);
      TotalOfRaw(t0, gs[|gs| - 1]);
    }
    out := Flushed(out, cur);
    assert out == RawClosed(t0, gs);
    forall k | 0 <= k < |gs| ensures gs[k][0].start >= t0 && OnsetOf(gs[k]) >= t0 { RunTimes(t0, rain, k); }
    RawMeansReported(t0, gs, horizon);
    ghost var raw := out;
    for i := 0 to |out|
      invariant |out| == |raw|
      invariant forall j :: i <= j < |out| ==> out[j] == raw[j]
      invariant forall j :: 0 <= j < i ==> out[j] == Fixed(raw[j])
    {
      out := out[i := Fixed(out[i])];
    }
  }

  /** A storm that never reached 1 mm/h takes its first rain as onset. */
  function Fixed(w: Window): Window { if w.onset < 0 then w.(onset := w.firstRain) else w }

  function Flushed(out: seq<Window>, cur: Window): seq<Window> {
    if cur.firstRain >= 0 && cur.total >= MIN_TOTAL then out + [cur] else out
  }

  lemma TotalOfRaw(t0: int, g: Group)
    ensures Raw(t0, g).total == Total(g)
  {
  }

  lemma MinuteStep(t0: int, rain: seq<real>, m: nat)
    requires m < |rain|
    ensures Groups(WetOnly(Series(t0, rain[..m + 1]))) ==
            (if rain[m] > 0.0 then Join(Groups(WetOnly(Series(t0, rain[..m]))), Minute(t0, m, rain[m]))
             else Groups(WetOnly(Series(t0, rain[..m]))))
  {
    hide WetOnly, Groups, Join;
    var s, r := Series(t0, rain[..m]), Minute(t0, m, rain[m]);
    assert Series(t0, rain[..m + 1]) == s + [r];
    MinuteIntensity(t0, m, rain[m]);
    WetSnoc(s, r);
    GroupsStep(WetOnly(s), r);
  }

  lemma RawIsReported(t0: int, g: Group, closed: bool)
    requires g[0].start >= t0 && OnsetOf(g) >= t0
    ensures Fixed(Raw(t0, g)) == InMinutes(t0, Describe(g, closed))
  {
    hide PeakOf, Total, MaxEnd;
    if !AnyStrong(g) { WeakRun(g); }
  }

  lemma {:induction false} WeakRun(g: Group)
    requires !AnyStrong(g)
    ensures OnsetOf(g) == g[0].start
  {
    if |g| > 1 {
      var n := |g| - 1;
      assert g == g[..n] + [g[n]];
      assert g[n] in g && forall x <- g[..n] :: x in g;
      WeakRun(g[..n]);
    }
  }

  /** The i-th window of the scan, repaired, is the i-th storm in minutes. */
  ghost predicate Matches(t0: int, raw: seq<Window>, storms: seq<Storm>) {
    |raw| == |storms| && forall i :: 0 <= i < |storms| ==> Fixed(raw[i]) == InMinutes(t0, storms[i])
  }

  lemma MatchesSnoc(t0: int, raw: seq<Window>, storms: seq<Storm>, w: Window, s: Storm)
    requires Matches(t0, raw, storms) && Fixed(w) == InMinutes(t0, s)
    ensures Matches(t0, raw + [w], storms + [s])
  {
    hide Fixed, InMinutes;
  }

  lemma {:induction false} RawMeansClosed(t0: int, gs: seq<Group>)
    requires forall k :: 0 <= k < |gs| ==> gs[k][0].start >= t0 && OnsetOf(gs[k]) >= t0
    ensures Matches(t0, RawClosed(t0, gs), AllClosed(gs))
  {
    if gs != [] {
      hide Raw, Describe, OnsetOf, Total, InMinutes, Matches;
      var n := |gs| - 1;
      RawMeansClosed(t0, gs[..n]);
      RawIsReported(t0, gs[n], true);
      MatchesSnoc(t0, RawClosed(t0, gs[..n]), AllClosed(gs[..n]), Raw(t0, gs[n]), Describe(gs[n], true));
    } else {
      assert Matches(t0, [], []);
    }
  }

  lemma RawMeansReported(t0: int, gs: seq<Group>, horizon: int)
    requires forall k :: 0 <= k < |gs| ==> gs[k][0].start >= t0 && OnsetOf(gs[k]) >= t0
    ensures Matches(t0, RawClosed(t0, gs), Report(gs, horizon))
  {
    if gs != [] {
      hide Raw, Describe, OnsetOf, Total, MaxEnd, InMinutes, Matches;
      var n := |gs| - 1;
      var closed := horizon >= MaxEnd(gs[n]) + GAP;
      RawMeansClosed(t0, gs[..n]);
      RawIsReported(t0, gs[n], closed);
      MatchesSnoc(t0, RawClosed(t0, gs[..n]), AllClosed(gs[..n]), Raw(t0, gs[n]), Describe(gs[n], closed));
    } else {
      assert Matches(t0, [], []);
    }
  }
}
