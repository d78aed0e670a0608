/** Storm segmentation of a rain series (SegmentStorms in internal/hydrology/storm.go). */
module Storms {
  import opened Common
  import opened Rain

  const GAP := 6 * HOUR
  const MIN_TOTAL := 5.0
  const ONSET_MIN := 1.0

  datatype Storm = Storm(firstRain: int, onset: int, rainEnd: int, total: real, peak: real, closed: bool)

  type Group = g: seq<Interval> | g != [] witness [Interval(0, 0, 0.0)]

  // ----- what a storm is ----------------------------------------------------------------------

  function WetOnly(rain: seq<Interval>): seq<Interval> {
    if rain == [] then []
    else
      var n := |rain| - 1;
      if rain[n].Wet() then WetOnly(rain[..n]) + [rain[n]] else WetOnly(rain[..n])
  }

  lemma {:induction false} WetMember(rain: seq<Interval>, r: Interval)
    ensures r in WetOnly(rain) <==> r in rain && r.Wet()
  {
    if rain != [] {
      var n := |rain| - 1;
      assert rain == rain[..n] + [rain[n]];
      WetMember(rain[..n], r);
    }
  }

  function MaxEnd(g: Group): (t: int)
    ensures forall r <- g :: r.End() <= t
    ensures exists r <- g :: r.End() == t
  {
    var n := |g| - 1;
    assert g == g[..n] + [g[n]];
    if n == 0 then g[0].End() else Max(MaxEnd(g[..n]), g[n].End())
  }

  lemma LatestOf(g: Group) returns (x: Interval)
    ensures x in g && x.End() == MaxEnd(g)
  {
    var n := |g| - 1;
    x := g[n];
    if n > 0 && MaxEnd(g[..n]) > g[n].End() { x := LatestOf(g[..n]); }
  }

  predicate Strong(r: Interval) { r.Intensity() >= ONSET_MIN }

  predicate AnyStrong(g: seq<Interval>) { exists r <- g :: Strong(r) }

  /** Start of the first interval at or above the onset intensity; of the first one if none is. */
  function OnsetOf(g: Group): int {
    var n := |g| - 1;
    if n == 0 then g[0].start
    else if !AnyStrong(g[..n]) && Strong(g[n]) then g[n].start
    else OnsetOf(g[..n])
  }

  function PeakOf(g: seq<Interval>): real {
    if g == [] then 0.0
    else
      var rest, x := PeakOf(g[..|g| - 1]), g[|g| - 1].Intensity();
      if x > rest then x else rest
  }

  function Describe(g: Group, closed: bool): Storm {
    Storm(g[0].start, OnsetOf(g), MaxEnd(g), Total(g), PeakOf(g), closed)
  }

  /** Wet intervals in runs: a new run starts after a dry gap of six hours or more. */
  function Groups(wet: seq<Interval>): seq<Group> {
    if wet == [] then []
    else
      var n := |wet| - 1;
      Join(Groups(wet[..n]), wet[n])
  }

  function Join(gs: seq<Group>, r: Interval): seq<Group> {
    if gs == [] || r.start - MaxEnd(gs[|gs| - 1]) >= GAP then gs + [[r]]
    else gs[..|gs| - 1] + [gs[|gs| - 1] + [r]]
  }

  function Reported(g: Group, closed: bool): seq<Storm> {
    if Total(g) >= MIN_TOTAL then [Describe(g, closed)] else []
  }

  function AllClosed(gs: seq<Group>): seq<Storm> {
    if gs == [] then [] else AllClosed(gs[..|gs| - 1]) + Reported(gs[|gs| - 1], true)
  }

  /** Every run with enough rain, in order; only the last can still be open. */
  function Report(gs: seq<Group>, horizon: int): seq<Storm> {
    if gs == [] then []
    else
      var last := gs[|gs| - 1];
      AllClosed(gs[..|gs| - 1]) + Reported(last, horizon >= MaxEnd(last) + GAP)
  }

  function Segment(rain: seq<Interval>, horizon: int): seq<Storm> {
    Report(Groups(WetOnly(rain)), horizon)
  }

  // ----- the scan -----------------------------------------------------------------------------

  method SegmentStorms(rain: seq<Interval>, horizon: int) returns (out: seq<Storm>)
    ensures out == Segment(rain, horizon)
  {
    hide OnsetOf, PeakOf, Total, MaxEnd, AnyStrong, Groups, First, Extend, Strong, WetOnly;
    EmptyGroups();
    out := [];
    var cur: Option<Storm> := None;
    var onsetFound := false;
    ghost var gs: seq<Group> := [];
    for i := 0 to |rain|
      invariant gs == Groups(WetOnly(rain[..i])) && Running(gs, out, cur, onsetFound)
    {
      var r := rain[i];
      assert rain[..i + 1][..i] == rain[..i];
      WetStep(rain, i);
      if r.Wet() {
        GroupsStep(WetOnly(rain[..i]), r);
        hide Running, Join;
        out, cur, onsetFound := Advance(out, cur, onsetFound, r, gs);
        gs := Join(gs, r);
      }
    }
    assert rain[..|rain|] == rain;
    if cur.Some? {
      var last := cur.value.(closed := horizon >= cur.value.rainEnd + GAP);
      if last.total >= MIN_TOTAL { out := out + [last]; }
    }
  }

  /** The storms finished so far and the current one, for the runs so far. */
  ghost predicate Running(gs: seq<Group>, out: seq<Storm>, cur: Option<Storm>, onsetFound: bool) {
    if gs == [] then cur == None && out == []
    else out == AllClosed(gs[..|gs| - 1]) && cur == Some(Describe(gs[|gs| - 1], false))
         && onsetFound == AnyStrong(gs[|gs| - 1])
  }

  /** A wet interval closes the current storm after a long gap, and then starts or extends one. */
  method Advance(out: seq<Storm>, cur: Option<Storm>, onsetFound: bool, r: Interval, ghost gs: seq<Group>)
      returns (out': seq<Storm>, cur': Option<Storm>, onsetFound': bool)
    requires Running(gs, out, cur, onsetFound)
    ensures Running(Join(gs, r), out', cur', onsetFound')
  {
    hide OnsetOf, PeakOf, Total, MaxEnd, AnyStrong, Groups, First, Extend, Strong, WetOnly, AllClosed;
    out', cur', onsetFound' := out, cur, onsetFound;
    ghost var gs' := Join(gs, r);
    if cur.Some? && r.start - cur.value.rainEnd >= GAP {
      AllClosedStep(gs);
      if cur.value.total >= MIN_TOTAL { out' := out + [cur.value.(closed := true)]; }
      cur' := None;
    }
    if cur'.None? {
      assert gs'[..|gs'| - 1] == gs;
      onsetFound' := Strong(r);
      cur' := Some(First(r));
      FirstOfGroup(r);
      assert gs == [] ==> AllClosed(gs) == [] by { NoneClosed(); }
    } else {
      assert gs'[..|gs'| - 1] == gs[..|gs| - 1];
      Extended(gs[|gs| - 1], r);
      cur' := Some(Extend(cur'.value, onsetFound, r));
      onsetFound' := onsetFound || Strong(r);
    }
  }

  lemma NoneClosed()
    ensures AllClosed([]) == []
  {
  }

  function First(r: Interval): Storm {
    Storm(r.start, r.start, r.End(), r.mm, if r.Intensity() > 0.0 then r.Intensity() else 0.0, false)
  }

  function Extend(s: Storm, onsetFound: bool, r: Interval): Storm {
    s.(onset := if !onsetFound && Strong(r) then r.start else s.onset,
       rainEnd := Max(s.rainEnd, r.End()),
       total := s.total + r.mm,
       peak := if r.Intensity() > s.peak then r.Intensity() else s.peak)
  }

  lemma FirstOfGroup(r: Interval)
    ensures Describe([r], false) == First(r) && AnyStrong([r]) == Strong(r)
  {
    assert [r][..0] == [];
    assert PeakOf([r][..0]) == 0.0 && Total([r][..0]) == 0.0;
    assert r in [r];
  }

  lemma {:induction false} OnsetIsStart(g: Group)
    ensures exists x <- g :: x.start == OnsetOf(g)
  {
    if |g| > 1 {
      var n := |g| - 1;
      OnsetIsStart(g[..n]);
      assert g == g[..n] + [g[n]];
    } else {
      assert g[0] in g;
    }
  }

  /** The onset is where the first strong interval starts, or the first one if none is strong. */
  lemma {:induction false} OnsetMeaning(g: Group)
    ensures if AnyStrong(g)
            then exists i :: 0 <= i < |g| && Strong(g[i]) && g[i].start == OnsetOf(g)
                             && forall j :: 0 <= j < i ==> !Strong(g[j])
            else OnsetOf(g) == g[0].start
  {
    hide Strong;
    var n := |g| - 1;
    assert g == g[..n] + [g[n]];
    if n == 0 {
      if AnyStrong(g) { assert Strong(g[0]) && g[0].start == OnsetOf(g); }
    } else {
      OnsetMeaning(g[..n]);
      if AnyStrong(g[..n]) {
        var i :| 0 <= i < n && Strong(g[..n][i]) && g[..n][i].start == OnsetOf(g[..n])
                 && forall j :: 0 <= j < i ==> !Strong(g[..n][j]);
        assert g[i] == g[..n][i] && forall j :: 0 <= j < i ==> g[j] == g[..n][j];
        assert g[i] in g;
      } else if Strong(g[n]) {
        forall j | 0 <= j < n ensures !Strong(g[j]) { assert g[j] in g[..n]; }
        assert g[n] in g;
      }
    }
  }

  /** The peak bounds every intensity and is one of them, or zero. */
  lemma {:induction false} PeakMeaning(g: seq<Interval>)
    ensures forall i :: 0 <= i < |g| ==> g[i].Intensity() <= PeakOf(g)
    ensures PeakOf(g) == 0.0 || exists i :: 0 <= i < |g| && g[i].Intensity() == PeakOf(g)
  {
    if g != [] {
      var n := |g| - 1;
      PeakMeaning(g[..n]);
      forall i | 0 <= i < |g| ensures g[i].Intensity() <= PeakOf(g) { if i < n { assert g[i] == g[..n][i]; } }
      if PeakOf(g) != 0.0 && PeakOf(g) == PeakOf(g[..n]) {
        var i :| 0 <= i < n && g[..n][i].Intensity() == PeakOf(g[..n]);
        assert g[i] == g[..n][i];
      }
    }
  }

  lemma Extended(g: Group, r: Interval)
    ensures Describe(g + [r], false) == Extend(Describe(g, false), AnyStrong(g), r)
    ensures AnyStrong(g + [r]) == (AnyStrong(g) || Strong(r))
  {
    assert (g + [r])[..|g|] == g;
    if AnyStrong(g) {
      var x: Interval :| x in g && Strong(x);
      assert x in g + [r];
    }
    assert r in g + [r];
  }

  lemma WetStep(rain: seq<Interval>, i: nat)
    requires i < |rain|
    ensures WetOnly(rain[..i + 1]) == if rain[i].Wet() then WetOnly(rain[..i]) + [rain[i]] else WetOnly(rain[..i])
  {
    assert rain[..i + 1][..i] == rain[..i];
  }

  lemma EmptyGroups()
    ensures WetOnly([]) == [] && Groups([]) == []
  {
  }

  lemma GroupsStep(w: seq<Interval>, r: Interval)
    ensures Groups(w + [r]) == Join(Groups(w), r)
  {
    assert (w + [r])[..|w|] == w;
  }

  lemma AllClosedStep(gs: seq<Group>)
    requires gs != []
    ensures AllClosed(gs) == AllClosed(gs[..|gs| - 1]) + Reported(gs[|gs| - 1], true)
  {
  }

  // ----- the runs are the only possible ones ------------------------------------------------------

  function Flatten(gs: seq<Group>): seq<Interval> {
    if gs == [] then [] else Flatten(gs[..|gs| - 1]) + gs[|gs| - 1]
  }

  /** Inside a run every interval starts less than six hours after all rain before it ended. */
  ghost predicate Unbroken(g: Group) {
    var n := |g| - 1;
    n == 0 || (Unbroken(g[..n]) && g[n].start - MaxEnd(g[..n]) < GAP)
  }

  /** Runs without long gaps, with a long gap between each and the next. */
  ghost predicate Segmentation(gs: seq<Group>) {
    && (forall k :: 0 <= k < |gs| ==> Unbroken(gs[k]))
    && (forall k :: 0 < k < |gs| ==> gs[k][0].start - MaxEnd(gs[k - 1]) >= GAP)
  }

  lemma FlattenSnoc(gs: seq<Group>, g: Group)
    ensures Flatten(gs + [g]) == Flatten(gs) + g
  {
    assert (gs + [g])[..|gs|] == gs;
  }

  lemma UnbrokenSnoc(g: Group, r: Interval)
    ensures Unbroken(g + [r]) <==> Unbroken(g) && r.start - MaxEnd(g) < GAP
  {
    hide MaxEnd;
    assert (g + [r])[..|g|] == g;
  }

  lemma {:induction false} GroupsAreSegmentation(w: seq<Interval>)
    ensures Flatten(Groups(w)) == w && Segmentation(Groups(w))
  {
    hide Groups, Join, MaxEnd, Unbroken, Flatten, Segmentation;
    if w == [] {
      EmptyGroups();
      NoSegments();
    } else {
      var n := |w| - 1;
      var gs, r := Groups(w[..n]), w[n];
      assert w == w[..n] + [r];
      GroupsStep(w[..n], r);
      GroupsAreSegmentation(w[..n]);
      JoinSegmentation(gs, r);
    }
  }

  lemma NoSegments()
    ensures Flatten([]) == [] && Segmentation([])
  {
  }

  lemma JoinSegmentation(gs: seq<Group>, r: Interval)
    requires Segmentation(gs)
    ensures Segmentation(Join(gs, r)) && Flatten(Join(gs, r)) == Flatten(gs) + [r]
  {
    hide MaxEnd, Unbroken, Flatten;
    if gs == [] || r.start - MaxEnd(gs[|gs| - 1]) >= GAP {
      FlattenSnoc(gs, [r]);
      SingleUnbroken(r);
    } else {
      var n := |gs| - 1;
      var g := gs[n];
      FlattenSnoc(gs[..n], g);
      assert gs[..n] + [g] == gs;
      FlattenSnoc(gs[..n], g + [r]);
      UnbrokenSnoc(g, r);
      assert Flatten(gs[..n]) + g + [r] == Flatten(gs[..n]) + (g + [r]);
    }
  }

  lemma SingleUnbroken(r: Interval)
    ensures Unbroken([r])
  {
  }

  lemma ShorterSegmentation(pre: seq<Group>, g: Group, r: Interval)
    requires Segmentation(pre + [g + [r]])
    ensures Segmentation(pre + [g])
  {
    hide MaxEnd, Unbroken;
    var gs, gs' := pre + [g + [r]], pre + [g];
    assert gs[|pre|] == g + [r];
    UnbrokenSnoc(g, r);
    forall k | 0 <= k < |gs'| ensures Unbroken(gs'[k]) { assert k < |pre| ==> gs[k] == pre[k]; }
    forall k | 0 < k < |gs'| ensures gs'[k][0].start - MaxEnd(gs'[k - 1]) >= GAP {
      assert gs'[k][0] == gs[k][0] && gs'[k - 1] == gs[k - 1];
    }
  }

  lemma SegmentationLast(pre: seq<Group>, g: Group)
    requires Segmentation(pre + [g])
    ensures Segmentation(pre) && Unbroken(g)
    ensures pre != [] ==> g[0].start - MaxEnd(pre[|pre| - 1]) >= GAP
  {
    hide MaxEnd, Unbroken;
    var gs := pre + [g];
    assert gs[|pre|] == g && (pre != [] ==> gs[|pre| - 1] == pre[|pre| - 1]);
    assert pre != [] ==> gs[|pre|][0].start - MaxEnd(gs[|pre| - 1]) >= GAP;
    forall k | 0 <= k < |pre| ensures Unbroken(pre[k]) { assert gs[k] == pre[k]; }
    forall k | 0 < k < |pre| ensures pre[k][0].start - MaxEnd(pre[k - 1]) >= GAP {
      assert gs[k] == pre[k] && gs[k - 1] == pre[k - 1];
    }
  }

  lemma JoinNew(pre: seq<Group>, r: Interval)
    requires pre != [] ==> r.start - MaxEnd(pre[|pre| - 1]) >= GAP
    ensures Join(pre, r) == pre + [[r]]
  {
  }

  lemma JoinBack(pre: seq<Group>, g: Group, r: Interval)
    requires r.start - MaxEnd(g) < GAP
    ensures Join(pre + [g], r) == pre + [g + [r]]
  {
    assert (pre + [g])[..|pre|] == pre;
  }

  /** Any division of a series into such runs is the one the scan finds. */
  lemma {:induction false} SegmentationUnique(gs: seq<Group>)
    requires Segmentation(gs)
    ensures Groups(Flatten(gs)) == gs
    decreases |gs|, 0
  {
    if gs == [] {
      EmptyGroups();
    } else {
      hide MaxEnd, Unbroken, Flatten, Groups, Segmentation, Join;
      var pre, g := gs[..|gs| - 1], gs[|gs| - 1];
      assert gs == pre + [g];
      UniqueWithLast(pre, g);
      FlattenSnoc(pre, g);
    }
  }

  lemma {:induction false} UniqueWithLast(pre: seq<Group>, g: Group)
    requires Segmentation(pre + [g])
    ensures Groups(Flatten(pre) + g) == pre + [g]
    decreases |pre|, |g|
  {
    hide *;
    SegmentationLast(pre, g);
    if |g| == 1 {
      SegmentationUnique(pre);
      LastAlone(pre, g);
    } else {
      var g': Group, r := g[..|g| - 1], g[|g| - 1];
      assert g == g' + [r];
      ShorterSegmentation(pre, g', r);
      UniqueWithLast(pre, g');
      FlattenSnoc(pre, g');
      LastLonger(pre, g', r);
      Assoc(Flatten(pre), g', [r]);
    }
  }

  lemma LastAlone(pre: seq<Group>, g: Group)
    requires |g| == 1 && Groups(Flatten(pre)) == pre
    requires pre != [] ==> g[0].start - MaxEnd(pre[|pre| - 1]) >= GAP
    ensures Groups(Flatten(pre) + g) == pre + [g]
  {
    hide MaxEnd, Flatten, Groups, Join;
    assert g == [g[0]];
    GroupsStep(Flatten(pre), g[0]);
    JoinNew(pre, g[0]);
  }

  lemma LastLonger(pre: seq<Group>, g: Group, r: Interval)
    requires Unbroken(g + [r]) && Groups(Flatten(pre + [g])) == pre + [g]
    ensures Groups(Flatten(pre + [g]) + [r]) == pre + [g + [r]]
  {
    hide MaxEnd, Flatten, Groups, Join, Unbroken;
    UnbrokenSnoc(g, r);
    GroupsStep(Flatten(pre + [g]), r);
    JoinBack(pre, g, r);
  }

  // ----- later rain cannot touch a closed storm ---------------------------------------------------

  /** Extending a series only ever changes its last run or adds runs after it. */
  lemma {:induction false} GroupsPrefix(w: seq<Interval>, m: seq<Interval>)
    requires w != []
    ensures var gs, gs' := Groups(w), Groups(w + m);
            0 < |gs| <= |gs'| && gs'[..|gs| - 1] == gs[..|gs| - 1]
  {
    hide MaxEnd, Groups;
    if m == [] {
      assert w + m == w;
      assert w == w[..|w| - 1] + [w[|w| - 1]];
      GroupsStep(w[..|w| - 1], w[|w| - 1]);
    } else {
      var n := |m| - 1;
      GroupsPrefix(w, m[..n]);
      assert w + m == (w + m[..n]) + [m[n]];
      GroupsStep(w + m[..n], m[n]);
      JoinPrefix(Groups(w + m[..n]), m[n]);
    }
  }

  lemma JoinPrefix(gs: seq<Group>, r: Interval)
    requires gs != []
    ensures |gs| <= |Join(gs, r)| && Join(gs, r)[..|gs| - 1] == gs[..|gs| - 1]
  {
  }

  lemma AllClosedSnoc(gs: seq<Group>, g: Group)
    ensures AllClosed(gs + [g]) == AllClosed(gs) + Reported(g, true)
  {
    assert (gs + [g])[..|gs|] == gs;
  }

  lemma {:induction false} AllClosedSplit(a: seq<Group>, b: seq<Group>)
    ensures AllClosed(a + b) == AllClosed(a) + AllClosed(b)
  {
    if b == [] {
      assert a + b == a;
    } else {
      hide Reported, AllClosed;
      var b', g := b[..|b| - 1], b[|b| - 1];
      assert b == b' + [g];
      AllClosedSplit(a, b');
      Assoc(a, b', [g]);
      AllClosedSnoc(a + b', g);
      AllClosedSnoc(b', g);
      Assoc(AllClosed(a), AllClosed(b'), Reported(g, true));
    }
  }

  lemma ReportSplit(a: seq<Group>, b: seq<Group>, horizon: int)
    requires b != []
    ensures Report(a + b, horizon) == AllClosed(a) + Report(b, horizon)
  {
    hide Reported, AllClosed, MaxEnd;
    var n, last := |b| - 1, b[|b| - 1];
    assert (a + b)[..|a| + n] == a + b[..n];
    AllClosedSplit(a, b[..n]);
    Assoc(AllClosed(a), AllClosed(b[..n]), Reported(last, horizon >= MaxEnd(last) + GAP));
  }

  lemma WetSnoc(w: seq<Interval>, r: Interval)
    ensures WetOnly(w + [r]) == if r.Wet() then WetOnly(w) + [r] else WetOnly(w)
  {
    assert (w + [r])[..|w|] == w;
  }

  lemma Assoc<T>(a: seq<T>, b: seq<T>, c: seq<T>)
    ensures (a + b) + c == a + (b + c)
  {
  }

  lemma {:induction false} WetConcat(a: seq<Interval>, b: seq<Interval>)
    ensures WetOnly(a + b) == WetOnly(a) + WetOnly(b)
  {
    if b == [] {
      assert a + b == a;
    } else {
      hide WetOnly;
      var b', r := b[..|b| - 1], b[|b| - 1];
      assert b == b' + [r];
      WetConcat(a, b');
      Assoc(a, b', [r]);
      WetSnoc(a + b', r);
      WetSnoc(b', r);
      Assoc(WetOnly(a), WetOnly(b'), [r]);
    }
  }

  /** A storm reported closed stays as it is, at its place in the list, whatever rain that starts
      at or after the horizon is appended. */
  lemma ClosedIsFinal(rain: seq<Interval>, more: seq<Interval>, horizon: int, horizon': int)
    requires horizon <= horizon' && forall r <- more :: r.start >= horizon
    ensures var s, s' := Segment(rain, horizon), Segment(rain + more, horizon');
            forall i :: 0 <= i < |s| && s[i].closed ==> i < |s'| && s'[i] == s[i]
  {
    hide Groups, AllClosed, WetOnly, MaxEnd;
    var w, m := WetOnly(rain), WetOnly(more);
    WetConcat(rain, more);
    EmptyGroups();
    if w != [] {
      GroupsPrefix(w, m);
      var gs, gs' := Groups(w), Groups(w + m);
      var n := |gs| - 1;
      if horizon >= MaxEnd(gs[n]) + GAP {
        if m == [] {
          assert w + m == w;
        } else {
          assert m[0] in m;
          GroupsStep(w, m[0]);
          WetMember(more, m[0]);
          assert Groups(w + [m[0]]) == gs + [[m[0]]];
          assert w + m == (w + [m[0]]) + m[1..];
          GroupsPrefix(w + [m[0]], m[1..]);
          assert gs'[..n + 1] == gs;
          assert gs == gs[..n] + [gs[n]];
          AllClosedStep(gs);
          assert gs' == gs + gs'[n + 1..];
          ReportSplit(gs, gs'[n + 1..], horizon');
        }
      } else {
        assert gs' == gs[..n] + gs'[n..];
        ReportSplit(gs[..n], gs'[n..], horizon');
      }
    }
  }

  /** The storm keeps its place and fields when this rain is appended. */
  ghost predicate Stays(rain: seq<Interval>, i: nat, horizon: int, more: seq<Interval>, horizon': int)
    requires i < |Segment(rain, horizon)|
  {
    var s, s' := Segment(rain, horizon), Segment(rain + more, horizon');
    i < |s'| && s'[i] == s[i]
  }

  /** A storm is reported closed exactly if no rain that starts at or after the horizon can change it. */
  lemma ClosedExactly(rain: seq<Interval>, horizon: int, i: nat)
    requires i < |Segment(rain, horizon)|
    ensures Segment(rain, horizon)[i].closed <==>
              forall more: seq<Interval>, horizon': int ::
                horizon <= horizon' && (forall r <- more :: r.start >= horizon) ==>
                  Stays(rain, i, horizon, more, horizon')
  {
    hide Segment;
    if Segment(rain, horizon)[i].closed {
      forall more: seq<Interval>, horizon': int | horizon <= horizon' && forall r <- more :: r.start >= horizon
        ensures Stays(rain, i, horizon, more, horizon')
      {
        ClosedIsFinal(rain, more, horizon, horizon');
      }
    } else {
      var r := Interval(horizon, HOUR, 1.0);
      OpenChanges(rain, horizon, i, r);
      assert forall x <- [r] :: x.start >= horizon;
      assert !Stays(rain, i, horizon, [r], horizon);
    }
  }

  /** Rain at the horizon joins an open storm. */
  lemma OpenChanges(rain: seq<Interval>, horizon: int, i: nat, r: Interval)
    requires i < |Segment(rain, horizon)| && !Segment(rain, horizon)[i].closed && r.start == horizon && r.mm > 0.0
    ensures !Stays(rain, i, horizon, [r], horizon)
  {
    hide Groups, AllClosed, WetOnly, MaxEnd;
    var w := WetOnly(rain);
    WetSnoc(rain, r);
    EmptyGroups();
    var gs := Groups(w);
    if gs != [] {
      var n := |gs| - 1;
      OpenIsLast(gs, horizon, i);
      GroupsStep(w, r);
      var g: Group := gs[n] + [r];
      var all: seq<Group> := gs[..n] + [g];
      assert Join(gs, r) == all;
      assert all[..n] == gs[..n];
      assert g[..|gs[n]|] == gs[n];
    }
  }

  lemma OpenIsLast(gs: seq<Group>, horizon: int, i: nat)
    requires gs != [] && i < |Report(gs, horizon)| && !Report(gs, horizon)[i].closed
    ensures var n := |gs| - 1;
            && i == |AllClosed(gs[..n])| && horizon < MaxEnd(gs[n]) + GAP
            && Total(gs[n]) >= MIN_TOTAL && Report(gs, horizon)[i].total == Total(gs[n])
  {
    hide MaxEnd, OnsetOf, PeakOf;
    AllAreClosed(gs[..|gs| - 1]);
  }

  lemma {:induction false} AllAreClosed(gs: seq<Group>)
    ensures forall i :: 0 <= i < |AllClosed(gs)| ==> AllClosed(gs)[i].closed
  {
    if gs != [] { AllAreClosed(gs[..|gs| - 1]); }
  }

  // ----- which runs are storms -----------------------------------------------------------------------

  /** The storms are exactly the runs with at least five millimetres, in order, each with its span and depth; all are
      closed but perhaps the last run, and that one is once the data reach six hours past it. */
  ghost predicate StormsOf(gs: seq<Group>, s: seq<Storm>, ks: seq<nat>, horizon: int) {
    && |ks| == |s| && (forall i, j :: 0 <= i < j < |ks| ==> ks[i] < ks[j])
    && (forall i :: 0 <= i < |ks| ==> ks[i] < |gs| && Spans(gs[ks[i]], s[i])
                                      && (s[i].closed <==> ks[i] < |gs| - 1 || s[i].rainEnd + 6 * HOUR <= horizon))
    && (forall k :: 0 <= k < |gs| ==> (Total(gs[k]) >= 5.0 <==> Named(ks, k)))
  }

  ghost predicate Named(ks: seq<nat>, k: nat) { exists i :: 0 <= i < |ks| && ks[i] == k }

  /** From the run's first start to its last end, with all its depth. */
  ghost predicate Spans(g: Group, s: Storm) {
    && s.firstRain == g[0].start && s.total == Total(g)
    && (forall x <- g :: x.End() <= s.rainEnd) && exists x <- g :: x.End() == s.rainEnd
  }

  lemma RunSpans(g: Group, closed: bool)
    ensures Spans(g, Describe(g, closed))
  {
    hide OnsetOf, PeakOf;
    var x := LatestOf(g);
  }

  /** The `i`-th storm describes run `ks[i]`; these are the runs with enough rain, in order. */
  ghost predicate Indexed(gs: seq<Group>, s: seq<Storm>, ks: seq<nat>) {
    && |ks| == |s| && (forall i, j :: 0 <= i < j < |ks| ==> ks[i] < ks[j])
    && (forall i :: 0 <= i < |ks| ==> ks[i] < |gs| && s[i] == Describe(gs[ks[i]], s[i].closed))
    && (forall k :: 0 <= k < |gs| ==> (Total(gs[k]) >= 5.0 <==> Named(ks, k)))
  }

  lemma IndexedOn(gs: seq<Group>, s: seq<Storm>, ks: seq<nat>, g: Group, closed: bool)
    requires Indexed(gs, s, ks)
    ensures if Total(g) >= 5.0 then Indexed(gs + [g], s + [Describe(g, closed)], ks + [|gs|])
            else Indexed(gs + [g], s, ks)
  {
    hide Describe, Total, Named;
    NamedOn(ks, |gs|);
    var all := gs + [g];
    assert all[|gs|] == g && forall k :: 0 <= k < |gs| ==> all[k] == gs[k];
    DescribedAs(g, closed);
  }

  lemma DescribedAs(g: Group, closed: bool)
    ensures Describe(g, closed) == Describe(g, Describe(g, closed).closed)
  {
    hide OnsetOf, PeakOf, Total, MaxEnd;
  }

  lemma {:induction false} ClosedStorms(gs: seq<Group>) returns (ks: seq<nat>)
    ensures Indexed(gs, AllClosed(gs), ks)
  {
    ks := [];
    if gs != [] {
      hide Describe, Total, Indexed;
      var n := |gs| - 1;
      var rest := gs[..n];
      ks := ClosedStorms(rest);
      IndexedOn(rest, AllClosed(rest), ks, gs[n], true);
      assert gs == rest + [gs[n]];
      assert AllClosed(rest) + [] == AllClosed(rest);
      if Total(gs[n]) >= MIN_TOTAL { ks := ks + [n]; }
    }
  }

  lemma NamedOn(ks: seq<nat>, n: nat)
    requires forall i :: 0 <= i < |ks| ==> ks[i] < n
    ensures !Named(ks, n) && forall k: nat :: Named(ks + [n], k) <==> Named(ks, k) || k == n
  {
    forall k: nat ensures Named(ks + [n], k) <==> Named(ks, k) || k == n {
      if i :| 0 <= i < |ks| && ks[i] == k { assert (ks + [n])[i] == k; }
      if k == n { assert (ks + [n])[|ks|] == k; }
    }
  }

  lemma {:induction false} ReportMeaning(gs: seq<Group>, horizon: int) returns (ks: seq<nat>)
    ensures StormsOf(gs, Report(gs, horizon), ks, horizon)
  {
    ks := [];
    if gs != [] {
      hide Describe, Total, Indexed, AllClosed, StormsOf, MaxEnd;
      var n := |gs| - 1;
      var rest := gs[..n];
      ks := ClosedStorms(rest);
      AllAreClosed(rest);
      IndexedSize(rest, AllClosed(rest), ks);
      IndexedOn(rest, AllClosed(rest), ks, gs[n], horizon >= MaxEnd(gs[n]) + GAP);
      assert gs == rest + [gs[n]];
      if Total(gs[n]) >= MIN_TOTAL {
        var last := Describe(gs[n], horizon >= MaxEnd(gs[n]) + GAP);
        assert Report(gs, horizon) == AllClosed(rest) + [last];
        LastFlag(gs, AllClosed(rest), ks, last, horizon);
        ks := ks + [n];
      } else {
        assert Report(gs, horizon) == AllClosed(rest);
        AllFlags(gs, AllClosed(rest), ks, horizon);
      }
    }
  }

  lemma IndexedSize(gs: seq<Group>, s: seq<Storm>, ks: seq<nat>)
    requires Indexed(gs, s, ks)
    ensures |ks| == |s| && forall i :: 0 <= i < |ks| ==> ks[i] < |gs|
  {
    hide Describe, Total, Named;
  }

  lemma AllFlags(gs: seq<Group>, s: seq<Storm>, ks: seq<nat>, horizon: int)
    requires Indexed(gs, s, ks) && forall i :: 0 <= i < |ks| ==> ks[i] < |gs| - 1 && s[i].closed
    ensures StormsOf(gs, s, ks, horizon)
  {
    hide Describe, Total, Named, Spans;
    forall i | 0 <= i < |ks| ensures Spans(gs[ks[i]], s[i]) { RunSpans(gs[ks[i]], s[i].closed); }
  }

  lemma LastFlag(gs: seq<Group>, s: seq<Storm>, ks: seq<nat>, last: Storm, horizon: int)
    requires gs != [] && |ks| == |s| && Indexed(gs, s + [last], ks + [|gs| - 1])
    requires forall i :: 0 <= i < |ks| ==> ks[i] < |gs| - 1 && s[i].closed
    requires last == Describe(gs[|gs| - 1], horizon >= MaxEnd(gs[|gs| - 1]) + GAP)
    ensures StormsOf(gs, s + [last], ks + [|gs| - 1], horizon)
  {
    assert last.closed <==> last.rainEnd + 6 * HOUR <= horizon;
    hide Describe, Total, Named, Spans;
    var all, at := s + [last], ks + [|gs| - 1];
    forall i | 0 <= i < |at| ensures Spans(gs[at[i]], all[i]) { RunSpans(gs[at[i]], all[i].closed); }
  }

  // ----- a long dry gap separates series ----------------------------------------------------------

  /** Everything in `b` starts at least six hours after everything in `a` ends. */
  ghost predicate FarBefore(a: seq<Interval>, b: seq<Interval>) {
    forall x, y :: x in a && y in b ==> y.start - x.End() >= GAP
  }

  lemma {:induction false} FlattenMember(gs: seq<Group>, k: nat, r: Interval)
    requires k < |gs| && r in gs[k]
    ensures r in Flatten(gs)
  {
    if k < |gs| - 1 { FlattenMember(gs[..|gs| - 1], k, r); }
  }

  /** The run that ends a series ends with one of its intervals. */
  lemma LastRunEnd(w: seq<Interval>) returns (x: Interval)
    requires w != []
    ensures Groups(w) != [] && x in w && x.End() == MaxEnd(Groups(w)[|Groups(w)| - 1])
  {
    hide Groups, Segmentation;
    GroupsPrefix(w, []);
    assert w + [] == w;
    var gs := Groups(w);
    var last := gs[|gs| - 1];
    x := LatestOf(last);
    GroupsAreSegmentation(w);
    FlattenMember(gs, |gs| - 1, x);
  }

  lemma {:induction false} GroupsSplit(w: seq<Interval>, m: seq<Interval>)
    requires FarBefore(w, m)
    ensures Groups(w + m) == Groups(w) + Groups(m)
  {
    hide MaxEnd, Groups;
    EmptyGroups();
    if m == [] {
      assert w + m == w;
    } else {
      var n := |m| - 1;
      var m', r := m[..n], m[n];
      assert m == m' + [r];
      assert forall x <- m' :: x in m;
      GroupsSplit(w, m');
      assert w + m == (w + m') + [r];
      GroupsStep(w + m', r);
      GroupsStep(m', r);
      if m' != [] {
        GroupsPrefix(m', []);
        assert m' + [] == m';
        JoinRight(Groups(w), Groups(m'), r);
      } else if w != [] {
        var x := LastRunEnd(w);
        assert r.start - x.End() >= GAP;
      }
    }
  }

  lemma JoinRight(gs: seq<Group>, hs: seq<Group>, r: Interval)
    requires hs != []
    ensures Join(gs + hs, r) == gs + Join(hs, r)
  {
    hide MaxEnd;
    assert (gs + hs)[..|gs + hs| - 1] == gs + hs[..|hs| - 1];
  }

  /** Series on the two sides of a dry gap of six hours or more are segmented independently; those
      before the gap are all closed. */
  lemma SplitSegments(a: seq<Interval>, b: seq<Interval>, horizon: int)
    requires FarBefore(WetOnly(a), WetOnly(b)) && WetOnly(b) != []
    ensures Segment(a + b, horizon) == AllClosed(Groups(WetOnly(a))) + Segment(b, horizon)
  {
    hide Groups, AllClosed, WetOnly;
    WetConcat(a, b);
    GroupsSplit(WetOnly(a), WetOnly(b));
    GroupsPrefix(WetOnly(b), []);
    assert WetOnly(b) + [] == WetOnly(b);
    ReportSplit(Groups(WetOnly(a)), Groups(WetOnly(b)), horizon);
  }

  // ----- storms stand apart -----------------------------------------------------------------------

  ghost predicate Ordered(w: seq<Interval>) {
    && (forall i, j :: 0 <= i < j < |w| ==> w[i].start <= w[j].start)
    && (forall r <- w :: r.dur >= 0)
  }

  ghost predicate Separated(gs: seq<Group>) {
    forall j, k :: 0 <= j < k < |gs| ==> FarBefore(gs[j], gs[k])
  }

  lemma {:induction false} GroupsSeparated(w: seq<Interval>)
    requires Ordered(w)
    ensures Separated(Groups(w))
  {
    if w != [] {
      hide MaxEnd, FarBefore;
      var n := |w| - 1;
      var gs, r := Groups(w[..n]), w[n];
      GroupsSeparated(w[..n]);
      GroupsAreSegmentation(w[..n]);
      var gs' := Join(gs, r);
      forall j, k | 0 <= j < k < |gs'| ensures FarBefore(gs'[j], gs'[k]) {
        if k == |gs'| - 1 { JoinFar(w, gs, j); }
      }
    }
  }

  /** The run that takes the newest interval is far from every earlier run. */
  lemma JoinFar(w: seq<Interval>, gs: seq<Group>, j: nat)
    requires w != [] && Ordered(w) && Flatten(gs) == w[..|w| - 1]
    requires Separated(gs)
    requires j < |Join(gs, w[|w| - 1])| - 1
    ensures FarBefore(Join(gs, w[|w| - 1])[j], Join(gs, w[|w| - 1])[|Join(gs, w[|w| - 1])| - 1])
  {
    hide MaxEnd, Flatten;
    var m, r := |gs| - 1, w[|w| - 1];
    var gs' := Join(gs, r);
    var head := gs[m][0];
    HeadBefore(w, gs, head);
    forall x: Interval, y: Interval | x in gs'[j] && y in gs'[|gs'| - 1] ensures y.start - x.End() >= GAP {
      if j < m {
        assert FarBefore(gs[j], gs[m]);
        assert head in gs[m];
        assert head.start - x.End() >= GAP;
      } else {
        assert x.End() <= MaxEnd(gs[m]);
      }
      assert head.End() <= MaxEnd(gs[m]);
    }
  }

  lemma HeadBefore(w: seq<Interval>, gs: seq<Group>, head: Interval)
    requires w != [] && gs != [] && Ordered(w) && Flatten(gs) == w[..|w| - 1] && head == gs[|gs| - 1][0]
    ensures head.start <= w[|w| - 1].start && head.dur >= 0
  {
    FlattenMember(gs, |gs| - 1, head);
    var i :| 0 <= i < |w| - 1 && w[..|w| - 1][i] == head;
    assert w[i] == head;
  }

  /** A series around one of its runs: each interval is in the run, or far before, or far after. */
  lemma AroundGroup(w: seq<Interval>, k: nat, r: Interval)
    requires Ordered(w) && k < |Groups(w)| && r in w
    ensures var g := Groups(w)[k];
            || (g[0].start <= r.start && r.End() <= MaxEnd(g))
            || r.End() + GAP <= g[0].start
            || MaxEnd(g) + GAP <= r.start
  {
    hide Groups, MaxEnd, Flatten, Ordered, Segmentation;
    var gs := Groups(w);
    GroupsSeparated(w);
    GroupsAreSegmentation(w);
    var j := GroupOf(gs, r);
    var g := gs[k];
    if j == k {
      FirstStart(w, k, r);
    } else if j < k {
      assert FarBefore(gs[j], g);
      assert g[0] in g;
    } else {
      assert FarBefore(g, gs[j]);
      var x := LatestOf(g);
    }
  }

  lemma {:induction false} GroupOf(gs: seq<Group>, r: Interval) returns (j: nat)
    requires r in Flatten(gs)
    ensures j < |gs| && r in gs[j]
  {
    var n := |gs| - 1;
    if r in gs[n] { j := n; } else { j := GroupOf(gs[..n], r); }
  }

  lemma {:induction false} FirstStart(w: seq<Interval>, k: nat, r: Interval)
    requires Ordered(w) && k < |Groups(w)| && r in Groups(w)[k]
    ensures Groups(w)[k][0].start <= r.start
    decreases |w|
  {
    hide Groups, MaxEnd, Flatten, Segmentation;
    assert w != [] by { EmptyGroups(); }
    var n := |w| - 1;
    var gs := Groups(w[..n]);
    assert w == w[..n] + [w[n]];
    GroupsStep(w[..n], w[n]);
    if k < |gs| && r in gs[k] {
      FirstStart(w[..n], k, r) by { OrderedPart(w, n); }
    } else if k < |gs| {
      GroupsAreSegmentation(w[..n]);
      assert gs[k] != [] by { GroupNonEmpty(gs, k); }
      HeadBefore(w, gs, gs[k][0]);
    }
  }

  lemma OrderedPart(w: seq<Interval>, n: nat)
    requires Ordered(w) && n <= |w|
    ensures Ordered(w[..n])
  {
  }

  lemma GroupNonEmpty(gs: seq<Group>, k: nat)
    requires Segmentation(gs) && k < |gs|
    ensures gs[k] != []
  {
  }
}
