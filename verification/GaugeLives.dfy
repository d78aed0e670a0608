/** Rainfall rows of a gauge that reboots (internal/weather/gauge.go): every life's rain counts, whatever the counters
    of the lives are, and the lives do not disturb each other. */
module GaugeLives {
  import opened Common
  import opened GaugeRainfall
  import opened GaugeTruth

  // ----- one uplink, rule by rule ------------------------------------------------------------------------------------

  /** The node started its count again. */
  predicate Restarted(p: Uplink, u: Uplink) { u.counterReset || u.tipCount < p.tipCount }

  /** An uplink between the two is missing. */
  predicate UplinkLost(p: Uplink, u: Uplink) { !Restarted(p, u) && NodeStart(u) - p.at > LOSS_SLACK }

  /** What an uplink after another says: the tips counted since it, over the time since it; after a restart the new
      count, over the node's own interval, never from before the uplink it follows. */
  lemma Follows(p: Uplink, u: Uplink)
    requires !u.sensorFault && p.at + SECOND <= u.at && (Restarted(p, u) ==> u.intervalS >= 1)
    ensures var rows := DeriveOne(Some(p), u);
            && rows != [] && rows[0].start == (if Restarted(p, u) then Max(p.at, NodeStart(u)) else p.at)
            && Depth(rows) == Depths(if Restarted(p, u) then u.tipCount else u.tipCount - p.tipCount, u.mmPerTip)
  {
    var rows := DeriveOne(Some(p), u);
    DepthOne(rows[0]);
    if |rows| == 2 {
      assert rows == [rows[0]] + [rows[1]];
      DepthJoin([rows[0]], [rows[1]]);
      DepthOne(rows[1]);
    } else {
      assert rows == [rows[0]];
    }
  }

  /** Rows lie end to end up to the uplink; tips that could have been told of earlier are placed in the last wake
      period, unless an uplink is missing. */
  lemma Placed(p: Option<Uplink>, u: Uplink)
    requires DeriveOne(p, u) != [] && u.at - DeriveOne(p, u)[0].start < MAX_INT32 * SECOND
    ensures var rows := DeriveOne(p, u);
            var late := Depth(rows) > 0.0 && u.at - rows[0].start > TIP_WINDOW && !(p.Some? && UplinkLost(p.value, u));
            && (late && u.mmPerTip > 0.0 ==>
                  |rows| == 2 && rows[0].mm == 0.0 && rows[1].start == u.at - TIP_WINDOW && rows[1].intervalS == 300)
            && (|rows| == 2 ==> rows[0].mm == 0.0 && EndsBy(rows[0], rows[1].start))
            && EndsBy(rows[|rows| - 1], u.at)
  {
    var rows := DeriveOne(p, u);
    DepthOne(rows[0]);
    if |rows| == 2 {
      assert rows == [rows[0]] + [rows[1]];
      DepthJoin([rows[0]], [rows[1]]);
      DepthOne(rows[1]);
    } else {
      assert rows == [rows[0]];
    }
  }

  /** The row ends at `t`, to the second. */
  predicate EndsBy(r: Row, t: int) { r.start + r.intervalS * SECOND <= t < r.start + r.intervalS * SECOND + SECOND }

  /** If the first uplink after a reboot is lost, the tips before the reboot are taken off the new count, exactly if
      that is not smaller than the old one. */
  lemma UnseenReboot(p: Uplink, u: Uplink)
    requires !u.sensorFault && p.at + SECOND <= u.at && !u.counterReset && u.intervalS >= 1 && p.tipCount >= 0
    ensures Depth(DeriveOne(Some(p), u)) == Depths(u.tipCount, u.mmPerTip) <==>
            u.tipCount < p.tipCount || p.tipCount == 0 || u.mmPerTip == 0.0
  {
    hide Depth, Depths;
    Follows(p, u);
    DepthsPlain(u.tipCount - p.tipCount, u.tipCount, u.mmPerTip);
  }

  // ----- lives do not disturb each other -----------------------------------------------------------------------------

  lemma BootAlone(p: Uplink, u: Uplink)
    requires u.counterReset && NodeStart(u) >= p.at
    ensures DeriveOne(Some(p), u) == DeriveOne(None, u)
  {
    var a, b := DeriveOne(Some(p), u), DeriveOne(None, u);
    assert |a| == |b|;
    if a != [] { assert a[0] == b[0]; }
    if |a| == 2 { assert a[1] == b[1]; }
  }

  /** A life that begins with its boot, after the last uplink of the one before. */
  ghost predicate Apart(a: seq<Uplink>, b: seq<Uplink>) {
    b != [] && b[0].counterReset && (a != [] ==> NodeStart(b[0]) >= a[|a| - 1].at)
  }

  lemma {:induction false} TwoLives(a: seq<Uplink>, b: seq<Uplink>, n: nat)
    requires Apart(a, b) && 0 < n <= |b|
    ensures Derive(None, a + b[..n]) == Derive(None, a) + Derive(None, b[..n])
  {
    hide DeriveOne, Derive, Pred;
    LastStep(a, b, n);
    if n == 1 {
      NothingYet(a, b);
    } else {
      TwoLives(a, b, n - 1);
      var x, y, z := Derive(None, a), Derive(None, b[..n - 1]), DeriveOne(Pred(None, b, n - 1), b[n - 1]);
      assert (x + y) + z == x + (y + z);
    }
  }

  lemma LastStep(a: seq<Uplink>, b: seq<Uplink>, n: nat)
    requires Apart(a, b) && 0 < n <= |b|
    ensures var rows := DeriveOne(Pred(None, b, n - 1), b[n - 1]);
            && Derive(None, b[..n]) == Derive(None, b[..n - 1]) + rows
            && Derive(None, a + b[..n]) == Derive(None, a + b[..n - 1]) + rows
  {
    hide DeriveOne, Derive;
    var u, before := b[n - 1], b[..n - 1];
    assert b[..n] == before + [u] && a + b[..n] == (a + before) + [u];
    DeriveSnoc(before, u);
    DeriveSnoc(a + before, u);
    SamePred(a, b, n);
  }

  function Newest(s: seq<Uplink>): Option<Uplink> { if s == [] then None else Some(s[|s| - 1]) }

  lemma DeriveSnoc(s: seq<Uplink>, u: Uplink)
    ensures Derive(None, s + [u]) == Derive(None, s) + DeriveOne(Newest(s), u)
  {
    hide DeriveOne;
    assert (s + [u])[..|s|] == s;
  }

  lemma SamePred(a: seq<Uplink>, b: seq<Uplink>, n: nat)
    requires Apart(a, b) && 0 < n <= |b|
    ensures Newest(b[..n - 1]) == Pred(None, b, n - 1)
    ensures DeriveOne(Newest(a + b[..n - 1]), b[n - 1]) == DeriveOne(Pred(None, b, n - 1), b[n - 1])
  {
    hide DeriveOne;
    if n == 1 {
      assert a + b[..0] == a;
      if a != [] { BootAlone(a[|a| - 1], b[0]); }
    } else {
      assert (a + b[..n - 1])[|a| + n - 2] == b[n - 2];
    }
  }

  lemma NothingYet(a: seq<Uplink>, b: seq<Uplink>)
    ensures Derive(None, a + b[..0]) == Derive(None, a) && Derive(None, b[..0]) == []
  {
    assert a + b[..0] == a && b[..0] == [];
  }

  predicate BootsLater(a: seq<Uplink>, b: seq<Uplink>) {
    a != [] && b != [] && NodeStart(b[0]) >= a[|a| - 1].at
  }

  /** Each life begins with a boot after the last uplink of the life before it. */
  ghost predicate AllApart(lives: seq<seq<Uplink>>) {
    (forall i :: 0 <= i < |lives| ==> lives[i] != [] && lives[i][0].counterReset)
    && forall i, j :: 0 <= i && j == i + 1 && j < |lives| ==> BootsLater(lives[i], lives[j])
  }

  function DeriveEach(lives: seq<seq<Uplink>>): seq<seq<Row>> {
    seq(|lives|, i requires 0 <= i < |lives| => Derive(None, lives[i]))
  }

  /** The rows of a whole history are those of its lives, each derived by itself. */
  lemma {:induction false} LivesApart(lives: seq<seq<Uplink>>)
    requires AllApart(lives)
    ensures Derive(None, Joined(lives)) == Joined(DeriveEach(lives))
  {
    hide Derive, AllApart, Apart;
    if lives != [] {
      var n := |lives| - 1;
      LastLife(lives);
      LivesApart(lives[..n]);
      LastJoins(lives);
    } else {
      NoLives();
    }
  }

  lemma NoLives()
    ensures Derive(None, Joined<Uplink>([])) == Joined(DeriveEach([]))
  {
  }

  lemma LastJoins(lives: seq<seq<Uplink>>)
    requires lives != [] && Apart(Joined(lives[..|lives| - 1]), lives[|lives| - 1])
    requires Derive(None, Joined(lives[..|lives| - 1])) == Joined(DeriveEach(lives[..|lives| - 1]))
    ensures Derive(None, Joined(lives)) == Joined(DeriveEach(lives))
  {
    hide Derive;
    var n := |lives| - 1;
    var b := lives[n];
    assert b != [] && b[..|b|] == b;
    TwoLives(Joined(lives[..n]), b, |b|);
    hide Apart;
    assert DeriveEach(lives)[..n] == DeriveEach(lives[..n]);
    assert Joined(lives) == Joined(lives[..n]) + b;
  }

  lemma LastLife(lives: seq<seq<Uplink>>)
    requires AllApart(lives) && lives != []
    ensures Apart(Joined(lives[..|lives| - 1]), lives[|lives| - 1]) && AllApart(lives[..|lives| - 1])
  {
    var n := |lives| - 1;
    if n > 0 {
      var before := lives[n - 1];
      assert BootsLater(before, lives[n]);
      assert Joined(lives[..n]) == Joined(lives[..n][..n - 1]) + before;
      assert Joined(lives[..n])[|Joined(lives[..n])| - 1] == before[|before| - 1];
    } else {
      assert Joined(lives[..0]) == [];
    }
  }

  // ----- every life's rain counts ------------------------------------------------------------------------------------

  predicate Usable(mmPerTip: real, u: Uplink) {
    u.mmPerTip == mmPerTip && !u.sensorFault && u.tipCount >= 0 && (u.counterReset ==> u.intervalS >= 1)
  }

  /** A boot first and any number of boots later, uplinks at least a second apart, no fault, one bucket size; in between
      boots the counter does not fall. */
  ghost predicate Lives(mmPerTip: real, ups: seq<Uplink>) {
    && ups != [] && ups[0].counterReset && (forall i :: 0 <= i < |ups| ==> Usable(mmPerTip, ups[i]))
    && (forall i, j :: 0 <= i < j < |ups| ==> ups[i].at + SECOND <= ups[j].at)
    && (forall i :: 0 < i < |ups| && !ups[i].counterReset ==> ups[i - 1].tipCount <= ups[i].tipCount)
  }

  predicate EndsLife(ups: seq<Uplink>, i: int)
    requires 0 <= i < |ups|
  {
    i + 1 == |ups| || ups[i + 1].counterReset
  }

  /** The last counts of the lives that end among the first `n` uplinks, added up. */
  function LastCounts(ups: seq<Uplink>, n: nat): int
    requires n <= |ups|
  {
    if n == 0 then 0 else LastCounts(ups, n - 1) + if EndsLife(ups, n - 1) then ups[n - 1].tipCount else 0
  }

  lemma NextDepth(mmPerTip: real, ups: seq<Uplink>, n: nat)
    requires Lives(mmPerTip, ups) && n < |ups|
    ensures Depth(DeriveOne(Pred(None, ups, n), ups[n])) ==
            Depths(ups[n].tipCount - (if n > 0 && !ups[n].counterReset then ups[n - 1].tipCount else 0), mmPerTip)
  {
    if n == 0 {
      OneDepth(None, ups[0]);
    } else {
      hide Depth, Depths;
      Follows(ups[n - 1], ups[n]);
    }
  }

  lemma {:induction false} CountedDepth(mmPerTip: real, ups: seq<Uplink>, n: nat)
    requires Lives(mmPerTip, ups) && 0 < n <= |ups|
    ensures Depth(Derive(None, ups[..n])) == Depths(LastCounts(ups, n - 1) + ups[n - 1].tipCount, mmPerTip)
  {
    hide Depth, Depths, Lives, Derive, LastCounts, Usable;
    NextDepth(mmPerTip, ups, n - 1);
    DeriveNext(ups, n - 1);
    var told := LastCounts(ups, n - 1) + ups[n - 1].tipCount;
    if n > 1 {
      CountedDepth(mmPerTip, ups, n - 1);
      CountsNext(ups, n - 1);
      DepthsAdd(told, LastCounts(ups, n - 2) + ups[n - 2].tipCount, mmPerTip);
    } else {
      NoneYet(ups, mmPerTip);
    }
  }

  lemma DeriveNext(ups: seq<Uplink>, n: nat)
    requires n < |ups|
    ensures Depth(Derive(None, ups[..n + 1])) ==
              Depth(Derive(None, ups[..n])) + Depth(DeriveOne(Pred(None, ups, n), ups[n]))
  {
    hide Depth, DeriveOne;
    assert ups[..n + 1][..n] == ups[..n];
    assert Pred(None, ups[..n + 1], n) == Pred(None, ups, n);
    DepthJoin(Derive(None, ups[..n]), DeriveOne(Pred(None, ups, n), ups[n]));
  }

  lemma CountsNext(ups: seq<Uplink>, n: nat)
    requires 0 < n < |ups|
    ensures LastCounts(ups, n) == LastCounts(ups, n - 1) + if ups[n].counterReset then ups[n - 1].tipCount else 0
  {
  }

  lemma NoneYet(ups: seq<Uplink>, mmPerTip: real)
    ensures Depth(Derive(None, ups[..0])) == 0.0 && LastCounts(ups, 0) == 0
  {
    assert ups[..0] == [];
  }

  lemma {:induction false} LivesDepth(mmPerTip: real, ups: seq<Uplink>)
    requires Lives(mmPerTip, ups)
    ensures Depth(Derive(None, ups)) == Depths(LastCounts(ups, |ups|), mmPerTip)
  {
    hide Depth, Depths, Derive, Usable;
    CountedDepth(mmPerTip, ups, |ups|);
    assert ups[..|ups|] == ups;
  }

  // ----- losses ------------------------------------------------------------------------------------------------------

  /** Some of the uplinks, each life's first and last among them. */
  ghost predicate KeepsLives(keep: seq<nat>, ups: seq<Uplink>) {
    && Rising(keep, |ups|) && keep != []
    && (forall i :: 0 <= i < |ups| && (ups[i].counterReset || EndsLife(ups, i)) ==> Kept(keep, i))
  }

  ghost predicate Kept(keep: seq<nat>, i: nat) { exists j :: 0 <= j < |keep| && keep[j] == i }

  /** Between two neighbouring kept uplinks no life begins or ends. */
  lemma Between(keep: seq<nat>, ups: seq<Uplink>, j: nat, i: nat)
    requires KeepsLives(keep, ups) && j < |keep| && keep[j] < i && (j + 1 < |keep| ==> i < keep[j + 1]) && i < |ups|
    ensures !ups[i].counterReset && !EndsLife(ups, i)
  {
    hide EndsLife;
    forall m | 0 <= m < |keep| ensures keep[m] != i {
      if m <= j { assert keep[m] <= keep[j]; } else { assert keep[j + 1] <= keep[m]; }
    }
  }

  lemma FirstLast(keep: seq<nat>, ups: seq<Uplink>)
    requires KeepsLives(keep, ups) && ups != [] && ups[0].counterReset
    ensures keep[0] == 0 && keep[|keep| - 1] == |ups| - 1
  {
    var last: nat := |ups| - 1;
    assert EndsLife(ups, last);
    assert Kept(keep, 0) && Kept(keep, last);
    var a :| 0 <= a < |keep| && keep[a] == 0;
    var b :| 0 <= b < |keep| && keep[b] == last;
  }

  /** A kept uplink ends its life among the kept ones exactly if it did before. */
  lemma StillEnds(keep: seq<nat>, ups: seq<Uplink>, j: nat)
    requires KeepsLives(keep, ups) && ups != [] && ups[0].counterReset && j < |keep|
    ensures EndsLife(Picked(ups, keep), j) <==> EndsLife(ups, keep[j])
  {
    FirstLast(keep, ups);
    if j + 1 < |keep| {
      var i := keep[j] + 1;
      assert keep[j] < keep[j + 1];
      if i < keep[j + 1] {
        Between(keep, ups, j, i);
        Between(keep, ups, j, keep[j + 1] - 1);
      }
    }
  }

  lemma {:induction false} CountGrows(mmPerTip: real, ups: seq<Uplink>, a: nat, b: nat)
    requires Lives(mmPerTip, ups) && a <= b < |ups| && forall i :: a < i <= b ==> !ups[i].counterReset
    ensures ups[a].tipCount <= ups[b].tipCount
    decreases b
  {
    hide Usable;
    if a < b { CountGrows(mmPerTip, ups, a, b - 1); }
  }

  lemma PickedLives(mmPerTip: real, ups: seq<Uplink>, keep: seq<nat>)
    requires Lives(mmPerTip, ups) && KeepsLives(keep, ups)
    ensures Lives(mmPerTip, Picked(ups, keep))
  {
    hide Usable, EndsLife, Kept;
    var s := Picked(ups, keep);
    FirstLast(keep, ups);
    forall i, j | 0 <= i < j < |s| ensures s[i].at + SECOND <= s[j].at { assert keep[i] < keep[j]; }
    forall j | 0 < j < |s| && !s[j].counterReset ensures s[j - 1].tipCount <= s[j].tipCount {
      assert keep[j - 1] < keep[j];
      forall i | keep[j - 1] < i <= keep[j] ensures !ups[i].counterReset {
        if i < keep[j] { Between(keep, ups, j - 1, i); }
      }
      CountGrows(mmPerTip, ups, keep[j - 1], keep[j]);
    }
  }

  /** Nothing is counted between neighbouring kept uplinks. */
  lemma {:induction false} NoCounts(keep: seq<nat>, ups: seq<Uplink>, j: nat, n: nat)
    requires KeepsLives(keep, ups) && j < |keep| && keep[j] < n <= |ups| && (j + 1 < |keep| ==> n <= keep[j + 1])
    ensures LastCounts(ups, n) == LastCounts(ups, keep[j] + 1)
    decreases n
  {
    hide KeepsLives, EndsLife;
    if n > keep[j] + 1 {
      NoCounts(keep, ups, j, n - 1);
      Between(keep, ups, j, n - 1);
    }
  }

  lemma {:induction false} PickedCounts(keep: seq<nat>, ups: seq<Uplink>, j: nat)
    requires KeepsLives(keep, ups) && ups != [] && ups[0].counterReset && 0 < j <= |keep|
    ensures LastCounts(Picked(ups, keep), j) == LastCounts(ups, keep[j - 1] + 1)
  {
    hide EndsLife;
    var s := Picked(ups, keep);
    StillEnds(keep, ups, j - 1);
    FirstLast(keep, ups);
    if j > 1 {
      PickedCounts(keep, ups, j - 1);
      assert keep[j - 2] < keep[j - 1];
      NoCounts(keep, ups, j - 2, keep[j - 1]);
    }
  }

  /** The rows of a gauge that reboots any number of times add up to the tips each life counted last, whether or not a
      new life's count exceeds the old one's, and whatever uplinks are lost but each life's first and last. */
  lemma LivesConserve(mmPerTip: real, ups: seq<Uplink>, keep: seq<nat>)
    requires Lives(mmPerTip, ups) && KeepsLives(keep, ups)
    ensures Depth(Derive(None, Picked(ups, keep))) == Depth(Derive(None, ups)) ==
              Depths(LastCounts(ups, |ups|), mmPerTip)
  {
    hide Depth, Derive, Depths, LastCounts, Usable, EndsLife, Kept;
    PickedLives(mmPerTip, ups, keep);
    LivesDepth(mmPerTip, ups);
    LivesDepth(mmPerTip, Picked(ups, keep));
    FirstLast(keep, ups);
    PickedCounts(keep, ups, |keep|);
  }
}
