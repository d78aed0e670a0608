/** What a refresh leaves in the table of storms, said of its rows alone (internal/storms/storms.go). */
module StormRecords {
  import opened Common
  import opened Storms
  import opened StormRows

  // ----- one row ---------------------------------------------------------------------------------------------------

  /** A whole number of hundredths, and the nearest one. */
  ghost predicate Rounded(stored: real, v: real) {
    (stored * 100.0).Floor as real == stored * 100.0 && v - 0.005 <= stored <= v + 0.005
  }

  /** The last whole microsecond at or before `t`. */
  predicate LastMicro(stored: int, t: int) { stored % 1000 == 0 && stored <= t < stored + 1000 }

  /** The row tells of the storm: when its rain set in; when it ended, once it is closed and only then; its depth and
      its peak; and whether an own gauge saw it. */
  ghost predicate Records(r: Row, c: Computed) {
    && LastMicro(r.startedAt, c.storm.onset)
    && (r.endedAt.Some? <==> c.storm.closed) && (r.endedAt.Some? ==> LastMicro(r.endedAt.value, c.storm.rainEnd))
    && (r.status == Closed <==> c.storm.closed)
    && Rounded(r.total, c.storm.total) && Rounded(r.peak, c.storm.peak) && (r.source <==> c.gauge)
  }

  lemma RoundedIs(v: real)
    ensures Rounded(Round2(v), v)
  {
    if v >= 0.0 { RoundedUp(v); } else { RoundedDown(v); }
  }

  lemma RoundedUp(v: real)
    requires v >= 0.0
    ensures Rounded(Round2(v), v)
  {
    var n := (v * 100.0 + 0.5).Floor;
    Whole(n);
    Nearest(v, n);
  }

  lemma RoundedDown(v: real)
    requires v < 0.0
    ensures Rounded(Round2(v), v)
  {
    var n := (-v * 100.0 + 0.5).Floor;
    var x := n as real / 100.0;
    assert Round2(v) == -x;
    Whole(-n);
    Nearest(-v, n);
    Negated(n);
  }

  lemma Negated(n: int)
    ensures (-n) as real / 100.0 == -(n as real / 100.0)
  {
  }

  lemma Whole(n: int)
    ensures var s := n as real / 100.0; s * 100.0 == n as real && (s * 100.0).Floor as real == s * 100.0
  {
    var s := n as real / 100.0;
    assert s * 100.0 == n as real;
    assert (n as real).Floor == n;
  }

  lemma Nearest(v: real, n: int)
    requires n as real <= v * 100.0 + 0.5 < n as real + 1.0
    ensures v - 0.005 <= n as real / 100.0 <= v + 0.005
  {
  }

  lemma RowRecords(c: Computed)
    ensures Records(RowFor(c), c)
  {
    RoundedIs(c.storm.total);
    RoundedIs(c.storm.peak);
    hide Round2, Rounded;
  }

  // ----- the table -------------------------------------------------------------------------------------------------

  /** The row began in the window and had not ended by its start. */
  predicate Inside(r: Row, lo: int, hi: int) {
    r.startedAt >= lo && r.startedAt < hi && (r.endedAt == None || r.endedAt.value > lo)
  }

  predicate Began(r: Row, s: Storm) { r.startedAt >= s.firstRain && r.startedAt <= s.rainEnd }

  /** A row of the window that began during the storm, and no other such row comes before it by start and then id. */
  ghost predicate Earliest(t: Table, lo: int, hi: int, s: Storm, id: Id) {
    && id in t && Inside(t[id], lo, hi) && Began(t[id], s)
    && forall o <- t :: Inside(t[o], lo, hi) && Began(t[o], s) ==>
         t[id].startedAt < t[o].startedAt || (t[id].startedAt == t[o].startedAt && id.rank <= o.rank)
  }

  /** The storms with rain in the window are those at positions `at`. */
  ghost predicate RainIn(cs: seq<Computed>, lo: int, hi: int, at: seq<nat>) {
    && (forall j :: 0 <= j < |at| ==> at[j] < |cs|) && (forall i, j :: 0 <= i < j < |at| ==> at[i] < at[j])
    && (forall i :: 0 <= i < |cs| ==> (cs[i].storm.rainEnd > lo && cs[i].storm.firstRain < hi <==> Names(at, i)))
  }

  ghost predicate Names(at: seq<nat>, i: nat) { exists j :: 0 <= j < |at| && at[j] == i }

  /** One row for each storm with rain in the window, that records it, under ids of their own: the id of the earliest
      row that began during the storm, or a new one; every other row of the window is gone; all rows outside are as they
      were. */
  ghost predicate Replaced(t: Table, t': Table, cs: seq<Computed>, lo: int, hi: int, ids: seq<Id>, at: seq<nat>) {
    && RainIn(cs, lo, hi, at) && |ids| == |at| && (forall i, j :: 0 <= i < j < |ids| ==> ids[i] != ids[j])
    && (forall j :: 0 <= j < |ids| ==> ids[j] in t' && Records(t'[ids[j]], cs[at[j]]))
    && (forall j :: 0 <= j < |ids| ==> Earliest(t, lo, hi, cs[at[j]].storm, ids[j]) || ids[j] !in t)
    && (forall j :: 0 <= j < |ids| && ids[j] !in t ==>
          forall o <- t :: Inside(t[o], lo, hi) ==> !Began(t[o], cs[at[j]].storm))
    && (forall id <- t' :: id in ids || (id in t && !Inside(t[id], lo, hi)))
    && (forall id <- t :: !Inside(t[id], lo, hi) ==> id in t' && t'[id] == t[id])
  }

  ghost predicate TakenAt(cs: seq<Computed>, at: seq<nat>, ks: seq<Computed>) {
    |ks| == |at| && forall j :: 0 <= j < |at| ==> at[j] < |cs| && ks[j] == cs[at[j]]
  }

  lemma TakenOn(cs: seq<Computed>, at: seq<nat>, ks: seq<Computed>)
    requires cs != [] && TakenAt(cs[..|cs| - 1], at, ks)
    ensures TakenAt(cs, at, ks) && TakenAt(cs, at + [|cs| - 1], ks + [cs[|cs| - 1]])
  {
  }

  lemma {:induction false} KeptAre(cs: seq<Computed>, lo: int, hi: int) returns (at: seq<nat>)
    ensures RainIn(cs, lo, hi, at) && TakenAt(cs, at, Kept(cs, lo, hi))
  {
    at := [];
    if cs != [] {
      hide RainIn, Meets, TakenAt;
      var n := |cs| - 1;
      var before := KeptAre(cs[..n], lo, hi);
      RainInOn(cs, lo, hi, before);
      TakenOn(cs, before, Kept(cs[..n], lo, hi));
      at := if Meets(cs[n], lo, hi) then before + [n] else before;
    } else {
      NoRainIn(lo, hi);
    }
  }

  lemma NoRainIn(lo: int, hi: int)
    ensures RainIn([], lo, hi, []) && TakenAt([], [], [])
  {
  }

  lemma RainInOn(cs: seq<Computed>, lo: int, hi: int, at: seq<nat>)
    requires cs != [] && RainIn(cs[..|cs| - 1], lo, hi, at)
    ensures var n := |cs| - 1; RainIn(cs, lo, hi, if Meets(cs[n], lo, hi) then at + [n] else at)
  {
    var n := |cs| - 1;
    NamesOn(at, n);
    hide Names;
    assert forall i :: 0 <= i < n ==> cs[..n][i] == cs[i];
  }

  lemma NamesOn(at: seq<nat>, n: nat)
    requires forall j :: 0 <= j < |at| ==> at[j] < n
    ensures !Names(at, n) && forall i: nat :: Names(at + [n], i) <==> Names(at, i) || i == n
  {
    forall i: nat ensures Names(at + [n], i) <==> Names(at, i) || i == n {
      if j :| 0 <= j < |at| && at[j] == i { assert (at + [n])[j] == i; }
      if i == n { assert (at + [n])[|at|] == i; }
    }
  }

  lemma HeirIs(t: Table, lo: int, hi: int, c: Computed, id: Id)
    ensures Heir(t, lo, hi, c, id) ==> Earliest(t, lo, hi, c.storm, id)
    ensures !HasHeir(t, lo, hi, c) ==> forall o <- t :: Inside(t[o], lo, hi) ==> !Began(t[o], c.storm)
  {
    assert forall o <- t :: Owned(t[o], lo, hi) <==> Inside(t[o], lo, hi);
    assert forall o <- t :: InSpan(t[o], c) <==> Began(t[o], c.storm);
    hide Owned, Inside, InSpan, Began;
  }

  /** What a refresh does, in these terms. */
  lemma RefreshedMeans(t: Table, t': Table, cs: seq<Computed>, lo: int, hi: int, ids: seq<Id>) returns (at: seq<nat>)
    requires Refreshed(t, t', Kept(cs, lo, hi), lo, hi, ids)
    ensures Replaced(t, t', cs, lo, hi, ids, at)
  {
    at := KeptAre(cs, lo, hi);
    SameInside(t, lo, hi);
    hide Owned, Inside, Began, Heir, HasHeir, Earliest, Records, RowFor, Kept, RainIn;
    forall j | 0 <= j < |ids|
      ensures ids[j] in t' && Records(t'[ids[j]], cs[at[j]])
      ensures Earliest(t, lo, hi, cs[at[j]].storm, ids[j]) || ids[j] !in t
      ensures ids[j] !in t ==> forall o <- t :: Inside(t[o], lo, hi) ==> !Began(t[o], cs[at[j]].storm)
    {
      RowRecords(cs[at[j]]);
      HeirIs(t, lo, hi, cs[at[j]], ids[j]);
      HeirListed(t, lo, hi, cs[at[j]], ids[j]);
    }
  }

  lemma SameInside(t: Table, lo: int, hi: int)
    ensures forall o <- t :: Owned(t[o], lo, hi) <==> Inside(t[o], lo, hi)
  {
  }

  lemma HeirListed(t: Table, lo: int, hi: int, c: Computed, id: Id)
    ensures Heir(t, lo, hi, c, id) ==> id in t && HasHeir(t, lo, hi, c)
  {
    hide Owned, InSpan;
  }
}
