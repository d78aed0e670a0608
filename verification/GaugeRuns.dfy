/** Every order and batching in which a gauge's uplinks can be stored and handled ends in the
    rainfall rows that a derivation of the sorted history from scratch gives; and exactly when. */
module GaugeRuns {
  import opened Common
  import opened GaugeRainfall

  /** The tables of one gauge, and the uplinks the handler has committed so far. */
  datatype State = State(hist: seq<Uplink>, handled: set<Uplink>, rain: Table)

  /** Ingest stores an uplink; or the handler commits one poll's rows. A rolled-back poll changes
      nothing and is no step; a row may be polled again (`Handle` of handled uplinks). */
  datatype Step = Store(u: Uplink) | Handle(rows: seq<Uplink>)

  function Elements(h: seq<Uplink>): set<Uplink> { set u <- h }

  /** A poll only ever returns stored rows, so a `Handle` of anything else is no step at all. */
  function Apply(st: State, step: Step): State
    requires Sorted(st.hist)
  {
    match step
    case Store(u) => st.(hist := Insert(st.hist, u))
    case Handle(rows) =>
      if rows != [] && forall u <- rows :: u in st.hist then
        State(st.hist, st.handled + Elements(rows), Reconciled(st.hist, st.rain, MinAt(rows), MaxAt(rows)))
      else st
  }

  function Run(steps: seq<Step>): (st: State)
    ensures Sorted(st.hist)
  {
    if steps == [] then State([], {}, map[])
    else Apply(Run(steps[..|steps| - 1]), steps[|steps| - 1])
  }

  predicate AllHandled(st: State) { forall u <- st.hist :: u in st.handled }

  // ----- what every step keeps ---------------------------------------------------------------

  /** Neighbouring handled uplinks own exactly their derived rows. */
  ghost predicate CleanAmong(h: seq<Uplink>, handled: set<Uplink>, t: Table) {
    forall i :: 0 <= i < |h| && Joined(h, handled, i) ==> Clean(t, PredAt(h, i), h[i])
  }

  /** The i-th uplink is handled, and so is the one it is measured against. */
  ghost predicate Joined(h: seq<Uplink>, handled: set<Uplink>, i: int)
    requires 0 <= i < |h|
  {
    h[i] in handled && (i > 0 ==> h[i - 1] in handled)
  }

  /** No row starts at or after the newest uplink, and a row before the oldest one stems from the
      interval some booting uplink reported. */
  ghost predicate RowsBounded(h: seq<Uplink>, t: Table) {
    forall s <- t :: h != [] && s < h[|h| - 1].at && (s < h[0].at ==> FromBoot(h, s))
  }

  ghost predicate FromBoot(h: seq<Uplink>, s: int) { exists f <- h :: Boots(f) && NodeStart(f) <= s }

  ghost predicate Inv(st: State) {
    Sorted(st.hist) && CleanAmong(st.hist, st.handled, st.rain) && RowsBounded(st.hist, st.rain)
      && st.handled <= Elements(st.hist)
  }

  lemma StoreKeeps(h: seq<Uplink>, handled: set<Uplink>, t: Table, u: Uplink)
    requires Inv(State(h, handled, t))
    ensures Inv(State(Insert(h, u), handled, t))
  {
    hide Clean, FromBoot;
    var k := KeyPos(h, u);
    if !(k < |h| && SameKey(h[k], u)) {
      var h' := Insert(h, u);
      assert h' == h[..k] + [u] + h[k..];
      assert u !in h by {
        if i: nat :| i < |h| && h[i] == u {
          assert false;
        }
      }
      forall i | 0 <= i < |h'| && Joined(h', handled, i) ensures Clean(t, PredAt(h', i), h'[i]) {
        assert h'[k] == u && u !in handled;
        var j := if i < k then i else i - 1;
        assert h'[i] == h[j] && PredAt(h', i) == PredAt(h, j);
        assert Joined(h, handled, j);
      }
      forall s <- t ensures s < h'[|h'| - 1].at && (s < h'[0].at ==> FromBoot(h', s)) {
        assert k < |h| || KeyLess(h[|h| - 1], u);
        if s < h'[0].at {
          assert h'[0].at <= h[0].at;
          FromBootGrows(h, h', s);
        }
      }
    }
  }

  lemma FromBootGrows(h: seq<Uplink>, h': seq<Uplink>, s: int)
    requires FromBoot(h, s) && forall u <- h :: u in h'
    ensures FromBoot(h', s)
  {
  }

  lemma CleanUntouched(t: Table, t': Table, lo: int, hi: int, p: Option<Uplink>, u: Uplink)
    requires Clean(t, p, u)
    requires u.at <= lo || hi <= OwnedFrom(p, u)
    requires forall s :: !(lo <= s < hi) ==> Lookup(t', s) == Lookup(t, s)
    ensures Clean(t', p, u)
  {
    hide DeriveOne, Find;
  }

  lemma HandleCleans(h: seq<Uplink>, handled: set<Uplink>, t: Table, rows: seq<Uplink>)
    requires Sorted(h) && CleanAmong(h, handled, t)
    requires rows != [] && Touches(h, MinAt(rows), MaxAt(rows))
    ensures CleanAmong(h, handled + Elements(rows), Reconciled(h, t, MinAt(rows), MaxAt(rows)))
  {
    hide Reconciled, Clean, MinAt, MaxAt, Touches, Joined;
    var handled', t' := handled + Elements(rows), Reconciled(h, t, MinAt(rows), MaxAt(rows));
    forall i | 0 <= i < |h| && Joined(h, handled', i) ensures Clean(t', PredAt(h, i), h[i]) {
      HandleCleansOne(h, handled, t, rows, i);
    }
  }

  lemma HandleCleansOne(h: seq<Uplink>, handled: set<Uplink>, t: Table, rows: seq<Uplink>, i: nat)
    requires Sorted(h) && CleanAmong(h, handled, t)
    requires rows != [] && Touches(h, MinAt(rows), MaxAt(rows))
    requires i < |h| && Joined(h, handled + Elements(rows), i)
    ensures Clean(Reconciled(h, t, MinAt(rows), MaxAt(rows)), PredAt(h, i), h[i])
  {
    hide Find, Reconciled, Clean, Lookup, MinAt, MaxAt, Touches, Joined, Sorted;
    var from, to := MinAt(rows), MaxAt(rows);
    var t' := Reconciled(h, t, from, to);
    var a, k := FirstIndex(h, from), EndIndex(h, to);
    ReconciledMeaning(h, t, from, to);
    if i < a || i >= k {
      StillJoined(h, handled, rows, i);
      Elsewhere(h, from, to, i);
      CleanUntouched(t, t', OwnedFrom(PredAt(h, a), h[a]), h[k - 1].at, PredAt(h, i), h[i]);
    }
  }

  /** An uplink outside the rewritten range had its neighbours handled before. */
  lemma StillJoined(h: seq<Uplink>, handled: set<Uplink>, rows: seq<Uplink>, i: nat)
    requires Sorted(h) && rows != [] && Touches(h, MinAt(rows), MaxAt(rows)) && i < |h|
    requires i < FirstIndex(h, MinAt(rows)) || i >= EndIndex(h, MaxAt(rows))
    requires Joined(h, handled + Elements(rows), i)
    ensures Joined(h, handled, i)
  {
    hide MinAt, MaxAt, Touches;
    RangeMeaning(rows);
    TouchedRange(h, MinAt(rows), MaxAt(rows));
    if i >= EndIndex(h, MaxAt(rows)) { assert h[i - 1].at > MaxAt(rows) && h[i].at > MaxAt(rows); }
  }

  /** Its stretch lies outside the rewritten range. */
  lemma Elsewhere(h: seq<Uplink>, from: int, to: int, i: nat)
    requires Sorted(h) && Touches(h, from, to) && i < |h|
    requires i < FirstIndex(h, from) || i >= EndIndex(h, to)
    ensures FirstIndex(h, from) < EndIndex(h, to) <= |h|
    ensures var a, k := FirstIndex(h, from), EndIndex(h, to);
            h[i].at <= OwnedFrom(PredAt(h, a), h[a]) || h[k - 1].at <= OwnedFrom(PredAt(h, i), h[i])
  {
    TouchedRange(h, from, to);
    var a, k := FirstIndex(h, from), EndIndex(h, to);
    hide FirstIndex, EndIndex, Touches, Boots;
    if i < a {
      AtOrder(h, i, a - 1);
    } else {
      AtOrder(h, k - 1, i - 1);
    }
  }

  lemma AtOrder(h: seq<Uplink>, i: nat, j: nat)
    requires Sorted(h) && i <= j < |h|
    ensures h[i].at <= h[j].at
  {
    assert i == j || KeyLess(h[i], h[j]);
  }

  lemma HandleBounds(h: seq<Uplink>, t: Table, from: int, to: int)
    requires Sorted(h) && RowsBounded(h, t) && Touches(h, from, to)
    ensures RowsBounded(h, Reconciled(h, t, from, to))
  {
    hide Find, Reconciled, Clean, Touches, FromBoot, DeriveOne, Sorted, FirstIndex, EndIndex;
    ReconciledMeaning(h, t, from, to);
    var t' := Reconciled(h, t, from, to);
    var a, k := FirstIndex(h, from), EndIndex(h, to);
    var lo, hi := OwnedFrom(PredAt(h, a), h[a]), h[k - 1].at;
    AtOrder(h, k - 1, |h| - 1);
    if a > 0 { AtOrder(h, 0, a - 1); }
    forall s <- t' ensures s < h[|h| - 1].at && (s < h[0].at ==> FromBoot(h, s)) {
      if lo <= s < hi {
        if s < h[0].at { FromFirstBoot(h, s); }
      } else {
        assert Lookup(t', s) == Lookup(t, s);
        assert s in t;
      }
    }
  }

  lemma FromFirstBoot(h: seq<Uplink>, s: int)
    requires h != [] && Boots(h[0]) && NodeStart(h[0]) <= s
    ensures FromBoot(h, s)
  {
    assert h[0] in h;
  }

  lemma HandleKeeps(st: State, rows: seq<Uplink>)
    requires Inv(st)
    ensures Inv(Apply(st, Handle(rows)))
  {
    hide RowsBounded, CleanAmong, Reconciled;
    if rows != [] && forall u <- rows :: u in st.hist {
      assert Touches(st.hist, MinAt(rows), MaxAt(rows)) by { assert rows[0] in st.hist; }
      HandleCleans(st.hist, st.handled, st.rain, rows);
      HandleBounds(st.hist, st.rain, MinAt(rows), MaxAt(rows));
    }
  }

  lemma {:induction false} RunInv(steps: seq<Step>)
    ensures Inv(Run(steps))
  {
    if steps != [] {
      hide Insert, Reconciled, CleanAmong, RowsBounded;
      var n := |steps| - 1;
      var st := Run(steps[..n]);
      RunInv(steps[..n]);
      match steps[n]
      case Store(u) => StoreKeeps(st.hist, st.handled, st.rain, u);
      case Handle(rows) => HandleKeeps(st, rows);
    }
  }

  // ----- convergence, and exactly when it holds -----------------------------------------------

  /** No booting uplink's own interval begins before the time that belongs to the first uplink of
      the history: what a caller can check on the history alone. */
  ghost predicate BootsInside(h: seq<Uplink>) {
    forall f <- h :: Boots(f) ==> OwnedFrom(None, h[0]) <= NodeStart(f)
  }

  /** The from-scratch rows, stretch by stretch. */
  lemma ScratchMeaning(h: seq<Uplink>, s: int)
    requires Sorted(h) && h != []
    ensures Lookup(Scratch(h), s) == Find(Derive(None, h), s)
    ensures s < OwnedFrom(None, h[0]) || s >= h[|h| - 1].at ==> Lookup(Scratch(h), s) == None
    ensures forall i :: 0 <= i < |h| && OwnedFrom(PredAt(h, i), h[i]) <= s < h[i].at ==>
              Lookup(Scratch(h), s) == Find(DeriveOne(PredAt(h, i), h[i]), s)
  {
    hide DeriveOne, Derive, Find;
    assert h[..|h|] == h;
    DeriveBounds(None, h, |h|);
    forall i | 0 <= i < |h| && OwnedFrom(PredAt(h, i), h[i]) <= s < h[i].at
      ensures Find(Derive(None, h), s) == Find(DeriveOne(PredAt(h, i), h[i]), s)
    {
      DeriveAt(None, h, i, |h|, s);
    }
  }

  /** The stretch a time belongs to. */
  lemma StretchOf(h: seq<Uplink>, s: int) returns (i: nat)
    requires Sorted(h) && h != [] && OwnedFrom(None, h[0]) <= s < h[|h| - 1].at
    ensures i < |h| && OwnedFrom(PredAt(h, i), h[i]) <= s < h[i].at
  {
    i := CountBefore(h, s + 1);
  }

  /** Whatever the order, the batching and the repetitions: once every stored uplink has been
      handled, the rainfall table is the from-scratch derivation. */
  lemma Converges(steps: seq<Step>)
    requires AllHandled(Run(steps)) && BootsInside(Run(steps).hist)
    ensures Run(steps).rain == Scratch(Run(steps).hist)
  {
    hide Run, DeriveOne, Find, Scratch;
    RunInv(steps);
    var st := Run(steps);
    var h := st.hist;
    if h == [] {
      assert forall s :: s !in st.rain;
      assert st.rain == map[];
      EmptyScratch();
    } else {
      forall s ensures Lookup(st.rain, s) == Lookup(Scratch(h), s) {
        ScratchMeaning(h, s);
        if OwnedFrom(None, h[0]) <= s < h[|h| - 1].at {
          var i := StretchOf(h, s);
          assert h[i] in h && (i > 0 ==> h[i - 1] in h);
          assert Joined(h, st.handled, i);
        } else if s in st.rain {
          assert false;
        }
      }
      SameLookups(st.rain, Scratch(h));
    }
  }

  lemma EmptyScratch()
    ensures Scratch([]) == map[]
  {
  }

  lemma SameLookups(t: Table, t': Table)
    requires forall s :: Lookup(t, s) == Lookup(t', s)
    ensures t == t'
  {
    forall s ensures s in t <==> s in t' { assert Lookup(t, s) == Lookup(t', s); }
    assert t.Keys == t'.Keys;
    forall s <- t ensures t[s] == t'[s] { assert Lookup(t, s) == Lookup(t', s); }
  }

  // ----- the failing family ---------------------------------------------------------------------

  function Stores(h: seq<Uplink>): seq<Step> { seq(|h|, i requires 0 <= i < |h| => Store(h[i])) }

  /** Handle `f` alone as if it were the gauge's first uplink, then store and handle everything. */
  function BootFirst(h: seq<Uplink>, f: Uplink): seq<Step> {
    [Store(f), Handle([f])] + Stores(h) + [Handle(h)]
  }

  lemma BootAlone(f: Uplink)
    ensures Run([Store(f), Handle([f])]).hist == [f]
    ensures Run([Store(f), Handle([f])]).handled == {f}
    ensures Run([Store(f), Handle([f])]).rain == Reconciled([f], map[], f.at, f.at)
  {
    hide Reconciled;
    var two: seq<Step> := [Store(f), Handle([f])];
    assert two[..1] == [Store(f)];
    assert two[..1][..0] == [];
    assert Run(two[..1]) == State([f], {}, map[]);
    assert MinAt([f]) == f.at && MaxAt([f]) == f.at;
  }

  /** Storing a history in order around an uplink of it already stored. */
  lemma {:induction false} StoresBuild(h: seq<Uplink>, j: nat, m: nat)
    requires Sorted(h) && j < |h| && m <= |h|
    ensures var pre: seq<Step> := [Store(h[j]), Handle([h[j]])];
            var st := Run(pre + Stores(h)[..m]);
            && st.hist == (if j < m then h[..m] else h[..m] + [h[j]])
            && st.rain == Run(pre).rain && st.handled == Run(pre).handled
  {
    hide Reconciled, Run, Insert;
    var pre: seq<Step> := [Store(h[j]), Handle([h[j]])];
    if m == 0 {
      assert pre + Stores(h)[..0] == pre;
      BootAlone(h[j]);
    } else {
      StoresBuild(h, j, m - 1);
      assert pre + Stores(h)[..m] == (pre + Stores(h)[..m - 1]) + [Store(h[m - 1])];
      RunStep(pre + Stores(h)[..m - 1], Store(h[m - 1]));
      InsertNext(h, j, m - 1);
    }
  }

  lemma InsertNext(h: seq<Uplink>, j: nat, m: nat)
    requires Sorted(h) && j < |h| && m < |h|
    requires Sorted(if j < m then h[..m] else h[..m] + [h[j]])
    ensures Insert(if j < m then h[..m] else h[..m] + [h[j]], h[m]) ==
            if j <= m then h[..m + 1] else h[..m + 1] + [h[j]]
  {
    var g := if j < m then h[..m] else h[..m] + [h[j]];
    var k := KeyPos(g, h[m]);
    assert k == m by {
      assert forall i :: 0 <= i < m ==> g[i] == h[i];
      assert m > 0 ==> KeyLess(g[m - 1], h[m]);
      assert |g| > m ==> !KeyLess(g[m], h[m]);
    }
  }

  /** Handling a whole history never reaches before its first stretch. */
  lemma WholeHandle(h: seq<Uplink>, t: Table, s: int)
    requires Sorted(h) && h != [] && s < OwnedFrom(None, h[0])
    ensures Touches(h, MinAt(h), MaxAt(h))
    ensures Lookup(Reconciled(h, t, MinAt(h), MaxAt(h)), s) == Lookup(t, s)
  {
    hide DeriveOne, Find, Reconciled, Boots, Clean, EndIndex, Lookup, OwnedFrom;
    FirstIsEarliest(h);
    RangeMeaning(h);
    assert MinAt(h) == h[0].at;
    assert Touches(h, MinAt(h), MaxAt(h)) by { assert h[0] in h; }
    ReconciledMeaning(h, t, MinAt(h), MaxAt(h));
    assert FirstIndex(h, MinAt(h)) == 0;
  }

  lemma BootFirstRun(h: seq<Uplink>, j: nat)
    requires Sorted(h) && j < |h| && Touches(h, MinAt(h), MaxAt(h))
    ensures var st := Run(BootFirst(h, h[j]));
            && st.hist == h && AllHandled(st)
            && st.rain == Reconciled(h, Reconciled([h[j]], map[], h[j].at, h[j].at), MinAt(h), MaxAt(h))
  {
    hide Reconciled, Sorted, Touches, Run, MinAt, MaxAt;
    var f := h[j];
    var pre: seq<Step> := [Store(f), Handle([f])];
    StoresBuild(h, j, |h|);
    assert Stores(h)[..|h|] == Stores(h) && h[..|h|] == h;
    BootAlone(f);
    RunStep(pre + Stores(h), Handle(h));
  }

  lemma RunStep(steps: seq<Step>, step: Step)
    ensures Run(steps + [step]) == Apply(Run(steps), step)
  {
    assert (steps + [step])[..|steps|] == steps;
  }

  /** If some boot interval sticks out, there is an order that leaves a stale row behind for good. */
  lemma StaleRow(h: seq<Uplink>, j: nat)
    requires Sorted(h) && j < |h| && Boots(h[j]) && NodeStart(h[j]) < OwnedFrom(None, h[0])
    ensures var st := Run(BootFirst(h, h[j]));
            && st.hist == h && AllHandled(st)
            && NodeStart(h[j]) in st.rain && NodeStart(h[j]) !in Scratch(h)
  {
    hide Run, DeriveOne, Find, Scratch, Reconciled, BootFirst;
    var f := h[j];
    BootRow(f);
    WholeHandle(h, Reconciled([f], map[], f.at, f.at), NodeStart(f));
    BootFirstRun(h, j);
    ScratchMeaning(h, NodeStart(f));
  }

  lemma FirstIsEarliest(h: seq<Uplink>)
    requires Sorted(h) && h != []
    ensures forall u <- h :: h[0].at <= u.at
  {
    forall i | 0 <= i < |h| ensures h[0].at <= h[i].at { AtOrder(h, 0, i); }
  }

  lemma BootRow(f: Uplink)
    requires Boots(f)
    ensures NodeStart(f) in Reconciled([f], map[], f.at, f.at)
  {
    hide Reconciled, Clean;
    assert f in [f];
    ReconciledMeaning([f], map[], f.at, f.at);
    var t := Reconciled([f], map[], f.at, f.at);
    assert FirstIndex([f], f.at) == 0 && EndIndex([f], f.at) == 1;
    assert Clean(t, None, f);
    BootRowAt(f, t);
  }

  lemma BootRowAt(f: Uplink, t: Table)
    requires Boots(f) && Clean(t, None, f)
    ensures NodeStart(f) in t
  {
    var rows := DeriveOne(None, f);
    assert rows[0].start == NodeStart(f);
    assert Lookup(t, NodeStart(f)) == Find(rows, NodeStart(f));
    assert rows[0] in rows;
  }

  /** Incremental reconciliation agrees with the from-scratch derivation in every run that handles
      the history `h` if and only if no boot interval in `h` begins before its first stretch. */
  lemma ConvergesExactly(h: seq<Uplink>)
    requires Sorted(h)
    ensures BootsInside(h) <==>
            forall steps :: Run(steps).hist == h && AllHandled(Run(steps)) ==> Run(steps).rain == Scratch(h)
  {
    hide Run, Scratch, Boots;
    if BootsInside(h) {
      forall steps | Run(steps).hist == h && AllHandled(Run(steps)) ensures Run(steps).rain == Scratch(h) {
        Converges(steps);
      }
    } else {
      var f :| f in h && Boots(f) && NodeStart(f) < OwnedFrom(None, h[0]);
      var j: nat :| j < |h| && h[j] == f;
      StaleRow(h, j);
    }
  }

  /** A concrete failing history: a boot report overtakes an earlier uplink inside its interval. */
  lemma LateUplinkBehindBoot()
    ensures var x := Uplink(100 * SECOND, 1, 7, 0.2, 60, false, false);
            var f := Uplink(1000 * SECOND, 2, 3, 0.2, 950, true, false);
            var st := Run(BootFirst([x, f], f));
            AllHandled(st) && st.hist == [x, f] && st.rain != Scratch([x, f])
  {
    hide Run, Scratch;
    var x := Uplink(100 * SECOND, 1, 7, 0.2, 60, false, false);
    var f := Uplink(1000 * SECOND, 2, 3, 0.2, 950, true, false);
    StaleRow([x, f], 1);
  }
}
