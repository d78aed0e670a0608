/** The neighbourhood hub and the client that folds its stream
    (internal/gateway/watch.go, web/src/lib/neighbourhood.ts). */
module Watch {
  import opened Common

  datatype Update =
    | StatusUpdate(ts: int, segment: int, status: int)
    | StormUpdate(storm: int, event: int)
    | AlertUpdate(alert: int, resolved: bool, detail: int, owners: seq<string>)

  /** An update and the segment that decides, with an alert's owners, who may receive it. The owners of the alert's home
      go with the update here; the message on the wire does not carry them. */
  datatype Routed = Routed(u: Update, segment: int)

  // ----- the client ------------------------------------------------------------------------------------------

  datatype Neighbourhood = Neighbourhood(statuses: map<int, int>, storms: map<int, int>, alerts: map<int, int>,
                                         asOf: Option<int>)

  const empty := Neighbourhood(map[], map[], map[], None)

  function ApplyUpdate(n: Neighbourhood, u: Update): Neighbourhood {
    match u
    case StatusUpdate(ts, segment, status) => n.(statuses := n.statuses[segment := status], asOf := Some(ts))
    case StormUpdate(storm, event) => n.(storms := n.storms[storm := event])
    case AlertUpdate(alert, resolved, detail, _) =>
      n.(alerts := if resolved then map a | a in n.alerts && a != alert :: n.alerts[a] else n.alerts[alert := detail])
  }

  function Fold(us: seq<Update>): Neighbourhood {
    if us == [] then empty else ApplyUpdate(Fold(us[..|us| - 1]), us[|us| - 1])
  }

  /** The status the stream last gave for a segment. */
  function Latest(us: seq<Update>, id: int): Option<int> {
    if us == [] then None else
    var u := us[|us| - 1];
    if u.StatusUpdate? && u.segment == id then Some(u.status) else Latest(us[..|us| - 1], id)
  }

  lemma {:induction false} FoldStatuses(us: seq<Update>, id: int)
    ensures Latest(us, id) == if id in Fold(us).statuses then Some(Fold(us).statuses[id]) else None
  {
    if us != [] { FoldStatuses(us[..|us| - 1], id); }
  }

  lemma {:induction false} LatestJoin(a: seq<Update>, b: seq<Update>, id: int)
    ensures Latest(a + b, id) == if Latest(b, id).Some? then Latest(b, id) else Latest(a, id)
  {
    if b == [] {
      assert a + b == a;
    } else {
      var n := |b| - 1;
      LatestJoin(a, b[..n], id);
      assert (a + b)[..|a| + n] == a + b[..n];
    }
  }

  /** The event the stream last gave for a storm. */
  function LatestStorm(us: seq<Update>, id: int): Option<int> {
    if us == [] then None else
    var u := us[|us| - 1];
    if u.StormUpdate? && u.storm == id then Some(u.event) else LatestStorm(us[..|us| - 1], id)
  }

  lemma {:induction false} FoldStorms(us: seq<Update>, id: int)
    ensures LatestStorm(us, id) == if id in Fold(us).storms then Some(Fold(us).storms[id]) else None
  {
    if us != [] { FoldStorms(us[..|us| - 1], id); }
  }

  /** What the stream last said of an alert: how it stands, or that it is over. */
  datatype Told = Nothing | Over | Stands(detail: int)

  function LatestAlert(us: seq<Update>, id: int): Told {
    if us == [] then Nothing else
    var u := us[|us| - 1];
    if u.AlertUpdate? && u.alert == id then (if u.resolved then Over else Stands(u.detail))
    else LatestAlert(us[..|us| - 1], id)
  }

  /** The client shows exactly the alerts that stand, as they were last told. */
  lemma {:induction false} FoldAlerts(us: seq<Update>, id: int)
    ensures id in Fold(us).alerts <==> LatestAlert(us, id).Stands?
    ensures id in Fold(us).alerts ==> LatestAlert(us, id) == Stands(Fold(us).alerts[id])
  {
    if us != [] { FoldAlerts(us[..|us| - 1], id); }
  }

  /** The view is as of the last status. */
  lemma {:induction false} FoldAsOf(us: seq<Update>, i: nat)
    requires i < |us| && us[i].StatusUpdate? && forall j :: i < j < |us| ==> !us[j].StatusUpdate?
    ensures Fold(us).asOf == Some(us[i].ts)
  {
    if i < |us| - 1 { FoldAsOf(us[..|us| - 1], i); }
  }

  lemma {:induction false} StormJoin(a: seq<Update>, b: seq<Update>, id: int)
    ensures LatestStorm(a + b, id) == if LatestStorm(b, id).Some? then LatestStorm(b, id) else LatestStorm(a, id)
  {
    if b == [] {
      assert a + b == a;
    } else {
      var n := |b| - 1;
      StormJoin(a, b[..n], id);
      assert (a + b)[..|a| + n] == a + b[..n];
    }
  }

  lemma {:induction false} AlertJoin(a: seq<Update>, b: seq<Update>, id: int)
    ensures LatestAlert(a + b, id) == if LatestAlert(b, id) != Nothing then LatestAlert(b, id) else LatestAlert(a, id)
  {
    if b == [] {
      assert a + b == a;
    } else {
      var n := |b| - 1;
      AlertJoin(a, b[..n], id);
      assert (a + b)[..|a| + n] == a + b[..n];
    }
  }

  // ----- subscribers -------------------------------------------------------------------------------------------

  /** `sent` went down the stream, `snapshot` still has to before anything queued. */
  datatype Subscriber = Subscriber(subject: string, segments: Option<set<int>>, wantsSnapshot: bool,
                                   sent: seq<Update>, snapshot: seq<Update>, queue: seq<Update>)

  predicate WantsSegment(s: Subscriber, id: int) { s.segments == None || id in s.segments.value }

  /** Statuses and storms are public; an alert goes only to an authenticated owner of its home. */
  predicate Wants(s: Subscriber, r: Routed) {
    match r.u
    case StatusUpdate(_, _, _) => WantsSegment(s, r.segment)
    case StormUpdate(_, _) => true
    case AlertUpdate(_, _, _, owners) => s.subject != "" && s.subject in owners && WantsSegment(s, r.segment)
  }

  /** Everything the subscriber has been or will be sent so far. */
  function Stream(s: Subscriber): seq<Update> { s.sent + s.snapshot + s.queue }

  function Wanted(s: Subscriber, us: seq<Routed>): seq<Update> {
    if us == [] then [] else
    Wanted(s, us[..|us| - 1]) + (if Wants(s, us[|us| - 1]) then [us[|us| - 1].u] else [])
  }

  /** Queues the wanted updates; None if the queue fills up. */
  function Delivered(s: Subscriber, us: seq<Routed>, buffer: nat): Option<Subscriber> {
    if us == [] then Some(s) else
    var p := Delivered(s, us[..|us| - 1], buffer);
    if p == None || !Wants(s, us[|us| - 1]) then p
    else if |p.value.queue| < buffer then Some(p.value.(queue := p.value.queue + [us[|us| - 1].u]))
    else None
  }

  lemma {:induction false} DeliveredAll(s: Subscriber, us: seq<Routed>, buffer: nat)
    requires Delivered(s, us, buffer).Some?
    ensures Delivered(s, us, buffer).value == s.(queue := s.queue + Wanted(s, us))
  {
    if us == [] { assert s.queue + [] == s.queue; } else { DeliveredAll(s, us[..|us| - 1], buffer); }
  }

  // ----- who gets what ---------------------------------------------------------------------------------------------

  predicate AsksFor(s: Subscriber, segment: int) { s.segments.Some? ==> segment in s.segments.value }

  /** What a subscriber gets of `us`, in order: the statuses of the segments it asked for, every storm, and the alerts
      of those segments whose owners include its subject, if it has one. */
  ghost predicate Gets(s: Subscriber, us: seq<Routed>, got: seq<Update>, at: seq<nat>) {
    && Rising(at, |us|) && |at| == |got| && (forall j :: 0 <= j < |at| ==> got[j] == us[at[j]].u)
    && (forall i :: 0 <= i < |us| && us[i].u.StatusUpdate? ==> (Picks(at, i) <==> AsksFor(s, us[i].segment)))
    && (forall i :: 0 <= i < |us| && us[i].u.StormUpdate? ==> Picks(at, i))
    && (forall i :: 0 <= i < |us| && us[i].u.AlertUpdate? ==>
          (Picks(at, i) <==> s.subject != "" && s.subject in us[i].u.owners && AsksFor(s, us[i].segment)))
  }

  lemma {:induction false} WantedAre(s: Subscriber, us: seq<Routed>) returns (at: seq<nat>)
    ensures Gets(s, us, Wanted(s, us), at)
  {
    if us == [] {
      at := [];
    } else {
      hide Gets, Wants;
      var n := |us| - 1;
      var before := WantedAre(s, us[..n]);
      at := if Wants(s, us[n]) then before + [n] else before;
      GetsOn(s, us, Wanted(s, us[..n]), before);
      if !Wants(s, us[n]) { assert Wanted(s, us) == Wanted(s, us[..n]); }
    }
  }

  lemma GetsOn(s: Subscriber, us: seq<Routed>, got: seq<Update>, at: seq<nat>)
    requires us != [] && Gets(s, us[..|us| - 1], got, at)
    ensures var n := |us| - 1;
            if Wants(s, us[n]) then Gets(s, us, got + [us[n].u], at + [n]) else Gets(s, us, got, at)
  {
    var n := |us| - 1;
    assert Wants(s, us[n]) <==>
           match us[n].u
           case StatusUpdate(_, _, _) => AsksFor(s, us[n].segment)
           case StormUpdate(_, _) => true
           case AlertUpdate(_, _, _, owners) => s.subject != "" && s.subject in owners && AsksFor(s, us[n].segment);
    hide Wants, AsksFor;
    if Wants(s, us[n]) { PicksSnoc(at, n); } else { assert !Picks(at, n); }
    assert forall i :: 0 <= i < n ==> us[..n][i] == us[i];
    hide Picks;
  }

  /** What a new state publishes: the statuses that are new or differ, in catalogue order. */
  ghost predicate Differing(old_: map<int, int>, ts: int, statuses: map<int, int>, order: seq<int>, us: seq<Routed>,
                            at: seq<nat>)
  {
    && Rising(at, |order|) && |at| == |us| && (forall i :: 0 <= i < |order| ==> order[i] in statuses)
    && (forall j :: 0 <= j < |at| ==>
          us[j].u == StatusUpdate(ts, order[at[j]], statuses[order[at[j]]]) && us[j].segment == order[at[j]])
    && (forall i :: 0 <= i < |order| ==>
          (Picks(at, i) <==> order[i] in old_ ==> old_[order[i]] != statuses[order[i]]))
  }

  lemma {:induction false} ChangesAre(old_: map<int, int>, ts: int, statuses: map<int, int>, order: seq<int>)
      returns (at: seq<nat>)
    requires forall id <- order :: id in statuses
    ensures Differing(old_, ts, statuses, order, Changes(old_, ts, statuses, order), at)
  {
    if order == [] {
      at := [];
    } else {
      hide Differing;
      var n := |order| - 1;
      var last := order[n];
      assert last in order;
      assert last in statuses;
      assert order == order[..n] + [last];
      var before := ChangesAre(old_, ts, statuses, order[..n]);
      var us := Changes(old_, ts, statuses, order[..n]);
      DifferingOn(old_, ts, statuses, order, us, before);
      at := if order[n] in old_ && old_[order[n]] == statuses[order[n]] then before else before + [n];
      assert us + [] == us;
    }
  }

  lemma DifferingOn(old_: map<int, int>, ts: int, statuses: map<int, int>, order: seq<int>, us: seq<Routed>,
                    at: seq<nat>)
    requires order != [] && order[|order| - 1] in statuses
    requires Differing(old_, ts, statuses, order[..|order| - 1], us, at)
    ensures var n, id := |order| - 1, order[|order| - 1];
            if id in old_ && old_[id] == statuses[id] then Differing(old_, ts, statuses, order, us, at)
            else Differing(old_, ts, statuses, order, us + [Routed(StatusUpdate(ts, id, statuses[id]), id)], at + [n])
  {
    var n := |order| - 1;
    PicksSnoc(at, n);
    assert !Picks(at, n);
    assert forall i :: 0 <= i < n ==> order[..n][i] == order[i];
    hide Picks;
  }

  /** A subscriber keeps up exactly if its queue has room for all it gets. */
  lemma {:induction false} KeepsUp(s: Subscriber, us: seq<Routed>, buffer: nat)
    requires |s.queue| <= buffer
    ensures Delivered(s, us, buffer).Some? <==> |s.queue| + |Wanted(s, us)| <= buffer
  {
    if us != [] {
      var n := |us| - 1;
      KeepsUp(s, us[..n], buffer);
      if Delivered(s, us[..n], buffer).Some? { DeliveredAll(s, us[..n], buffer); }
    }
  }

  /** Publishing to one subscriber: its queue grows by exactly what it gets, or it is dropped if that does not fit. */
  ghost predicate Served(s: Subscriber, us: seq<Routed>, buffer: nat, after: Option<Subscriber>) {
    exists got, at ::
      && Gets(s, us, got, at)
      && after == if |s.queue| + |got| <= buffer then Some(s.(queue := s.queue + got)) else None
  }

  lemma DeliveredServes(s: Subscriber, us: seq<Routed>, buffer: nat)
    requires |s.queue| <= buffer
    ensures Served(s, us, buffer, Delivered(s, us, buffer))
  {
    hide Gets, Wanted, Delivered;
    var at := WantedAre(s, us);
    KeepsUp(s, us, buffer);
    if Delivered(s, us, buffer).Some? { DeliveredAll(s, us, buffer); }
    assert Gets(s, us, Wanted(s, us), at);
  }

  // ----- storms and alerts -------------------------------------------------------------------------------------------

  /** The last event published of a storm. */
  function LastStorm(us: seq<Routed>, id: int): Option<int> {
    if us == [] then None else
    var u := us[|us| - 1].u;
    if u.StormUpdate? && u.storm == id then Some(u.event) else LastStorm(us[..|us| - 1], id)
  }

  /** What was last published of an alert to an owner who asked for its segment. */
  function LastAlert(s: Subscriber, us: seq<Routed>, id: int): Told {
    if us == [] then Nothing else
    var r := us[|us| - 1];
    if r.u.AlertUpdate? && r.u.alert == id && s.subject != "" && s.subject in r.u.owners && AsksFor(s, r.segment)
    then (if r.u.resolved then Over else Stands(r.u.detail))
    else LastAlert(s, us[..|us| - 1], id)
  }

  lemma {:induction false} WantedStorms(s: Subscriber, us: seq<Routed>, id: int)
    ensures LatestStorm(Wanted(s, us), id) == LastStorm(us, id)
  {
    if us != [] {
      var n := |us| - 1;
      WantedStorms(s, us[..n], id);
      var w := Wanted(s, us[..n]);
      assert (w + [us[n].u])[..|w|] == w;
      if !Wants(s, us[n]) { assert Wanted(s, us) == w; }
    }
  }

  lemma {:induction false} WantedAlerts(s: Subscriber, us: seq<Routed>, id: int)
    ensures LatestAlert(Wanted(s, us), id) == LastAlert(s, us, id)
  {
    if us != [] {
      var n := |us| - 1;
      WantedAlerts(s, us[..n], id);
      var w := Wanted(s, us[..n]);
      assert (w + [us[n].u])[..|w|] == w;
      if !Wants(s, us[n]) { assert Wanted(s, us) == w; }
    }
  }

  lemma {:induction false} LastJoin(s: Subscriber, a: seq<Routed>, b: seq<Routed>, id: int)
    ensures LastStorm(a + b, id) == if LastStorm(b, id).Some? then LastStorm(b, id) else LastStorm(a, id)
    ensures LastAlert(s, a + b, id) ==
            if LastAlert(s, b, id) != Nothing then LastAlert(s, b, id) else LastAlert(s, a, id)
  {
    if b == [] {
      assert a + b == a;
    } else {
      var n := |b| - 1;
      LastJoin(s, a, b[..n], id);
      assert (a + b)[..|a| + n] == a + b[..n];
    }
  }

  /** What the stream last says of each storm, and of each alert of the subscriber's, is what was last published of it
      since the subscription. */
  ghost predicate Hears(s: Subscriber, heard: seq<Routed>) {
    forall id :: (LastStorm(heard, id).Some? ==> LatestStorm(Stream(s), id) == LastStorm(heard, id))
              && (LastAlert(s, heard, id) != Nothing ==> LatestAlert(Stream(s), id) == LastAlert(s, heard, id))
  }

  /** Until the snapshot has gone out, the queue alone tells of storms and alerts. */
  ghost predicate OnlyStatuses(us: seq<Update>) { forall i :: 0 <= i < |us| ==> us[i].StatusUpdate? }

  lemma {:induction false} StatusesSayNothing(us: seq<Update>, id: int)
    requires OnlyStatuses(us)
    ensures LatestStorm(us, id) == None && LatestAlert(us, id) == Nothing
  {
    if us != [] { StatusesSayNothing(us[..|us| - 1], id); }
  }

  lemma PublishHears(s: Subscriber, heard: seq<Routed>, us: seq<Routed>, buffer: nat)
    requires Hears(s, heard) && Delivered(s, us, buffer).Some?
    ensures Hears(Delivered(s, us, buffer).value, heard + us)
  {
    var s' := Delivered(s, us, buffer).value;
    DeliveredAll(s, us, buffer);
    assert Stream(s') == Stream(s) + Wanted(s, us);
    forall id ensures LastAlert(s', heard + us, id) == LastAlert(s, heard + us, id) {
      SameOwner(s, s', heard + us, id);
    }
    hide Wanted, Delivered, Stream, LastStorm, LastAlert, LatestStorm, LatestAlert;
    forall id ensures (LastStorm(heard + us, id).Some? ==> LatestStorm(Stream(s'), id) == LastStorm(heard + us, id))
      && (LastAlert(s', heard + us, id) != Nothing ==> LatestAlert(Stream(s'), id) == LastAlert(s', heard + us, id))
    {
      LastJoin(s, heard, us, id);
      WantedStorms(s, us, id);
      WantedAlerts(s, us, id);
      StormJoin(Stream(s), Wanted(s, us), id);
      AlertJoin(Stream(s), Wanted(s, us), id);
    }
  }

  lemma {:induction false} SameOwner(s: Subscriber, s': Subscriber, us: seq<Routed>, id: int)
    requires s.subject == s'.subject && s.segments == s'.segments
    ensures LastAlert(s, us, id) == LastAlert(s', us, id)
  {
    if us != [] { SameOwner(s, s', us[..|us| - 1], id); }
  }

  /** Storms and alerts that go out with the snapshot come before those published since. */
  lemma MoreHears(s: Subscriber, heard: seq<Routed>, more: seq<Update>)
    requires Hears(s, heard) && s.sent == [] && OnlyStatuses(s.snapshot)
    ensures Hears(s.(sent := s.sent + s.snapshot + more, snapshot := []), heard)
  {
    var s' := s.(sent := s.sent + s.snapshot + more, snapshot := []);
    var q := s.queue;
    assert Stream(s) == s.snapshot + q && Stream(s') == (s.snapshot + more) + q;
    forall id ensures (LastStorm(heard, id).Some? ==> LatestStorm(Stream(s'), id) == LastStorm(heard, id))
      && (LastAlert(s', heard, id) != Nothing ==> LatestAlert(Stream(s'), id) == LastAlert(s', heard, id))
    {
      SameOwner(s, s', heard, id);
      StormJoin(s.snapshot, q, id);
      AlertJoin(s.snapshot, q, id);
      StormJoin(s.snapshot + more, q, id);
      AlertJoin(s.snapshot + more, q, id);
      StatusesSayNothing(s.snapshot, id);
      hide LastStorm, LastAlert, LatestStorm, LatestAlert, Stream;
    }
  }

  // ----- the hub -------------------------------------------------------------------------------------------------

  /** The changed statuses, in catalogue order. */
  function Changes(old_: map<int, int>, ts: int, statuses: map<int, int>, order: seq<int>): seq<Routed>
    requires forall id <- order :: id in statuses
  {
    if order == [] then [] else
    var n := |order| - 1;
    var id := order[n];
    Changes(old_, ts, statuses, order[..n]) +
    (if id in old_ && old_[id] == statuses[id] then [] else [Routed(StatusUpdate(ts, id, statuses[id]), id)])
  }

  /** A snapshot of all wanted statuses. */
  function Snapshot(s: Subscriber, ts: int, statuses: map<int, int>, order: seq<int>): seq<Update>
    requires forall id <- order :: id in statuses
  {
    if order == [] then [] else
    var n := |order| - 1;
    Snapshot(s, ts, statuses, order[..n])
      + (if WantsSegment(s, order[n]) then [StatusUpdate(ts, order[n], statuses[order[n]])] else [])
  }

  /** A snapshot holds the statuses of the segments asked for, in catalogue order, and nothing else. */
  ghost predicate Captured(s: Subscriber, ts: int, statuses: map<int, int>, order: seq<int>, us: seq<Update>,
                           at: seq<nat>)
  {
    && Rising(at, |order|) && |at| == |us| && (forall i :: 0 <= i < |order| ==> order[i] in statuses)
    && (forall j :: 0 <= j < |at| ==> us[j] == StatusUpdate(ts, order[at[j]], statuses[order[at[j]]]))
    && (forall i :: 0 <= i < |order| ==> (Picks(at, i) <==> AsksFor(s, order[i])))
  }

  lemma {:induction false} SnapshotAre(s: Subscriber, ts: int, statuses: map<int, int>, order: seq<int>)
      returns (at: seq<nat>)
    requires forall id <- order :: id in statuses
    ensures Captured(s, ts, statuses, order, Snapshot(s, ts, statuses, order), at)
  {
    if order == [] {
      at := [];
    } else {
      hide Captured;
      var n := |order| - 1;
      assert order == order[..n] + [order[n]];
      var before := SnapshotAre(s, ts, statuses, order[..n]);
      var us := Snapshot(s, ts, statuses, order[..n]);
      var last := order[n];
      assert last in order;
      assert last in statuses;
      CapturedOn(s, ts, statuses, order, us, before);
      at := if WantsSegment(s, order[n]) then before + [n] else before;
      assert us + [] == us;
    }
  }

  lemma CapturedOn(s: Subscriber, ts: int, statuses: map<int, int>, order: seq<int>, us: seq<Update>, at: seq<nat>)
    requires order != [] && order[|order| - 1] in statuses
    requires Captured(s, ts, statuses, order[..|order| - 1], us, at)
    ensures var n, id := |order| - 1, order[|order| - 1];
            if AsksFor(s, id) then Captured(s, ts, statuses, order, us + [StatusUpdate(ts, id, statuses[id])], at + [n])
            else Captured(s, ts, statuses, order, us, at)
  {
    var n := |order| - 1;
    PicksSnoc(at, n);
    assert !Picks(at, n);
    assert forall i :: 0 <= i < n ==> order[..n][i] == order[i];
    hide Picks;
  }

  lemma {:induction false} ChangesLatest(s: Subscriber, old_: map<int, int>, ts: int, statuses: map<int, int>,
                                         order: seq<int>, id: int)
    requires forall x <- order :: x in statuses
    ensures Latest(Wanted(s, Changes(old_, ts, statuses, order)), id) ==
            if id in order && WantsSegment(s, id) && !(id in old_ && old_[id] == statuses[id]) then Some(statuses[id])
            else None
  {
    if order != [] {
      var n := |order| - 1;
      assert order == order[..n] + [order[n]];
      ChangesLatest(s, old_, ts, statuses, order[..n], id);
      var c := Changes(old_, ts, statuses, order[..n]);
      var last := order[n];
      if !(last in old_ && old_[last] == statuses[last]) {
        var r := Routed(StatusUpdate(ts, last, statuses[last]), last);
        assert (c + [r])[..|c|] == c;
        if Wants(s, r) {
          LatestSnoc(Wanted(s, c), r.u, id);
        } else {
          assert Wanted(s, c + [r]) == Wanted(s, c);
        }
      } else {
        assert Changes(old_, ts, statuses, order) == c;
      }
    }
  }

  lemma LatestSnoc(us: seq<Update>, u: Update, id: int)
    ensures Latest(us + [u], id) == if u.StatusUpdate? && u.segment == id then Some(u.status) else Latest(us, id)
  {
    assert (us + [u])[..|us|] == us;
  }

  lemma {:induction false} SnapshotLatest(s: Subscriber, ts: int, statuses: map<int, int>, order: seq<int>, id: int)
    requires forall x <- order :: x in statuses
    ensures Latest(Snapshot(s, ts, statuses, order), id) ==
            if id in order && WantsSegment(s, id) then Some(statuses[id]) else None
  {
    if order != [] {
      var n := |order| - 1;
      assert order == order[..n] + [order[n]];
      SnapshotLatest(s, ts, statuses, order[..n], id);
      var p := Snapshot(s, ts, statuses, order[..n]);
      if WantsSegment(s, order[n]) {
        LatestSnoc(p, StatusUpdate(ts, order[n], statuses[order[n]]), id);
      } else {
        assert Snapshot(s, ts, statuses, order) == p;
      }
    }
  }

  /** No update here sets a status. */
  predicate NoStatus(us: seq<Update>) { forall i :: 0 <= i < |us| ==> !us[i].StatusUpdate? }

  predicate ExtraOnly(us: seq<Routed>) { forall i :: 0 <= i < |us| ==> !us[i].u.StatusUpdate? }

  lemma {:induction false} NoStatusLatest(us: seq<Update>, id: int)
    requires NoStatus(us)
    ensures Latest(us, id) == None
  {
    if us != [] { NoStatusLatest(us[..|us| - 1], id); }
  }

  lemma {:induction false} WantedExtra(s: Subscriber, us: seq<Routed>)
    requires ExtraOnly(us)
    ensures NoStatus(Wanted(s, us))
  {
    if us != [] { WantedExtra(s, us[..|us| - 1]); }
  }

  lemma {:induction false} WantedJoin(s: Subscriber, a: seq<Routed>, b: seq<Routed>)
    ensures Wanted(s, a + b) == Wanted(s, a) + Wanted(s, b)
  {
    if b == [] {
      assert a + b == a;
    } else {
      var n := |b| - 1;
      WantedJoin(s, a, b[..n]);
      assert (a + b)[..|a| + n] == a + b[..n];
    }
  }

  /** What the stream says last about each wanted segment is the hub's status; with a snapshot it says it of all. */
  ghost predicate Follows(s: Subscriber, statuses: map<int, int>) {
    forall id <- statuses :: WantsSegment(s, id) ==>
      (Latest(Stream(s), id) == Some(statuses[id]) || (!s.wantsSnapshot && Latest(Stream(s), id) == None))
  }

  /** The update may be sent to this subscriber: an alert only to an authenticated owner of its home. */
  predicate MaySee(subject: string, u: Update) { u.AlertUpdate? ==> subject != "" && subject in u.owners }

  ghost predicate AllMaySee(subject: string, us: seq<Update>) { forall i :: 0 <= i < |us| ==> MaySee(subject, us[i]) }

  /** Every alert in the stream goes to an owner of its home. */
  ghost predicate Discreet(s: Subscriber) { AllMaySee(s.subject, Stream(s)) }

  lemma {:induction false} WantedDiscreet(s: Subscriber, us: seq<Routed>)
    ensures AllMaySee(s.subject, Wanted(s, us))
  {
    if us != [] { WantedDiscreet(s, us[..|us| - 1]); }
  }

  ghost predicate Catalogue(statuses: map<int, int>, order: seq<int>) { forall id :: id in order <==> id in statuses }

  lemma PublishFollows(s: Subscriber, old_: map<int, int>, ts: int, statuses: map<int, int>, order: seq<int>,
                       extra: seq<Routed>, buffer: nat)
    requires Follows(s, old_) && Catalogue(statuses, order) && ExtraOnly(extra)
    requires Delivered(s, Changes(old_, ts, statuses, order) + extra, buffer).Some?
    ensures Follows(Delivered(s, Changes(old_, ts, statuses, order) + extra, buffer).value, statuses)
  {
    var us := Changes(old_, ts, statuses, order) + extra;
    var s' := Delivered(s, us, buffer).value;
    DeliveredAll(s, us, buffer);
    WantedJoin(s, Changes(old_, ts, statuses, order), extra);
    WantedExtra(s, extra);
    assert Stream(s') == Stream(s) + Wanted(s, us);
    hide Wanted, Changes, Delivered, Stream;
    forall id <- statuses | WantsSegment(s', id)
      ensures Latest(Stream(s'), id) == Some(statuses[id]) || (!s'.wantsSnapshot && Latest(Stream(s'), id) == None)
    {
      ChangesLatest(s, old_, ts, statuses, order, id);
      LatestJoin(Stream(s), Wanted(s, us), id);
      LatestJoin(Wanted(s, Changes(old_, ts, statuses, order)), Wanted(s, extra), id);
      NoStatusLatest(Wanted(s, extra), id);
      hide Latest;
    }
  }

  lemma PublishDiscreet(s: Subscriber, us: seq<Routed>, buffer: nat)
    requires Discreet(s) && Delivered(s, us, buffer).Some?
    ensures Discreet(Delivered(s, us, buffer).value)
  {
    var s' := Delivered(s, us, buffer).value;
    DeliveredAll(s, us, buffer);
    assert Stream(s') == Stream(s) + Wanted(s, us);
    WantedDiscreet(s, us);
    hide Wanted, Delivered, Stream, MaySee;
  }

  /** A live subscriber follows the hub, hears all that was published since it came, and sees no alert it may not
      see. */
  ghost predicate Live(s: Subscriber, statuses: map<int, int>, heard: seq<Routed>, buffer: nat) {
    && Follows(s, statuses) && Discreet(s) && |s.queue| <= buffer && Hears(s, heard) && OnlyStatuses(s.snapshot)
  }

  lemma PublishLive(s: Subscriber, old_: map<int, int>, heard: seq<Routed>, ts: int, statuses: map<int, int>,
                    order: seq<int>, extra: seq<Routed>, buffer: nat)
    requires Live(s, old_, heard, buffer) && Catalogue(statuses, order) && ExtraOnly(extra)
    requires Delivered(s, Changes(old_, ts, statuses, order) + extra, buffer).Some?
    ensures var us := Changes(old_, ts, statuses, order) + extra;
            Live(Delivered(s, us, buffer).value, statuses, heard + us, buffer)
  {
    hide Changes, Delivered, Follows, Discreet, ExtraOnly, Hears, OnlyStatuses, Wanted;
    var us := Changes(old_, ts, statuses, order) + extra;
    PublishFollows(s, old_, ts, statuses, order, extra, buffer);
    PublishDiscreet(s, us, buffer);
    PublishHears(s, heard, us, buffer);
    QueueBound(s, us, buffer);
    DeliveredAll(s, us, buffer);
  }

  lemma MoreLive(s: Subscriber, statuses: map<int, int>, heard: seq<Routed>, buffer: nat, more: seq<Update>)
    requires Live(s, statuses, heard, buffer) && s.sent == [] && NoStatus(more) && AllMaySee(s.subject, more)
    ensures Live(s.(sent := s.sent + s.snapshot + more, snapshot := []), statuses, heard, buffer)
  {
    hide Stream, Latest, Discreet, Hears, AllMaySee, NoStatus;
    var s' := s.(sent := s.sent + s.snapshot + more, snapshot := []);
    forall id <- statuses ensures Latest(Stream(s'), id) == Latest(Stream(s), id) { MoreKeeps(s, more, id); }
    MoreDiscreet(s, more);
    MoreHears(s, heard, more);
  }

  lemma NextLive(s: Subscriber, statuses: map<int, int>, heard: seq<Routed>, buffer: nat)
    requires Live(s, statuses, heard, buffer) && s.snapshot == [] && s.queue != []
    ensures var s' := s.(sent := s.sent + [s.queue[0]], queue := s.queue[1..]);
            Stream(s') == Stream(s) && Live(s', statuses, heard, buffer)
  {
    var s' := s.(sent := s.sent + [s.queue[0]], queue := s.queue[1..]);
    assert Stream(s') == Stream(s) by { assert s.queue == [s.queue[0]] + s.queue[1..]; }
    forall id ensures LastAlert(s', heard, id) == LastAlert(s, heard, id) { SameOwner(s, s', heard, id); }
    hide Stream, Latest, LastAlert, LastStorm, LatestStorm, LatestAlert;
  }

  lemma Bounded(s: Subscriber, statuses: map<int, int>, heard: seq<Routed>, buffer: nat)
    requires Live(s, statuses, heard, buffer)
    ensures |s.queue| <= buffer
  {
  }

  class Hub {
    const buffer: nat
    var clock: int
    var statuses: map<int, int>
    var order: seq<int>
    var subs: map<nat, Subscriber>

    /** What has been published since each subscription began. */
    ghost var heard: map<nat, seq<Routed>>

    constructor (buffer: nat)
      ensures this.buffer == buffer && Valid() && subs == map[] && order == []
    {
      this.buffer, clock, statuses, order, subs := buffer, 0, map[], [], map[];
      heard := map[];
    }

    ghost predicate Valid()
      reads this
    {
      && Catalogue(statuses, order) && subs.Keys <= heard.Keys
      && forall k <- subs :: Live(subs[k], statuses, heard[k], buffer)
    }

    /** Records a new neighbourhood state and queues what changed; subscribers whose queue is full are dropped. */
    method Publish(clock: int, statuses: map<int, int>, order: seq<int>, extra: seq<Routed>)
      returns (ghost changes: seq<Routed>, ghost at: seq<nat>)
      requires Valid() && Catalogue(statuses, order) && ExtraOnly(extra)
      modifies this
      ensures Valid() && this.clock == clock && this.statuses == statuses && this.order == order
      ensures forall k :: k in subs ==> k in old(subs)
      ensures Differing(old(this.statuses), clock, statuses, order, changes, at)
      ensures forall k <- old(subs) ::
                Served(old(subs)[k], changes + extra, buffer, if k in subs then Some(subs[k]) else None)
      ensures forall k <- subs :: heard[k] == old(heard)[k] + (changes + extra)
    {
      hide Changes, Delivered, Live, ExtraOnly, Differing, Served;
      var updates := StatusChanges(clock, statuses, order);
      changes := updates;
      at := ChangesAre(this.statuses, clock, statuses, order);
      updates := updates + extra;
      ghost var was := this.statuses;
      this.statuses, this.order, this.clock := statuses, order, clock;
      subs := DeliverAll(updates);
      heard := map k | k in old(subs) :: old(heard)[k] + updates;
      forall k <- subs ensures Live(subs[k], statuses, heard[k], buffer) {
        PublishLive(old(subs)[k], was, old(heard)[k], clock, statuses, order, extra, buffer);
      }
      forall k <- old(subs)
        ensures Served(old(subs)[k], changes + extra, buffer, if k in subs then Some(subs[k]) else None)
      {
        assert Live(old(subs)[k], was, old(heard)[k], buffer);
        Bounded(old(subs)[k], was, old(heard)[k], buffer);
        DeliveredServes(old(subs)[k], updates, buffer);
      }
    }

    method StatusChanges(clock: int, statuses: map<int, int>, order: seq<int>) returns (updates: seq<Routed>)
      requires forall id <- order :: id in statuses
      ensures updates == Changes(this.statuses, clock, statuses, order)
    {
      updates := [];
      for i := 0 to |order|
        invariant updates == Changes(this.statuses, clock, statuses, order[..i])
      {
        assert order[..i + 1][..i] == order[..i];
        var id := order[i];
        if !(id in this.statuses && this.statuses[id] == statuses[id]) {
          updates := updates + [Routed(StatusUpdate(clock, id, statuses[id]), id)];
        }
      }
      assert order[..|order|] == order;
    }

    /** Queues the updates for every subscriber; the result holds those that kept up. */
    method DeliverAll(updates: seq<Routed>) returns (kept: map<nat, Subscriber>)
      ensures forall k :: k in kept ==> k in subs
      ensures forall k <- subs :: (k in kept <==> Delivered(subs[k], updates, buffer).Some?)
      ensures forall k <- kept :: kept[k] == Delivered(subs[k], updates, buffer).value
    {
      kept := map k | k in subs && Delivered(subs[k], updates, buffer).Some? ::
        Delivered(subs[k], updates, buffer).value;
    }

    /** Registers a subscriber and captures its snapshot in one step. */
    method Register(k: nat, subject: string, segments: Option<set<int>>, wantsSnapshot: bool)
      requires Valid() && k !in subs
      modifies this`subs, this`heard
      ensures Valid() && k in subs && subs.Keys == old(subs).Keys + {k}
      ensures forall x <- old(subs) :: subs[x] == old(subs)[x]
      ensures subs[k] == NewSubscriber(subject, segments, wantsSnapshot)
    {
      var s := NewSubscriber(subject, segments, wantsSnapshot);
      RegisteredLive(subject, segments, wantsSnapshot);
      subs, heard := subs[k := s], heard[k := []];
      hide Live;
    }

    function NewSubscriber(subject: string, segments: Option<set<int>>, wantsSnapshot: bool): Subscriber
      requires forall id <- order :: id in statuses
      reads this
    {
      var s := Subscriber(subject, segments, wantsSnapshot, [], [], []);
      s.(snapshot := if wantsSnapshot then Snapshot(s, clock, statuses, order) else [])
    }

    lemma RegisteredLive(subject: string, segments: Option<set<int>>, wantsSnapshot: bool)
      requires Catalogue(statuses, order)
      ensures Live(NewSubscriber(subject, segments, wantsSnapshot), statuses, [], buffer)
    {
      var s := NewSubscriber(subject, segments, wantsSnapshot);
      var s0 := Subscriber(subject, segments, wantsSnapshot, [], [], []);
      assert Stream(s) == s.snapshot;
      forall id <- statuses | WantsSegment(s, id)
        ensures Latest(Stream(s), id) == Some(statuses[id]) || (!wantsSnapshot && Latest(Stream(s), id) == None)
      {
        if wantsSnapshot { SnapshotLatest(s0, clock, statuses, order, id); }
      }
      SnapshotPublic(s0, clock, statuses, order);
      hide Snapshot;
    }

    /** Sends the captured statuses and then what the database gives on storms and the owner's own alerts. */
    method SendSnapshot(k: nat, more: seq<Update>)
      requires Valid() && k in subs && subs[k].sent == [] && NoStatus(more)
      requires AllMaySee(subs[k].subject, more)
      modifies this`subs
      ensures Valid() && subs ==
                old(subs)[k := old(subs)[k].(sent := old(subs)[k].sent + old(subs)[k].snapshot + more, snapshot := [])]
    {
      MoreLive(subs[k], statuses, heard[k], buffer, more);
      subs := subs[k := subs[k].(sent := subs[k].sent + subs[k].snapshot + more, snapshot := [])];
      hide Live;
    }

    /** Sends the oldest queued update. */
    method SendNext(k: nat)
      requires Valid() && k in subs && subs[k].snapshot == [] && subs[k].queue != []
      modifies this`subs
      ensures Valid() && subs ==
                old(subs)[k :=
                          old(subs)[k].(sent := old(subs)[k].sent + [old(subs)[k].queue[0]],
                                        queue := old(subs)[k].queue[1..])]
      ensures Stream(subs[k]) == Stream(old(subs)[k])
    {
      NextLive(subs[k], statuses, heard[k], buffer);
      subs := subs[k := subs[k].(sent := subs[k].sent + [subs[k].queue[0]], queue := subs[k].queue[1..])];
      hide Live, Stream;
    }

    method Remove(k: nat)
      requires Valid()
      modifies this`subs
      ensures Valid() && subs == old(subs) - {k}
    {
      subs := subs - {k};
    }
  }

  lemma {:induction false} QueueBound(s: Subscriber, us: seq<Routed>, buffer: nat)
    requires |s.queue| <= buffer && Delivered(s, us, buffer).Some?
    ensures |Delivered(s, us, buffer).value.queue| <= buffer
  {
    if us != [] { QueueBound(s, us[..|us| - 1], buffer); }
  }

  lemma {:induction false} SnapshotPublic(s: Subscriber, ts: int, statuses: map<int, int>, order: seq<int>)
    requires forall id <- order :: id in statuses
    ensures forall i :: 0 <= i < |Snapshot(s, ts, statuses, order)| ==>
              Snapshot(s, ts, statuses, order)[i].StatusUpdate?
  {
    if order != [] { SnapshotPublic(s, ts, statuses, order[..|order| - 1]); }
  }

  /** Storms and alerts slipped in after the snapshot do not disturb the statuses. */
  lemma MoreKeeps(s: Subscriber, more: seq<Update>, id: int)
    requires NoStatus(more)
    ensures Latest(Stream(s.(sent := s.sent + s.snapshot + more, snapshot := [])), id) == Latest(Stream(s), id)
  {
    var a := s.sent + s.snapshot;
    assert Stream(s.(sent := a + more, snapshot := [])) == a + (more + s.queue);
    LatestJoin(a, more + s.queue, id);
    LatestJoin(more, s.queue, id);
    LatestJoin(a, s.queue, id);
    NoStatusLatest(more, id);
  }

  lemma MoreDiscreet(s: Subscriber, more: seq<Update>)
    requires Discreet(s) && AllMaySee(s.subject, more)
    ensures Discreet(s.(sent := s.sent + s.snapshot + more, snapshot := []))
  {
    hide MaySee;
    var s' := s.(sent := s.sent + s.snapshot + more, snapshot := []);
    var a := s.sent + s.snapshot;
    assert Stream(s) == a + s.queue && Stream(s') == a + more + s.queue;
    forall i | 0 <= i < |Stream(s')| ensures MaySee(s.subject, Stream(s')[i]) {
      if i < |a| { assert Stream(s')[i] == Stream(s)[i]; }
      else if i < |a| + |more| { assert Stream(s')[i] == more[i - |a|]; }
      else { assert Stream(s')[i] == Stream(s)[i - |more|]; }
    }
  }

  /** What a live subscriber will see, once its stream is folded: of every segment it wants the hub's current state, of
      every storm the last event published, and of the alerts published to it exactly those that stand, as they
      stand. */
  lemma LiveView(h: Hub, k: nat)
    requires h.Valid() && k in h.subs
    ensures forall id <- h.order :: AsksFor(h.subs[k], id) ==>
              var view := Fold(Stream(h.subs[k])).statuses;
              (id in view ==> view[id] == h.statuses[id]) && (h.subs[k].wantsSnapshot ==> id in view)
    ensures forall id :: LastStorm(h.heard[k], id).Some? ==>
              var view := Fold(Stream(h.subs[k])).storms; id in view && view[id] == LastStorm(h.heard[k], id).value
    ensures forall id :: LastAlert(h.subs[k], h.heard[k], id) != Nothing ==>
              var view := Fold(Stream(h.subs[k])).alerts;
              (if id in view then Stands(view[id]) else Over) == LastAlert(h.subs[k], h.heard[k], id)
  {
    var us := Stream(h.subs[k]);
    assert Live(h.subs[k], h.statuses, h.heard[k], h.buffer);
    hide Fold, Stream, LastStorm, LastAlert, Latest, LatestStorm, LatestAlert;
    forall id ensures Latest(us, id) == if id in Fold(us).statuses then Some(Fold(us).statuses[id]) else None {
      FoldStatuses(us, id);
    }
    forall id ensures LatestStorm(us, id) == if id in Fold(us).storms then Some(Fold(us).storms[id]) else None {
      FoldStorms(us, id);
    }
    forall id
      ensures id in Fold(us).alerts <==> LatestAlert(us, id).Stands?
      ensures id in Fold(us).alerts ==> LatestAlert(us, id) == Stands(Fold(us).alerts[id])
    {
      FoldAlerts(us, id);
    }
  }
}
