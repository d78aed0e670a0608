/** What each alert source does to each alert, said without the engine's own steps (internal/alerts/rules.go,
    internal/store/sqlcgen/alerts.sql.go). */
module AlertMeaning {
  import opened Common
  import opened Alerts
  import opened AlertRules

  /** The open alert once its condition was seen at `at`: raised at the earliest trigger, last seen at the latest. */
  function Seen(o: Option<Alert>, dev: int, code: Code, at: int): Option<Alert> {
    match o
    case None => Some(Alert(dev, code, at, at, 1, None))
    case Some(a) => Some(Alert(dev, code, Min(a.raisedAt, at), Max(a.lastSeenAt, at), a.occurrences + 1, None))
  }

  /** The open alert once its condition was seen to be over at `at`: an episode that began later goes on. */
  function Gone(o: Option<Alert>, at: int): Option<Alert> { if o.Some? && at < o.value.raisedAt then o else None }

  lemma RaiseSeen(rows: seq<Alert>, dev: int, code: Code, at: int)
    requires Sound(rows)
    ensures var r := Raised(rows, dev, code, at);
            && Sound(r) && Opened(r, dev, code) == Seen(Opened(rows, dev, code), dev, code, at)
            && forall d, c :: d != dev || c != code ==> Opened(r, d, c) == Opened(rows, d, c)
  {
    RaisedMeaning(rows, dev, code, at);
    FindOpenMeaning(rows, dev, code);
    hide FindOpen, Raised, Sound;
  }

  lemma ResolveGone(rows: seq<Alert>, dev: int, code: Code, at: int)
    requires Sound(rows)
    ensures var r := Resolved(rows, dev, code, at);
            && Sound(r) && Opened(r, dev, code) == Gone(Opened(rows, dev, code), at)
            && forall d, c :: d != dev || c != code ==> Opened(r, d, c) == Opened(rows, d, c)
  {
    ResolvedMeaning(rows, dev, code, at);
    hide Opened, Resolved, Sound;
  }

  // ----- closed episodes ---------------------------------------------------------------------------------------------

  /** Closed rows stay as they are; a row that closes does so at `at`; rows keep their device and code. */
  ghost predicate ClosedKept(a: seq<Alert>, b: seq<Alert>, at: int) {
    |a| <= |b| && forall i :: 0 <= i < |a| ==>
      && b[i].dev == a[i].dev && b[i].code == a[i].code && (a[i].resolvedAt.Some? ==> b[i] == a[i])
      && (a[i].resolvedAt == None && b[i].resolvedAt.Some? ==> b[i].resolvedAt == Some(at))
  }

  lemma ChangeKept(rows: seq<Alert>, dev: int, code: Code, at: int)
    ensures ClosedKept(rows, Raised(rows, dev, code, at), at) && ClosedKept(rows, Resolved(rows, dev, code, at), at)
  {
    FindOpenMeaning(rows, dev, code);
    hide FindOpen;
  }

  lemma KeptOn(a: seq<Alert>, b: seq<Alert>, c: seq<Alert>, at: int)
    requires ClosedKept(a, b, at) && ClosedKept(b, c, at)
    ensures ClosedKept(a, c, at)
  {
  }

  function TimeOf(e: Event): int {
    match e
    case Alarm(_, _, at) => at
    case Heartbeat(r, _, _) => r.ts
    case Detection(_, _, _, at) => at
    case Sweep(_, at) => at
  }

  /** No event of any source touches a closed episode; one that an event closes is closed at the event's time. */
  lemma EventKept(cfg: Config, s: Alerting, e: Event)
    ensures ClosedKept(s.rows, AfterEvent(cfg, s, e).rows, TimeOf(e))
  {
    hide ClosedKept, Raised, Resolved, VerdictOf, LevelsAfter;
    match e
    case Alarm(dev, code, at) =>
      ChangeKept(s.rows, dev, code, at);
      SameKept(s.rows, at);
    case Heartbeat(r, before, rain) =>
      BasicsKept(cfg, s.rows, r);
      MainsKept(Basics(cfg, s.rows, r), r, VerdictOf(cfg, s.levels, r, before, rain));
      hide Basics, Mains;
      KeptOn(s.rows, Basics(cfg, s.rows, r), AfterEvent(cfg, s, e).rows, r.ts);
    case Detection(dev, code, clear, at) => ChangeKept(s.rows, dev, code, at);
    case Sweep(dev, at) => ChangeKept(s.rows, dev, Offline, at);
  }

  lemma SameKept(rows: seq<Alert>, at: int)
    ensures ClosedKept(rows, rows, at)
  {
  }

  lemma BasicsKept(cfg: Config, rows: seq<Alert>, r: Reading)
    ensures ClosedKept(rows, Basics(cfg, rows, r), r.ts)
  {
    hide ClosedKept, Raised, Resolved;
    var a := Resolved(rows, r.dev, Offline, r.ts);
    var b := if r.floatHigh then Raised(a, r.dev, FloatHigh, r.ts) else Resolved(a, r.dev, FloatHigh, r.ts);
    var c := if r.sensorFault then Raised(b, r.dev, SensorFault, r.ts) else Resolved(b, r.dev, SensorFault, r.ts);
    ChangeKept(rows, r.dev, Offline, r.ts);
    ChangeKept(a, r.dev, FloatHigh, r.ts);
    ChangeKept(b, r.dev, SensorFault, r.ts);
    ChangeKept(c, r.dev, LowBattery, r.ts);
    KeptOn(rows, a, b, r.ts);
    KeptOn(rows, b, c, r.ts);
    KeptOn(rows, c, Raised(c, r.dev, LowBattery, r.ts), r.ts);
    KeptOn(rows, c, Resolved(c, r.dev, LowBattery, r.ts), r.ts);
  }

  lemma MainsKept(rows: seq<Alert>, r: Reading, v: Verdict)
    ensures ClosedKept(rows, Mains(rows, r, v), r.ts)
  {
    hide ClosedKept, Raised, Resolved;
    var a := if r.mainsOk then Resolved(rows, r.dev, MainsLost, r.ts) else Raised(rows, r.dev, MainsLost, r.ts);
    ChangeKept(rows, r.dev, MainsLost, r.ts);
    ChangeKept(a, r.dev, OutageRisk, r.ts);
    KeptOn(rows, a, Raised(a, r.dev, OutageRisk, r.ts), r.ts);
    KeptOn(rows, a, Resolved(a, r.dev, OutageRisk, r.ts), r.ts);
  }

  // ----- what each source does to each open alert --------------------------------------------------------------------

  /** What a heartbeat makes of the device's open alert `o` of a code, `v` being its verdict on an outage. */
  function AfterBeat(cfg: Config, r: Reading, v: Verdict, o: Option<Alert>, code: Code): Option<Alert> {
    match code
    case Offline => Gone(o, r.ts)
    case FloatHigh => if r.floatHigh then Seen(o, r.dev, code, r.ts) else Gone(o, r.ts)
    case SensorFault => if r.sensorFault then Seen(o, r.dev, code, r.ts) else Gone(o, r.ts)
    case LowBattery =>
      (match r.batt
       case None => o
       case Some(mv) =>
         if mv < cfg.lowBattery then Seen(o, r.dev, code, r.ts)
         else if mv >= cfg.lowBatteryClear then Gone(o, r.ts)
         else o)
    case MainsLost => if r.mainsOk then Gone(o, r.ts) else Seen(o, r.dev, code, r.ts)
    case OutageRisk =>
      if r.mainsOk || v == Falling then Gone(o, r.ts) else if v == Rising then Seen(o, r.dev, code, r.ts) else o
    case _ => o
  }

  lemma BasicsOpen(cfg: Config, rows: seq<Alert>, r: Reading, d: int, c: Code)
    requires Sound(rows)
    ensures Sound(Basics(cfg, rows, r))
    ensures Opened(Basics(cfg, rows, r), d, c) ==
            if d != r.dev || c == MainsLost || c == OutageRisk then Opened(rows, d, c)
            else AfterBeat(cfg, r, Unclear, Opened(rows, d, c), c)
  {
    hide Opened, Raised, Resolved, Sound, Seen, Gone;
    var x := Resolved(rows, r.dev, Offline, r.ts);
    var y := if r.floatHigh then Raised(x, r.dev, FloatHigh, r.ts) else Resolved(x, r.dev, FloatHigh, r.ts);
    var z := if r.sensorFault then Raised(y, r.dev, SensorFault, r.ts) else Resolved(y, r.dev, SensorFault, r.ts);
    ResolveGone(rows, r.dev, Offline, r.ts);
    RaiseSeen(x, r.dev, FloatHigh, r.ts);
    ResolveGone(x, r.dev, FloatHigh, r.ts);
    RaiseSeen(y, r.dev, SensorFault, r.ts);
    ResolveGone(y, r.dev, SensorFault, r.ts);
    RaiseSeen(z, r.dev, LowBattery, r.ts);
    ResolveGone(z, r.dev, LowBattery, r.ts);
  }

  lemma MainsOpen(cfg: Config, rows: seq<Alert>, r: Reading, v: Verdict, d: int, c: Code)
    requires Sound(rows) && (r.mainsOk ==> v == Unclear)
    ensures Opened(Mains(rows, r, v), d, c) ==
            if d == r.dev && (c == MainsLost || c == OutageRisk) then AfterBeat(cfg, r, v, Opened(rows, d, c), c)
            else Opened(rows, d, c)
  {
    hide Opened, Raised, Resolved, Sound, Seen, Gone;
    var a := if r.mainsOk then Resolved(rows, r.dev, MainsLost, r.ts) else Raised(rows, r.dev, MainsLost, r.ts);
    RaiseSeen(rows, r.dev, MainsLost, r.ts);
    ResolveGone(rows, r.dev, MainsLost, r.ts);
    RaiseSeen(a, r.dev, OutageRisk, r.ts);
    ResolveGone(a, r.dev, OutageRisk, r.ts);
  }

  /** What any event makes of any open alert: node alarms and detections speak of the condition they name, heartbeats of
      those a heartbeat can tell, the sweep of silence, and each of its own device only. */
  lemma EventMeaning(cfg: Config, s: Alerting, e: Event, d: int, c: Code)
    requires Sound(s.rows)
    ensures var o := Opened(s.rows, d, c);
            Opened(AfterEvent(cfg, s, e).rows, d, c) ==
            match e
            case Alarm(dev, code, at) =>
              if d == dev && c == code
                 && (c == FloatHigh || c == MainsLost || c == DryRun || c == ContinuousRun || c == SensorFault)
              then Seen(o, d, c, at) else o
            case Heartbeat(r, before, rain) =>
              if d == r.dev then AfterBeat(cfg, r, VerdictOf(cfg, s.levels, r, before, rain), o, c) else o
            case Detection(dev, code, clear, at) =>
              if d == dev && c == code then (if clear then Gone(o, at) else Seen(o, d, c, at)) else o
            case Sweep(dev, at) => if d == dev && c == Offline then Seen(o, d, c, at) else o
  {
    hide Opened, Raised, Resolved, Sound, Seen, Gone, Basics, Mains, LevelsAfter, Judge;
    match e
    case Alarm(dev, code, at) => RaiseSeen(s.rows, dev, code, at);
    case Heartbeat(r, before, rain) =>
      var v := VerdictOf(cfg, s.levels, r, before, rain);
      BasicsOpen(cfg, s.rows, r, d, c);
      MainsOpen(cfg, Basics(cfg, s.rows, r), r, v, d, c);
    case Detection(dev, code, clear, at) =>
      RaiseSeen(s.rows, dev, code, at);
      ResolveGone(s.rows, dev, code, at);
    case Sweep(dev, at) => RaiseSeen(s.rows, dev, Offline, at);
  }

  // ----- the verdict on an outage ------------------------------------------------------------------------------------

  /** A rise needs three levels within the window, each nearer the sensor than the one before and near enough in all,
      and no record of dry weather; a fall needs the last two steps to go the other way. */
  lemma VerdictMeaning(cfg: Config, s: seq<Sample>, rain: RainCheck)
    requires |s| <= 3
    ensures var v := Judge(cfg, s, rain);
            var near := |s| == 3 && s[2].ts - s[0].ts <= cfg.riseWindow;
            && (v == Rising <==> near && s[0].dist > s[1].dist > s[2].dist && s[0].dist - s[2].dist >= cfg.riseMin
                                 && (rain.covered ==> rain.mm > 0.0))
            && (v == Falling <==> near && s[0].dist < s[1].dist < s[2].dist)
  {
    var d := Dists(s);
    if |s| == 3 { assert Rises(d, cfg.riseMin) <==> d[1] < d[0] && d[2] < d[1] && d[0] - d[2] >= cfg.riseMin; }
  }

  /** The levels judged: this reading's last, before it the device's two before, kept or loaded. */
  lemma SamplesMeaning(levels: map<int, seq<Sample>>, r: Reading, before: seq<Reading>)
    ensures var s := SamplesFor(levels, r, before);
            var known := if r.dev in levels then levels[r.dev] else Seeded(before);
            s == (if |known| > 2 then known[|known| - 2..] else known) + [Sample(r.ts, r.level)]
  {
    hide Seeded;
  }

  /** Loading turns a newest-first list into the levels without mains, oldest first. */
  lemma {:induction false} SeededFirst(x: Reading, before: seq<Reading>)
    ensures Seeded([x] + before) == Seeded(before) + (if x.mainsOk then [] else [Sample(x.ts, x.level)])
  {
    hide Seeded;
    var none: seq<Reading> := [];
    SeededLast(none, x);
    if before == [] {
      assert [x] + before == none + [x];
    } else {
      var n := |before| - 1;
      var front, y := before[..n], before[n];
      SeededFirst(x, front);
      assert before == front + [y] && [x] + before == ([x] + front) + [y];
      SeededLast(front, y);
      SeededLast([x] + front, y);
    }
  }

  lemma SeededLast(s: seq<Reading>, y: Reading)
    ensures Seeded(s + [y]) == (if y.mainsOk then [] else [Sample(y.ts, y.level)]) + Seeded(s) && Seeded([]) == []
  {
    assert (s + [y])[..|s|] == s;
  }

  /** After a reading with mains the device's levels are forgotten; after one without, they are those judged. */
  lemma LevelsMeaning(cfg: Config, s: Alerting, e: Event, dev: int)
    ensures var after := AfterEvent(cfg, s, e).levels;
            if e.Heartbeat? && e.r.dev == dev then
              if e.r.mainsOk then dev !in after else dev in after && after[dev] == SamplesFor(s.levels, e.r, e.before)
            else (dev in after <==> dev in s.levels) && (dev in after ==> after[dev] == s.levels[dev])
  {
    hide AfterReading, Raised, Resolved, SamplesFor, VerdictOf;
  }

  // ----- whole runs --------------------------------------------------------------------------------------------------

  /** When each trigger of one alert came since it was opened, folded over a run: never resolved in between. */
  ghost function Triggers(cfg: Config, es: seq<Event>, d: int, c: Code): seq<int> {
    if es == [] then [] else
    var n := |es| - 1;
    var before, after := Opened(After(cfg, es[..n]).rows, d, c), Opened(After(cfg, es).rows, d, c);
    if after == None then []
    else if before == after then Triggers(cfg, es[..n], d, c)
    else Triggers(cfg, es[..n], d, c) + [TimeOf(es[n])]
  }

  ghost predicate Sums(o: Option<Alert>, ts: seq<int>) {
    match o
    case None => ts == []
    case Some(a) =>
      && a.occurrences == |ts| > 0 && (forall i :: 0 <= i < |ts| ==> a.raisedAt <= ts[i] <= a.lastSeenAt)
      && (exists i :: 0 <= i < |ts| && ts[i] == a.raisedAt) && (exists i :: 0 <= i < |ts| && ts[i] == a.lastSeenAt)
  }

  lemma SeenSums(o: Option<Alert>, ts: seq<int>, d: int, c: Code, at: int)
    requires Sums(o, ts)
    ensures Sums(Seen(o, d, c, at), ts + [at])
  {
    var all := ts + [at];
    assert all[|ts|] == at && forall i :: 0 <= i < |ts| ==> all[i] == ts[i];
    if o.Some? {
      var i :| 0 <= i < |ts| && ts[i] == o.value.raisedAt;
      var j :| 0 <= j < |ts| && ts[j] == o.value.lastSeenAt;
      assert all[i] == o.value.raisedAt && all[j] == o.value.lastSeenAt;
    }
  }

  /** In every interleaving an open alert counts its triggers since it was opened, and was raised at the earliest and
      last seen at the latest of them. */
  lemma {:induction false} EpisodeExact(cfg: Config, es: seq<Event>, d: int, c: Code)
    ensures Sums(Opened(After(cfg, es).rows, d, c), Triggers(cfg, es, d, c))
  {
    hide Sums, Opened, AfterEvent, Sound, Seen;
    if es == [] {
      NoEpisode(d, c);
    } else {
      var n := |es| - 1;
      var before := After(cfg, es[..n]);
      EpisodeExact(cfg, es[..n], d, c);
      AlwaysSound(cfg, es[..n]);
      assert After(cfg, es) == AfterEvent(cfg, before, es[n]);
      OneOfThree(cfg, before, es[n], d, c);
      var o, ts := Opened(before.rows, d, c), Triggers(cfg, es[..n], d, c);
      SeenSums(o, ts, d, c, TimeOf(es[n]));
      SeenChanges(o, d, c, TimeOf(es[n]));
      NoneSums();
    }
  }

  lemma NoneSums()
    ensures Sums(None, [])
  {
  }

  lemma NoEpisode(d: int, c: Code)
    ensures Opened([], d, c) == None && Sums(None, [])
  {
  }

  lemma SeenChanges(o: Option<Alert>, d: int, c: Code, at: int)
    ensures Seen(o, d, c, at) != o && Seen(o, d, c, at) != None
  {
  }

  lemma OneOfThree(cfg: Config, s: Alerting, e: Event, d: int, c: Code)
    requires Sound(s.rows)
    ensures var o, after := Opened(s.rows, d, c), Opened(AfterEvent(cfg, s, e).rows, d, c);
            after == o || after == None || after == Seen(o, d, c, TimeOf(e))
  {
    EventMeaning(cfg, s, e, d, c);
    hide Opened, AfterEvent, Sound, Seen, VerdictOf;
  }
}
