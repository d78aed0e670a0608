/** The alert rules over every source (internal/alerts/rules.go, internal/alerts/engine.go). */
module AlertRules {
  import opened Common
  import opened Alerts

  datatype Reading = Reading(dev: int, ts: int, level: int, floatHigh: bool, sensorFault: bool, batt: Option<int>,
                             mainsOk: bool)

  datatype Sample = Sample(ts: int, dist: int)

  datatype Config = Config(lowBattery: int, lowBatteryClear: int, riseMin: int, riseWindow: int)

  /** The rain recorded in the hours before a reading, and whether the record reaches that far. Only a record that
      covers them and shows no rain speaks against a rise. */
  datatype RainCheck = RainCheck(mm: real, covered: bool) {
    predicate Holds() { mm > 0.0 || !covered }
  }

  const noRecord := RainCheck(0.0, false)

  /** What the recent levels say during an outage. */
  datatype Verdict = Rising | Falling | Unclear

  /** Every distance is smaller than the one before, and by enough in all. */
  ghost predicate Rises(d: seq<int>, minTotal: int) {
    |d| >= 2 && (forall i, j :: 0 <= i < j < |d| ==> d[j] < d[i]) && d[0] - d[|d| - 1] >= minTotal
  }

  method LevelRising(d: seq<int>, minTotal: int) returns (yes: bool)
    ensures yes <==> Rises(d, minTotal)
  {
    if |d| < 2 { return false; }
    for i := 1 to |d|
      invariant forall a, b :: 0 <= a < b < i ==> d[b] < d[a]
    {
      if d[i] >= d[i - 1] { return false; }
    }
    return d[0] - d[|d| - 1] >= minTotal;
  }

  function Dists(s: seq<Sample>): seq<int> { seq(|s|, i requires 0 <= i < |s| => s[i].dist) }

  /** The verdict on the last three samples; rain that is known not to have fallen suppresses a rise. */
  ghost function Judge(cfg: Config, s: seq<Sample>, rain: RainCheck): Verdict {
    if |s| < 3 || s[|s| - 1].ts - s[0].ts > cfg.riseWindow then Unclear
    else if Rises(Dists(s), cfg.riseMin) then (if rain.Holds() then Rising else Unclear)
    else if s[|s| - 1].dist > s[|s| - 2].dist > s[|s| - 3].dist then Falling
    else Unclear
  }

  function LastThree(s: seq<Sample>): seq<Sample> { if |s| > 3 then s[|s| - 3..] else s }

  /** Samples of earlier readings without mains, oldest first, from a newest-first list. */
  function Seeded(before: seq<Reading>): seq<Sample> {
    if before == [] then [] else
    var n := |before| - 1;
    (if before[n].mainsOk then [] else [Sample(before[n].ts, before[n].level)]) + Seeded(before[..n])
  }

  /** A device's recent samples with this reading's, earlier ones loaded on first sight. */
  function SamplesFor(levels: map<int, seq<Sample>>, r: Reading, before: seq<Reading>): seq<Sample> {
    LastThree((if r.dev in levels then levels[r.dev] else Seeded(before)) + [Sample(r.ts, r.level)])
  }

  ghost function VerdictOf(cfg: Config, levels: map<int, seq<Sample>>, r: Reading, before: seq<Reading>,
                           rain: RainCheck)
      : Verdict
  {
    if r.mainsOk then Unclear else Judge(cfg, SamplesFor(levels, r, before), rain)
  }

  function LevelsAfter(levels: map<int, seq<Sample>>, r: Reading, before: seq<Reading>): map<int, seq<Sample>> {
    if r.mainsOk then levels - {r.dev} else levels[r.dev := SamplesFor(levels, r, before)]
  }

  // ----- what one heartbeat does -----------------------------------------------------------------------------------

  /** Offline, float, sensor and battery. */
  function Basics(cfg: Config, rows: seq<Alert>, r: Reading): seq<Alert> {
    var a := Resolved(rows, r.dev, Offline, r.ts);
    var b := if r.floatHigh then Raised(a, r.dev, FloatHigh, r.ts) else Resolved(a, r.dev, FloatHigh, r.ts);
    var c := if r.sensorFault then Raised(b, r.dev, SensorFault, r.ts) else Resolved(b, r.dev, SensorFault, r.ts);
    if r.batt.Some? && r.batt.value < cfg.lowBattery then Raised(c, r.dev, LowBattery, r.ts)
    else if r.batt.Some? && r.batt.value >= cfg.lowBatteryClear then Resolved(c, r.dev, LowBattery, r.ts)
    else c
  }

  function Mains(rows: seq<Alert>, r: Reading, v: Verdict): seq<Alert> {
    if r.mainsOk then Resolved(Resolved(rows, r.dev, MainsLost, r.ts), r.dev, OutageRisk, r.ts)
    else
      var a := Raised(rows, r.dev, MainsLost, r.ts);
      match v
      case Rising => Raised(a, r.dev, OutageRisk, r.ts)
      case Falling => Resolved(a, r.dev, OutageRisk, r.ts)
      case Unclear => a
  }

  function AfterReading(cfg: Config, rows: seq<Alert>, r: Reading, v: Verdict): seq<Alert> {
    Mains(Basics(cfg, rows, r), r, v)
  }

  class Engine {
    const cfg: Config
    var rows: seq<Alert>
    var levels: map<int, seq<Sample>>

    constructor (cfg: Config)
      ensures this.cfg == cfg && rows == [] && levels == map[] && Sound(rows)
    {
      this.cfg, rows, levels := cfg, [], map[];
    }

    /** Opens an alert or touches the open one; true if it opened one. */
    method Raise(dev: int, code: Code, at: int) returns (created: bool)
      requires Sound(rows)
      modifies this`rows
      ensures rows == Raised(old(rows), dev, code, at) && Sound(rows)
              && created == (Opened(old(rows), dev, code) == None)
    {
      RaisedMeaning(rows, dev, code, at);
      var open := GetOpen(dev, code);
      if open.Some? {
        rows := rows[open.value := Touched(rows[open.value], at)];
        return false;
      }
      rows := rows + [Alert(dev, code, at, at, 1, None)];
      return true;
    }

    /** Closes the open alert, unless the episode began later. */
    method Resolve(dev: int, code: Code, at: int) returns (closed: bool)
      requires Sound(rows)
      modifies this`rows
      ensures rows == Resolved(old(rows), dev, code, at) && Sound(rows) && (closed <==> rows != old(rows))
    {
      ResolvedMeaning(rows, dev, code, at);
      var open := GetOpen(dev, code);
      if open == None || rows[open.value].raisedAt > at { return false; }
      var k := open.value;
      assert rows[k].resolvedAt == None;
      rows := rows[k := rows[k].(resolvedAt := Some(at))];
      assert rows[k].resolvedAt == Some(at);
      return true;
    }

    method GetOpen(dev: int, code: Code) returns (open: Option<nat>)
      ensures open == FindOpen(rows, dev, code)
      ensures open.Some? ==> open.value < |rows| && IsOpen(rows[open.value], dev, code)
    {
      FindOpenMeaning(rows, dev, code);
      open := None;
      for i := 0 to |rows|
        invariant open == FindOpen(rows[..i], dev, code)
      {
        assert rows[..i + 1][..i] == rows[..i];
        if IsOpen(rows[i], dev, code) { open := Some(i); }
      }
      assert rows[..|rows|] == rows;
    }

    /** Appends a level, loading the device's earlier ones on first sight, and keeps the last three. */
    method Samples(r: Reading, before: seq<Reading>) returns (s: seq<Sample>)
      modifies this`levels
      ensures s == SamplesFor(old(levels), r, before)
      ensures levels == old(levels)[r.dev := s]
    {
      if r.dev in levels { s := levels[r.dev]; } else { s := LoadSamples(before); }
      s := s + [Sample(r.ts, r.level)];
      if |s| > 3 { s := s[|s| - 3..]; }
      levels := levels[r.dev := s];
    }

    method LoadSamples(before: seq<Reading>) returns (s: seq<Sample>)
      ensures s == Seeded(before)
    {
      s := [];
      var i := |before|;
      assert before[..i] == before;
      while i > 0
        invariant 0 <= i <= |before| && s + Seeded(before[..i]) == Seeded(before)
      {
        i := i - 1;
        assert before[..i + 1][..i] == before[..i];
        ghost var rest := Seeded(before[..i]);
        if !before[i].mainsOk {
          assert s + ([Sample(before[i].ts, before[i].level)] + rest) ==
                   s + [Sample(before[i].ts, before[i].level)] + rest;
          s := s + [Sample(before[i].ts, before[i].level)];
        } else {
          assert [] + rest == rest;
        }
      }
      assert before[..0] == [] && s + [] == s;
    }

    /** A node alarm; codes the rules do not know are skipped. */
    method HandleAlarm(dev: int, code: Code, at: int)
      requires Sound(rows)
      modifies this`rows
      ensures rows == AfterEvent(cfg, old(Contents()), Alarm(dev, code, at)).rows && Sound(rows)
    {
      if AlarmCode(code) { var _ := Raise(dev, code, at); }
    }

    method HandleDetection(dev: int, code: Code, clear: bool, at: int)
      requires Sound(rows)
      modifies this`rows
      ensures rows == AfterEvent(cfg, old(Contents()), Detection(dev, code, clear, at)).rows && Sound(rows)
    {
      if clear { var _ := Resolve(dev, code, at); } else { var _ := Raise(dev, code, at); }
    }

    method SweepOffline(stale: seq<int>, now: int)
      requires Sound(rows)
      modifies this`rows
      ensures Contents() == AfterAll(cfg, old(Contents()), Sweeps(stale, now)) && Sound(rows)
    {
      ghost var es := Sweeps(stale, now);
      for i := 0 to |stale|
        invariant Sound(rows) && Contents() == AfterAll(cfg, old(Contents()), es[..i])
      {
        hide Raised;
        assert es[..i + 1][..i] == es[..i];
        var _ := Raise(stale[i], Offline, now);
      }
      assert es[..|stale|] == es;
    }

    method HandleBasics(r: Reading)
      requires Sound(rows)
      modifies this`rows
      ensures rows == Basics(cfg, old(rows), r) && Sound(rows)
    {
      hide Raised, Resolved, Sound;
      var _ := Resolve(r.dev, Offline, r.ts);
      if r.floatHigh { var _ := Raise(r.dev, FloatHigh, r.ts); } else { var _ := Resolve(r.dev, FloatHigh, r.ts); }
      if r.sensorFault {
        var _ := Raise(r.dev, SensorFault, r.ts);
      } else {
        var _ := Resolve(r.dev, SensorFault, r.ts);
      }
      if r.batt.Some? {
        if r.batt.value < cfg.lowBattery { var _ := Raise(r.dev, LowBattery, r.ts); }
        else if r.batt.value >= cfg.lowBatteryClear { var _ := Resolve(r.dev, LowBattery, r.ts); }
      }
    }

    function Contents(): Alerting
      reads this
    {
      Alerting(rows, levels)
    }

    /** What the last levels say of an outage. */
    method JudgeLevels(s: seq<Sample>, rain: RainCheck) returns (v: Verdict)
      ensures v == Judge(cfg, s, rain)
    {
      if |s| < 3 || s[|s| - 1].ts - s[0].ts > cfg.riseWindow { return Unclear; }
      var d := Dists(s);
      var rising := LevelRising(d, cfg.riseMin);
      if rising { return if rain.Holds() then Rising else Unclear; }
      return if d[|d| - 1] > d[|d| - 2] && d[|d| - 2] > d[|d| - 3] then Falling else Unclear;
    }

    /** One heartbeat; `before` and `rain` are what the database says of earlier readings and of rain. */
    method HandleReading(r: Reading, before: seq<Reading>, rain: RainCheck)
      requires Sound(rows)
      modifies this`rows, this`levels
      ensures Contents() == AfterEvent(cfg, old(Contents()), Heartbeat(r, before, rain)) && Sound(rows)
    {
      hide Raised, Resolved, Sound, Basics, SamplesFor, Judge;
      HandleBasics(r);
      if r.mainsOk {
        var _ := Resolve(r.dev, MainsLost, r.ts);
        var _ := Resolve(r.dev, OutageRisk, r.ts);
        levels := levels - {r.dev};
        return;
      }
      var _ := Raise(r.dev, MainsLost, r.ts);
      var s := Samples(r, before);
      var v := JudgeLevels(s, rain);
      match v {
        case Rising => var _ := Raise(r.dev, OutageRisk, r.ts);
        case Falling => var _ := Resolve(r.dev, OutageRisk, r.ts);
        case Unclear =>
      }
    }
  }

  // ----- all sources together ----------------------------------------------------------------------------------------

  /** The alerts and the level samples. */
  datatype Alerting = Alerting(rows: seq<Alert>, levels: map<int, seq<Sample>>)

  /** A node alarm, a heartbeat with what the database says beside it, a detection, or the offline sweep. */
  datatype Event =
    | Alarm(dev: int, code: Code, at: int)
    | Heartbeat(r: Reading, before: seq<Reading>, rain: RainCheck)
    | Detection(dev: int, code: Code, clear: bool, at: int)
    | Sweep(dev: int, at: int)

  predicate AlarmCode(c: Code) { c in {FloatHigh, MainsLost, DryRun, ContinuousRun, SensorFault} }

  predicate DetectorCode(c: Code) { c in {DryRun, ShortCycling, ContinuousRun} }

  /** The detector only ever names its own conditions. */
  predicate Possible(e: Event) { e.Detection? ==> DetectorCode(e.code) }

  ghost function AfterEvent(cfg: Config, s: Alerting, e: Event): Alerting {
    match e
    case Alarm(dev, code, at) => if AlarmCode(code) then s.(rows := Raised(s.rows, dev, code, at)) else s
    case Heartbeat(r, before, rain) =>
      Alerting(AfterReading(cfg, s.rows, r, VerdictOf(cfg, s.levels, r, before, rain)),
               LevelsAfter(s.levels, r, before))
    case Detection(dev, code, clear, at) =>
      s.(rows := if clear then Resolved(s.rows, dev, code, at) else Raised(s.rows, dev, code, at))
    case Sweep(dev, at) => s.(rows := Raised(s.rows, dev, Offline, at))
  }

  ghost function AfterAll(cfg: Config, s: Alerting, es: seq<Event>): Alerting {
    if es == [] then s else AfterEvent(cfg, AfterAll(cfg, s, es[..|es| - 1]), es[|es| - 1])
  }

  ghost function After(cfg: Config, es: seq<Event>): Alerting { AfterAll(cfg, Alerting([], map[]), es) }

  function Sweeps(stale: seq<int>, now: int): seq<Event> {
    seq(|stale|, i requires 0 <= i < |stale| => Sweep(stale[i], now))
  }

  /** Changes leave the open alerts of a code as they are. */
  ghost predicate Keeps(a: seq<Alert>, b: seq<Alert>, code: Code) {
    forall d :: Opened(a, d, code) == Opened(b, d, code)
  }

  lemma BasicsKeep(cfg: Config, rows: seq<Alert>, r: Reading)
    requires Sound(rows)
    ensures Sound(Basics(cfg, rows, r)) && Keeps(rows, Basics(cfg, rows, r), MainsLost)
            && Keeps(rows, Basics(cfg, rows, r), OutageRisk)
  {
    hide Opened, Raised, Resolved, Sound;
    var a := Resolved(rows, r.dev, Offline, r.ts);
    ResolvedMeaning(rows, r.dev, Offline, r.ts);
    RaisedMeaning(a, r.dev, FloatHigh, r.ts);
    ResolvedMeaning(a, r.dev, FloatHigh, r.ts);
    var b := if r.floatHigh then Raised(a, r.dev, FloatHigh, r.ts) else Resolved(a, r.dev, FloatHigh, r.ts);
    RaisedMeaning(b, r.dev, SensorFault, r.ts);
    ResolvedMeaning(b, r.dev, SensorFault, r.ts);
    var c := if r.sensorFault then Raised(b, r.dev, SensorFault, r.ts) else Resolved(b, r.dev, SensorFault, r.ts);
    RaisedMeaning(c, r.dev, LowBattery, r.ts);
    ResolvedMeaning(c, r.dev, LowBattery, r.ts);
  }

  lemma MainsSound(rows: seq<Alert>, r: Reading, v: Verdict)
    requires Sound(rows)
    ensures Sound(Mains(rows, r, v))
    ensures forall d :: d != r.dev ==> Opened(Mains(rows, r, v), d, MainsLost) == Opened(rows, d, MainsLost)
    ensures forall d :: d != r.dev ==> Opened(Mains(rows, r, v), d, OutageRisk) == Opened(rows, d, OutageRisk)
    ensures !r.mainsOk ==> Opened(Mains(rows, r, v), r.dev, MainsLost).Some?
    ensures r.mainsOk ==> OpenAfter(rows, r, MainsLost) == Opened(Mains(rows, r, v), r.dev, MainsLost)
    ensures r.mainsOk ==> OpenAfter(rows, r, OutageRisk) == Opened(Mains(rows, r, v), r.dev, OutageRisk)
    ensures !r.mainsOk && Opened(Mains(rows, r, v), r.dev, OutageRisk).Some? ==>
              var o := Opened(Mains(rows, r, v), r.dev, OutageRisk).value.raisedAt;
              o <= r.ts || (Opened(rows, r.dev, OutageRisk).Some?
                            && o <= Opened(rows, r.dev, OutageRisk).value.raisedAt)
  {
    hide Opened, Raised, Resolved, Sound;
    ResolvedMeaning(rows, r.dev, MainsLost, r.ts);
    RaisedMeaning(rows, r.dev, MainsLost, r.ts);
    var a := if r.mainsOk then Resolved(rows, r.dev, MainsLost, r.ts) else Raised(rows, r.dev, MainsLost, r.ts);
    ResolvedMeaning(a, r.dev, OutageRisk, r.ts);
    RaisedMeaning(a, r.dev, OutageRisk, r.ts);
  }

  /** The open alert that is left when a heartbeat resolves a code. */
  ghost function OpenAfter(rows: seq<Alert>, r: Reading, code: Code): Option<Alert> {
    if Opened(rows, r.dev, code).Some? && Opened(rows, r.dev, code).value.raisedAt > r.ts then Opened(rows, r.dev, code)
    else None
  }

  /** At most one open alert per device and code, each raised before it was last seen or resolved, in every
      interleaving of the sources. */
  lemma EventSound(cfg: Config, s: Alerting, e: Event)
    requires Sound(s.rows)
    ensures Sound(AfterEvent(cfg, s, e).rows)
  {
    hide VerdictOf, LevelsAfter;
    match e
    case Alarm(dev, code, at) => RaisedMeaning(s.rows, dev, code, at);
    case Heartbeat(r, before, rain) =>
      BasicsKeep(cfg, s.rows, r);
      MainsSound(Basics(cfg, s.rows, r), r, VerdictOf(cfg, s.levels, r, before, rain));
    case Detection(dev, code, clear, at) =>
      RaisedMeaning(s.rows, dev, code, at);
      ResolvedMeaning(s.rows, dev, code, at);
    case Sweep(dev, at) => RaisedMeaning(s.rows, dev, Offline, at);
  }

  lemma {:induction false} AlwaysSound(cfg: Config, es: seq<Event>)
    ensures Sound(After(cfg, es).rows)
  {
    hide Sound, AfterEvent;
    if es == [] {
      assert Sound([]) by { EmptySound(); }
    } else {
      AlwaysSound(cfg, es[..|es| - 1]);
      EventSound(cfg, After(cfg, es[..|es| - 1]), es[|es| - 1]);
    }
  }

  lemma EmptySound()
    ensures Sound([])
  {
  }

  // ----- an outage risk needs an outage ------------------------------------------------------------------------------

  /** The device's latest heartbeat time. */
  function LastBeat(es: seq<Event>, dev: int): Option<int> {
    if es == [] then None
    else if es[|es| - 1].Heartbeat? && es[|es| - 1].r.dev == dev then Some(es[|es| - 1].r.ts)
    else LastBeat(es[..|es| - 1], dev)
  }

  /** Heartbeats of each device come in event-time order. */
  ghost predicate InOrder(es: seq<Event>) {
    forall k :: 0 <= k < |es| && es[k].Heartbeat? && LastBeat(es[..k], es[k].r.dev).Some? ==>
        LastBeat(es[..k], es[k].r.dev).value <= es[k].r.ts
  }

  ghost predicate RiskBacked(rows: seq<Alert>, es: seq<Event>, d: int) {
    Opened(rows, d, OutageRisk).Some? ==>
      && Opened(rows, d, MainsLost).Some?
      && LastBeat(es, d).Some? && Opened(rows, d, OutageRisk).value.raisedAt <= LastBeat(es, d).value
  }

  lemma OtherSource(cfg: Config, s: Alerting, e: Event)
    requires Sound(s.rows) && Possible(e) && !e.Heartbeat?
    ensures Keeps(s.rows, AfterEvent(cfg, s, e).rows, OutageRisk)
    ensures forall d :: Opened(s.rows, d, MainsLost).Some? ==> Opened(AfterEvent(cfg, s, e).rows, d, MainsLost).Some?
  {
    hide Opened, Raised, Resolved, Sound;
    match e
    case Alarm(dev, code, at) => RaisedMeaning(s.rows, dev, code, at);
    case Detection(dev, code, clear, at) =>
      RaisedMeaning(s.rows, dev, code, at);
      ResolvedMeaning(s.rows, dev, code, at);
    case Sweep(dev, at) => RaisedMeaning(s.rows, dev, Offline, at);
  }

  lemma BeatBacked(cfg: Config, rows: seq<Alert>, es: seq<Event>, e: Event, v: Verdict, d: int)
    requires e.Heartbeat? && Sound(rows) && RiskBacked(rows, es, d)
    requires LastBeat(es, e.r.dev).Some? ==> LastBeat(es, e.r.dev).value <= e.r.ts
    ensures RiskBacked(AfterReading(cfg, rows, e.r, v), es + [e], d)
  {
    var r := e.r;
    var b := Basics(cfg, rows, r);
    BasicsKeep(cfg, rows, r);
    MainsSound(b, r, v);
    BeatSnoc(es, e, d);
    hide Opened, Mains, Basics, LastBeat, Sound;
    assert Opened(rows, d, OutageRisk) == Opened(b, d, OutageRisk)
           && Opened(rows, d, MainsLost) == Opened(b, d, MainsLost);
  }

  lemma BeatSnoc(es: seq<Event>, e: Event, d: int)
    ensures LastBeat(es + [e], d) == if e.Heartbeat? && e.r.dev == d then Some(e.r.ts) else LastBeat(es, d)
  {
    assert (es + [e])[..|es|] == es;
  }

  /** With each device's heartbeats in order, an open outage risk always stands beside an open mains loss. */
  lemma {:induction false} RiskNeedsOutage(cfg: Config, es: seq<Event>, d: int)
    requires InOrder(es) && forall k :: 0 <= k < |es| ==> Possible(es[k])
    ensures RiskBacked(After(cfg, es).rows, es, d)
  {
    hide VerdictOf, LevelsAfter;
    if es == [] {
      assert Opened(After(cfg, es).rows, d, OutageRisk) == None;
    } else {
      var n := |es| - 1;
      var e, before := es[n], es[..n];
      assert InOrder(before) by { OrderPrefix(es); }
      RiskNeedsOutage(cfg, before, d);
      AlwaysSound(cfg, before);
      var s := After(cfg, before);
      assert es == before + [e];
      BeatSnoc(before, e, d);
      if e.Heartbeat? {
        assert es[..n] == before;
        BeatBacked(cfg, s.rows, before, e, VerdictOf(cfg, s.levels, e.r, e.before, e.rain), d);
      } else {
        OtherSource(cfg, s, e);
        hide Opened, AfterEvent, LastBeat, Sound;
      }
    }
  }

  lemma OrderPrefix(es: seq<Event>)
    requires InOrder(es) && es != []
    ensures InOrder(es[..|es| - 1])
  {
    var b := es[..|es| - 1];
    hide LastBeat;
    forall k | 0 <= k < |b| && b[k].Heartbeat? && LastBeat(b[..k], b[k].r.dev).Some?
      ensures LastBeat(b[..k], b[k].r.dev).value <= b[k].r.ts {
      assert b[..k] == es[..k] && b[k] == es[k];
    }
  }

  /** Out of order: a heartbeat with mains leaves a risk without its outage exactly if it is older than the risk
      and not older than the outage. */
  lemma LateBeat(cfg: Config, rows: seq<Alert>, r: Reading, v: Verdict)
    requires Sound(rows) && r.mainsOk && Opened(rows, r.dev, OutageRisk).Some? && Opened(rows, r.dev, MainsLost).Some?
    ensures var after := AfterReading(cfg, rows, r, v);
            Opened(after, r.dev, OutageRisk).Some? && Opened(after, r.dev, MainsLost) == None <==>
            Opened(rows, r.dev, MainsLost).value.raisedAt <= r.ts < Opened(rows, r.dev, OutageRisk).value.raisedAt
  {
    BasicsKeep(cfg, rows, r);
    MainsSound(Basics(cfg, rows, r), r, v);
    hide Opened, Mains, Basics, Sound;
    assert Opened(rows, r.dev, OutageRisk) == Opened(Basics(cfg, rows, r), r.dev, OutageRisk);
  }

  // ----- a history in which that happens ---------------------------------------------------------------------------

  /** A reading without mains at `ts`, the water at distance `level`. */
  function Outage(ts: int, level: int): Reading { Reading(1, ts, level, false, false, None, false) }

  /** An alarm at 5, three readings without mains at 8, 9 and 10 over which the water rises, and last the reading of 7,
      when mains was fine. */
  function LateHistory(step: int): seq<Event> {
    [Alarm(1, MainsLost, 5), Heartbeat(Outage(8, 2 * step), [], noRecord), Heartbeat(Outage(9, step), [], noRecord),
     Heartbeat(Outage(10, 0), [], noRecord), Heartbeat(Reading(1, 7, 0, false, false, None, true), [], noRecord)]
  }

  /** Under any configuration that looks at samples two apart, that history leaves a risk without its outage. */
  lemma LateBeatExample(cfg: Config)
    requires cfg.riseWindow >= 2
    ensures var step := if cfg.riseMin > 0 then cfg.riseMin else 1;
            var s := After(cfg, LateHistory(step));
            Opened(s.rows, 1, OutageRisk).Some? && Opened(s.rows, 1, MainsLost) == None
  {
    hide After, Opened, AfterReading, Raised, VerdictOf, LevelsAfter, Sound;
    var step := if cfg.riseMin > 0 then cfg.riseMin else 1;
    var a, b, c := Outage(8, 2 * step), Outage(9, step), Outage(10, 0);
    var es := LateHistory(step);
    FiveEvents(cfg, es);
    RisingLevels(cfg, step);
    var r0 := Raised([], 1, MainsLost, 5);
    var r1 := AfterReading(cfg, r0, a, Unclear);
    var r2 := AfterReading(cfg, r1, b, Unclear);
    var r3 := AfterReading(cfg, r2, c, Rising);
    AlarmFirst();
    QuietBeat(cfg, r0, a);
    QuietBeat(cfg, r1, b);
    RisingBeat(cfg, r2, c);
    LateBeat(cfg, r3, es[4].r, Unclear);
    assert VerdictOf(cfg, map[1 := [Sample(8, 2 * step), Sample(9, step), Sample(10, 0)]], es[4].r, [], noRecord) ==
             Unclear
      by { MainsUnclear(cfg, map[1 := [Sample(8, 2 * step), Sample(9, step), Sample(10, 0)]], es[4].r); }
  }

  lemma MainsUnclear(cfg: Config, levels: map<int, seq<Sample>>, r: Reading)
    requires r.mainsOk
    ensures VerdictOf(cfg, levels, r, [], noRecord) == Unclear
  {
  }

  /** The three readings: two are too few to judge, the third shows the water rising. */
  lemma RisingLevels(cfg: Config, step: int)
    requires cfg.riseWindow >= 2 && step > 0 && 2 * step >= cfg.riseMin
    ensures var a, b, c := Outage(8, 2 * step), Outage(9, step), Outage(10, 0);
            var l1, l2 := map[1 := [Sample(8, 2 * step)]], map[1 := [Sample(8, 2 * step), Sample(9, step)]];
            var l3 := map[1 := [Sample(8, 2 * step), Sample(9, step), Sample(10, 0)]];
            && LevelsAfter(map[], a, []) == l1 && LevelsAfter(l1, b, []) == l2 && LevelsAfter(l2, c, []) == l3
            && VerdictOf(cfg, map[], a, [], noRecord) == Unclear && VerdictOf(cfg, l1, b, [], noRecord) == Unclear
            && VerdictOf(cfg, l2, c, [], noRecord) == Rising
  {
    var s1, s2 := [Sample(8, 2 * step)], [Sample(8, 2 * step), Sample(9, step)];
    var s3 := [Sample(8, 2 * step), Sample(9, step), Sample(10, 0)];
    var a, b, c := Outage(8, 2 * step), Outage(9, step), Outage(10, 0);
    assert SamplesFor(map[], a, []) == s1 by { assert [] + [Sample(8, 2 * step)] == s1; }
    assert SamplesFor(map[1 := s1], b, []) == s2;
    assert SamplesFor(map[1 := s2], c, []) == s3;
    assert map[1 := s1][1 := s2] == map[1 := s2] && map[1 := s2][1 := s3] == map[1 := s3];
    assert Dists(s3) == [2 * step, step, 0];
    assert Rises(Dists(s3), cfg.riseMin);
  }

  /** The state after each event of a list of five: an alarm and four heartbeats. */
  lemma FiveEvents(cfg: Config, es: seq<Event>)
    requires |es| == 5
    ensures var s1 := AfterEvent(cfg, Alerting([], map[]), es[0]);
            var s2 := AfterEvent(cfg, s1, es[1]);
            var s3 := AfterEvent(cfg, s2, es[2]);
            After(cfg, es) == AfterEvent(cfg, AfterEvent(cfg, s3, es[3]), es[4])
  {
    hide AfterEvent;
    var s := Alerting([], map[]);
    assert es[..5] == es;
    AllSnoc(cfg, s, es, 4);
    AllSnoc(cfg, s, es, 3);
    AllSnoc(cfg, s, es, 2);
    AllSnoc(cfg, s, es, 1);
    AllSnoc(cfg, s, es, 0);
    assert es[..0] == [];
  }

  lemma AllSnoc(cfg: Config, s: Alerting, es: seq<Event>, n: nat)
    requires n < |es|
    ensures AfterAll(cfg, s, es[..n + 1]) == AfterEvent(cfg, AfterAll(cfg, s, es[..n]), es[n])
  {
    assert es[..n + 1][..n] == es[..n];
  }

  lemma EmptyOpen(d: int, c: Code)
    ensures Opened([], d, c) == None
  {
  }

  lemma AlarmFirst()
    ensures var r := Raised([], 1, MainsLost, 5);
            && Sound(r) && Opened(r, 1, OutageRisk) == None
            && Opened(r, 1, MainsLost).Some? && Opened(r, 1, MainsLost).value.raisedAt == 5
  {
    EmptySound();
    EmptyOpen(1, OutageRisk);
    EmptyOpen(1, MainsLost);
    RaisedMeaning([], 1, MainsLost, 5);
    hide Opened, Raised, Sound;
  }

  /** A reading without mains and without a verdict extends the outage and nothing else. */
  lemma QuietBeat(cfg: Config, rows: seq<Alert>, r: Reading)
    requires Sound(rows) && !r.mainsOk && Opened(rows, r.dev, OutageRisk) == None
             && Opened(rows, r.dev, MainsLost).Some?
    ensures var after := AfterReading(cfg, rows, r, Unclear);
            && Sound(after) && Opened(after, r.dev, OutageRisk) == None && Opened(after, r.dev, MainsLost).Some?
            && Opened(after, r.dev, MainsLost).value.raisedAt <= Opened(rows, r.dev, MainsLost).value.raisedAt
  {
    BasicsKeep(cfg, rows, r);
    var b := Basics(cfg, rows, r);
    hide Opened, Raised, Basics, Sound;
    assert Opened(rows, r.dev, OutageRisk) == Opened(b, r.dev, OutageRisk);
    assert Opened(rows, r.dev, MainsLost) == Opened(b, r.dev, MainsLost);
    RaisedMeaning(b, r.dev, MainsLost, r.ts);
  }

  lemma RisingBeat(cfg: Config, rows: seq<Alert>, r: Reading)
    requires Sound(rows) && !r.mainsOk && Opened(rows, r.dev, OutageRisk) == None
             && Opened(rows, r.dev, MainsLost).Some?
    ensures var after := AfterReading(cfg, rows, r, Rising);
            && Sound(after) && Opened(after, r.dev, OutageRisk).Some?
            && Opened(after, r.dev, OutageRisk).value.raisedAt == r.ts && Opened(after, r.dev, MainsLost).Some?
            && Opened(after, r.dev, MainsLost).value.raisedAt <= Opened(rows, r.dev, MainsLost).value.raisedAt
  {
    BasicsKeep(cfg, rows, r);
    var b := Basics(cfg, rows, r);
    hide Opened, Raised, Basics, Sound;
    assert Opened(rows, r.dev, OutageRisk) == Opened(b, r.dev, OutageRisk);
    assert Opened(rows, r.dev, MainsLost) == Opened(b, r.dev, MainsLost);
    RaisedMeaning(b, r.dev, MainsLost, r.ts);
    RaisedMeaning(Raised(b, r.dev, MainsLost, r.ts), r.dev, OutageRisk, r.ts);
  }
}
