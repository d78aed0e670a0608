/** The detector's handler: two stages, many devices and pumps, windows loaded on first sight
    (internal/detector/detector.go). */
module DetectorHandler {
  import opened Streaks
  import opened Detector

  datatype Key = Key(dev: int, code: Code)

  datatype WindowKey = WindowKey(dev: int, pump: int)

  datatype Detection = Detection(key: Key, action: Action, at: int)

  /** A pump run with what the database has before it, newest first, or a storm summary. */
  datatype Event =
    | CycleEvent(dev: int, c: Cycle, receivedAt: int, before: seq<Cycle>)
    | SummaryEvent(dev: int, count: int, windowS: int, at: int)

  type Windows = map<WindowKey, seq<Cycle>>

  function DryObservation(c: Cycle): Observation { if IsDryRun(c) then Bad else Good(false) }

  function SummaryObservation(count: int, windowS: int): Observation {
    if SummaryShortCycling(count, windowS) then Bad else Good(false)
  }

  // ----- what happens to a condition -----------------------------------------------------------------------------

  /** A condition is observed, or overwritten by a seeding. */
  datatype Entry = Saw(o: Observation) | Seeds(active: bool)

  function Enter(c: Condition, en: Entry, toClear: int): Condition {
    match en
    case Saw(o) => Observe(c, o, toClear)
    case Seeds(active) => Condition(active, c.healthy)
  }

  function EntryEmits(c: Condition, en: Entry, toClear: int): seq<Action> {
    match en
    case Saw(o) => Emits(c, o, toClear)
    case Seeds(_) => []
  }

  function AfterEntries(c: Condition, ens: seq<Entry>, toClear: int): Condition {
    if ens == [] then c else Enter(AfterEntries(c, ens[..|ens| - 1], toClear), ens[|ens| - 1], toClear)
  }

  function EntryActions(c: Condition, ens: seq<Entry>, toClear: int): seq<Action> {
    if ens == [] then [] else
    EntryActions(c, ens[..|ens| - 1], toClear)
    + EntryEmits(AfterEntries(c, ens[..|ens| - 1], toClear), ens[|ens| - 1], toClear)
  }

  lemma {:induction false} EntriesJoin(c: Condition, a: seq<Entry>, b: seq<Entry>, toClear: int)
    ensures AfterEntries(c, a + b, toClear) == AfterEntries(AfterEntries(c, a, toClear), b, toClear)
    ensures EntryActions(c, a + b, toClear)
         == EntryActions(c, a, toClear) + EntryActions(AfterEntries(c, a, toClear), b, toClear)
  {
    hide Enter, EntryEmits;
    if b == [] {
      assert a + b == a;
      assert EntryActions(c, a, toClear) + [] == EntryActions(c, a, toClear);
    } else {
      var n := |b| - 1;
      EntriesJoin(c, a, b[..n], toClear);
      assert (a + b)[..|a| + n] == a + b[..n];
    }
  }

  function Saws(os: seq<Observation>): seq<Entry> {
    if os == [] then [] else Saws(os[..|os| - 1]) + [Saw(os[|os| - 1])]
  }

  /** A stretch between seedings, from whatever condition the entries before it left: what is proved of observations
      from any start holds of it. */
  lemma {:induction false} Stretch(c: Condition, before: seq<Entry>, os: seq<Observation>, toClear: int)
    ensures var a := AfterEntries(c, before, toClear);
            && AfterEntries(c, before + Saws(os), toClear) == After(a, os, toClear)
            && EntryActions(c, before + Saws(os), toClear) == EntryActions(c, before, toClear) + Actions(a, os, toClear)
            && Alternates(Actions(a, os, toClear), a.active)
  {
    var a := AfterEntries(c, before, toClear);
    EntriesJoin(c, before, Saws(os), toClear);
    SawsAre(a, os, toClear);
    ActionsAlternate(a, os, toClear);
    hide AfterEntries, EntryActions, After, Actions, Saws;
  }

  lemma {:induction false} SawsAre(c: Condition, os: seq<Observation>, toClear: int)
    ensures AfterEntries(c, Saws(os), toClear) == After(c, os, toClear)
    ensures EntryActions(c, Saws(os), toClear) == Actions(c, os, toClear)
  {
    if os != [] {
      var n := |os| - 1;
      SawsAre(c, os[..n], toClear);
      assert Saws(os)[..|Saws(os)| - 1] == Saws(os[..n]);
    }
  }

  // ----- what an event says ----------------------------------------------------------------------------------------

  /** A pump's window: the one held, or else the one loaded. */
  function Loaded(ws: Windows, dev: int, pump: int, before: seq<Cycle>): seq<Cycle> {
    if WindowKey(dev, pump) in ws then ws[WindowKey(dev, pump)] else OfPump(before, pump)
  }

  function WindowsAfter(ws: Windows, e: Event, size: nat): Windows {
    match e
    case CycleEvent(dev, c, _, before) =>
      ws[WindowKey(dev, c.pump) := Latest(Loaded(ws, dev, c.pump, before) + [c], size)]
    case SummaryEvent(_, _, _, _) => ws
  }

  function Seeding(ws: Windows, dev: int, pump: int, before: seq<Cycle>, code: Code): seq<Entry> {
    var w := OfPump(before, pump);
    if WindowKey(dev, pump) in ws || w == [] then [] else [Seeds(SeedsActive(w, code))]
  }

  function EntriesOf(ws: Windows, e: Event, size: nat, k: Key): seq<Entry> {
    if e.dev != k.dev || k.code == ContinuousRun then []
    else
      match e
      case CycleEvent(dev, c, _, before) =>
        Seeding(ws, dev, c.pump, before, k.code)
        + [Saw(if k.code == DryRun then DryObservation(c)
               else ShortObservation(Latest(Loaded(ws, dev, c.pump, before) + [c], size)))]
      case SummaryEvent(_, count, windowS, _) =>
        if k.code == ShortCycling then [Saw(SummaryObservation(count, windowS))] else []
  }

  function AllWindows(ws: Windows, es: seq<Event>, size: nat): Windows {
    if es == [] then ws else WindowsAfter(AllWindows(ws, es[..|es| - 1], size), es[|es| - 1], size)
  }

  function AllEntries(ws: Windows, es: seq<Event>, size: nat, k: Key): seq<Entry> {
    if es == [] then [] else
    AllEntries(ws, es[..|es| - 1], size, k) + EntriesOf(AllWindows(ws, es[..|es| - 1], size), es[|es| - 1], size, k)
  }

  // ----- detections of one condition -------------------------------------------------------------------------------

  function ActionsOf(ds: seq<Detection>, k: Key): seq<Action> {
    if ds == [] then [] else
    ActionsOf(ds[..|ds| - 1], k) + (if ds[|ds| - 1].key == k then [ds[|ds| - 1].action] else [])
  }

  lemma {:induction false} ActionsJoin(a: seq<Detection>, b: seq<Detection>, k: Key)
    ensures ActionsOf(a + b, k) == ActionsOf(a, k) + ActionsOf(b, k)
  {
    if b == [] {
      assert a + b == a;
    } else {
      var n := |b| - 1;
      ActionsJoin(a, b[..n], k);
      assert (a + b)[..|a| + n] == a + b[..n];
    }
  }

  lemma ActionsOne(d: Detection, k: Key)
    ensures ActionsOf([d], k) == if d.key == k then [d.action] else []
  {
    assert ActionsOf([d], k) == ActionsOf([], k) + (if d.key == k then [d.action] else []);
  }

  lemma OneAction(ds: seq<Detection>, key: Key, k: Key)
    requires |ds| <= 1 && forall i :: 0 <= i < |ds| ==> ds[i].key == key
    ensures ActionsOf(ds, k) == if k == key && ds != [] then [ds[0].action] else []
  {
    if ds != [] {
      assert ds == [ds[0]];
      ActionsOne(ds[0], k);
    }
  }

  /** A run's end is reported when it is over, so a long run is raised and cleared together. */
  function Continuous(dev: int, c: Cycle): seq<Detection> {
    var k := Key(dev, ContinuousRun);
    if IsContinuousRun(c) then [Detection(k, Raise, c.start + CONTINUOUS), Detection(k, Clear, EndedAt(c))] else []
  }

  lemma PairActions(ds: seq<Detection>, key: Key, k: Key)
    requires ds == [] || (|ds| == 2 && ds[0].key == key && ds[1].key == key)
    ensures ActionsOf(ds, k) == if k == key && ds != [] then [ds[0].action, ds[1].action] else []
  {
    if ds != [] {
      assert ds == [ds[0]] + [ds[1]];
      ActionsJoin([ds[0]], [ds[1]], k);
      ActionsOne(ds[0], k);
      ActionsOne(ds[1], k);
    }
  }

  /** The condition and its detections follow from its entries alone. */
  ghost predicate Follows(k: Key, now: Condition, was: Condition, ens: seq<Entry>, out: seq<Detection>, toClear: int) {
    && now == AfterEntries(was, ens, toClear)
    && (k.code != ContinuousRun ==> ActionsOf(out, k) == EntryActions(was, ens, toClear))
  }

  lemma FollowsOn(k: Key, now: Condition, mid: Condition, was: Condition, ens: seq<Entry>, more: seq<Entry>,
                  out: seq<Detection>, new_: seq<Detection>, toClear: int)
    requires Follows(k, mid, was, ens, out, toClear) && Follows(k, now, mid, more, new_, toClear)
    ensures Follows(k, now, was, ens + more, out + new_, toClear)
  {
    hide ActionsOf, AfterEntries, EntryActions;
    ActionsJoin(out, new_, k);
    EntriesJoin(was, ens, more, toClear);
  }

  /** What one observation of a condition sends. */
  function Told(k: Key, c: Condition, o: Observation, at: int, toClear: int): seq<Detection> {
    var emitted := Emits(c, o, toClear);
    if emitted == [] then [] else [Detection(k, emitted[0], at)]
  }

  lemma ToldActions(k: Key, c: Condition, o: Observation, at: int, toClear: int, x: Key)
    ensures ActionsOf(Told(k, c, o, at, toClear), x) == if x == k then Emits(c, o, toClear) else []
  {
    EmitsOne(c, o, toClear);
    hide Emits, ActionsOf;
    OneAction(Told(k, c, o, at, toClear), k, x);
  }

  lemma EmitsOne(c: Condition, o: Observation, toClear: int)
    ensures |Emits(c, o, toClear)| <= 1
  {
  }

  lemma OneEntry(c: Condition, en: Entry, toClear: int)
    ensures AfterEntries(c, [en], toClear) == Enter(c, en, toClear)
    ensures EntryActions(c, [en], toClear) == EntryEmits(c, en, toClear)
    ensures AfterEntries(c, [], toClear) == c && EntryActions(c, [], toClear) == []
  {
    assert [en][..0] == [];
  }

  // ----- the handler -------------------------------------------------------------------------------------------------

  class Handler {
    const window: nat
    const toClear: int
    var windows: Windows
    var active: map<Key, bool>
    var healthy: map<Key, nat>

    constructor (window: nat, toClear: int)
      ensures this.window == window && this.toClear == toClear && windows == map[]
      ensures forall k :: State(k) == Condition(false, 0)
    {
      this.window, this.toClear := window, toClear;
      windows, active, healthy := map[], map[], map[];
    }

    function State(k: Key): Condition
      reads this
    {
      Condition(k in active && active[k], if k in healthy then healthy[k] else 0)
    }

    /** After a rolled-back transaction everything is forgotten, to be loaded again. */
    method Reset()
      modifies this
      ensures windows == map[] && forall k :: State(k) == Condition(false, 0)
    {
      windows, active, healthy := map[], map[], map[];
    }

    /** One observation of one condition. Only that condition changes. */
    method Note(k: Key, o: Observation, at: int) returns (out: seq<Detection>)
      modifies this`active, this`healthy
      ensures State(k) == Observe(old(State(k)), o, toClear)
      ensures forall x :: x != k ==> State(x) == old(State(x))
      ensures out == Told(k, old(State(k)), o, at, toClear)
    {
      out := [];
      var a := k in active && active[k];
      match o {
        case Bad =>
          healthy := healthy[k := 0];
          if !a {
            active := active[k := true];
            out := [Detection(k, Raise, at)];
          }
        case Good(resets) =>
          if a {
            healthy := healthy[k := (if k in healthy then healthy[k] else 0) + 1];
            if healthy[k] >= toClear {
              active := active[k := false];
              out := [Detection(k, Clear, at)];
            }
          } else if resets {
            healthy := healthy[k := 0];
          }
        case Neither =>
          healthy := healthy[k := 0];
      }
    }

    /** Loads a pump's window and takes the device's conditions from it; counts stay as they are. */
    method Seed(dev: int, pump: int, before: seq<Cycle>)
      modifies this`windows, this`active
      ensures windows == old(windows)[WindowKey(dev, pump) := OfPump(before, pump)]
      ensures forall k: Key ::
                State(k) == if k.dev == dev then Seeded(old(State(k)), OfPump(before, pump), k.code) else old(State(k))
    {
      var w := LoadWindow(before, pump);
      windows := windows[WindowKey(dev, pump) := w];
      if |w| > 0 {
        var run := ShortCyclingRun(w);
        active := active[Key(dev, DryRun) := IsDryRun(w[|w| - 1])][Key(dev, ShortCycling) := run >= SHORT_COUNT];
      }
    }

    /** Seeds on first sight of a pump. */
    method Load(dev: int, pump: int, before: seq<Cycle>)
      modifies this`windows, this`active
      ensures windows == old(windows)[WindowKey(dev, pump) := Loaded(old(windows), dev, pump, before)]
      ensures forall k: Key :: State(k) ==
                if k.dev == dev && k.code != ContinuousRun
                then AfterEntries(old(State(k)), Seeding(old(windows), dev, pump, before, k.code), toClear)
                else old(State(k))
    {
      hide SeedsActive, OfPump;
      if WindowKey(dev, pump) in windows { return; }
      Seed(dev, pump, before);
      forall c: Condition, b: bool ensures AfterEntries(c, [Seeds(b)], toClear) == Condition(b, c.healthy) {
        OneEntry(c, Seeds(b), toClear);
      }
      hide AfterEntries;
      assert forall c: Condition :: AfterEntries(c, [], toClear) == c by { Nothing(toClear); }
    }

    /** Adds the cycle to its pump's window and says what the window shows. */
    method Slide(dev: int, c: Cycle) returns (w: seq<Cycle>, o: Observation)
      requires WindowKey(dev, c.pump) in windows
      modifies this`windows
      ensures w == Latest(old(windows)[WindowKey(dev, c.pump)] + [c], window) && o == ShortObservation(w)
      ensures windows == old(windows)[WindowKey(dev, c.pump) := w]
    {
      w := windows[WindowKey(dev, c.pump)] + [c];
      if |w| > window { w := w[|w| - window..]; }
      windows := windows[WindowKey(dev, c.pump) := w];
      var run := ShortCyclingRun(w);
      o := if run >= SHORT_COUNT then Bad else if run == 1 then Good(true) else Neither;
    }

    /** A cycle: dry run, continuous run, short cycling. */
    method Classify(dev: int, c: Cycle, receivedAt: int, before: seq<Cycle>) returns (out: seq<Detection>)
      modifies this
      ensures windows == WindowsAfter(old(windows), CycleEvent(dev, c, receivedAt, before), window)
      ensures forall k :: Follows(k, State(k), old(State(k)),
                                  EntriesOf(old(windows), CycleEvent(dev, c, receivedAt, before), window, k), out,
                                  toClear)
      ensures ActionsOf(out, Key(dev, ContinuousRun)) == if c.runS > 600 then [Raise, Clear] else []
      ensures forall i :: 0 <= i < |out| ==> out[i].key.dev == dev && out[i].at == CycleTime(out[i], c, receivedAt)
    {
      hide Emits, Observe, Streak, ActionsOf, AfterEntries, EntryActions, Seeding, DryObservation, OfPump, Latest,
        ShortObservation, Loaded, Told, EntriesOf, Follows, Continuous;
      ghost var ws, e := windows, CycleEvent(dev, c, receivedAt, before);
      Load(dev, c.pump, before);
      label loaded:
      var dryAt := if IsDryRun(c) then receivedAt else EndedAt(c);
      var d := Note(Key(dev, DryRun), DryObservation(c), dryAt);
      var w, o := Slide(dev, c);
      var s := Note(Key(dev, ShortCycling), o, EndedAt(c));
      out := d + Continuous(dev, c) + s;
      ghost var dry, short := old@loaded(State(Key(dev, DryRun))), old@loaded(State(Key(dev, ShortCycling)));
      forall k: Key ensures Follows(k, State(k), old(State(k)), EntriesOf(ws, e, window, k), out, toClear) {
        CycleFollows(ws, e, window, k, old(State(k)), dry, short, dryAt, toClear);
      }
      CycleActions(e, dry, short, o, dryAt, toClear, Key(dev, ContinuousRun));
      CycleTimes(e, dry, short, o, toClear);
    }

    /** A storm summary of a device: the short-cycling rule in its summary form. */
    method Summary(dev: int, count: int, windowS: int, at: int) returns (out: seq<Detection>)
      modifies this`active, this`healthy
      ensures forall k :: Follows(k, State(k), old(State(k)),
                                  EntriesOf(windows, SummaryEvent(dev, count, windowS, at), window, k), out, toClear)
      ensures forall i :: 0 <= i < |out| ==> out[i].at == at
    {
      hide Emits, Observe, SummaryObservation, ActionsOf, AfterEntries, EntryActions;
      var short, o := Key(dev, ShortCycling), SummaryObservation(count, windowS);
      out := Note(short, o, at);
      EmitsOne(old(State(short)), o, toClear);
      forall k: Key ensures Follows(k, State(k), old(State(k)),
                                    EntriesOf(windows, SummaryEvent(dev, count, windowS, at), window, k), out, toClear)
      {
        OneAction(out, short, k);
        OneEntry(old(State(k)), Saw(o), toClear);
      }
    }

    method HandleEvent(e: Event) returns (out: seq<Detection>)
      modifies this
      ensures windows == WindowsAfter(old(windows), e, window)
      ensures forall k :: Follows(k, State(k), old(State(k)), EntriesOf(old(windows), e, window, k), out, toClear)
    {
      match e
      case CycleEvent(dev, c, receivedAt, before) => out := Classify(dev, c, receivedAt, before);
      case SummaryEvent(dev, count, windowS, at) => out := Summary(dev, count, windowS, at);
    }

    /** Handles any interleaving of cycles and summaries of any devices, loading windows on the way: for each condition
        the detections are those of its own observations and seedings, in order. */
    method Process(events: seq<Event>) returns (out: seq<Detection>)
      modifies this
      ensures windows == AllWindows(old(windows), events, window)
      ensures forall k :: Follows(k, State(k), old(State(k)), AllEntries(old(windows), events, window, k), out, toClear)
    {
      hide EntriesOf, WindowsAfter, ActionsOf, Follows, AfterEntries, EntryActions;
      out := [];
      ghost var ws := windows;
      forall k: Key ensures Follows(k, State(k), State(k), [], [], toClear) { NothingYet(k, State(k), toClear); }
      for i := 0 to |events|
        invariant windows == AllWindows(ws, events[..i], window)
        invariant forall k :: Follows(k, State(k), old(State(k)), AllEntries(ws, events[..i], window, k), out, toClear)
      {
        ghost var soFar, was := out, windows;
        assert events[..i + 1][..i] == events[..i];
        label step:
        var more := HandleEvent(events[i]);
        out := out + more;
        forall k ensures Follows(k, State(k), old(State(k)), AllEntries(ws, events[..i + 1], window, k), out, toClear) {
          FollowsOn(k, State(k), old@step(State(k)), old(State(k)), AllEntries(ws, events[..i], window, k),
                    EntriesOf(was, events[i], window, k), soFar, more, toClear);
        }
      }
      assert events[..|events|] == events;
    }
  }

  lemma Nothing(toClear: int)
    ensures forall c: Condition :: AfterEntries(c, [], toClear) == c
  {
  }

  lemma NothingYet(k: Key, c: Condition, toClear: int)
    ensures Follows(k, c, c, [], [], toClear)
  {
  }

  /** A cycle's entries, one after the other. */
  lemma CycleEntries(ws: Windows, e: Event, size: nat, k: Key, was: Condition, toClear: int)
    requires e.CycleEvent?
    ensures var seeds, ens := Seeding(ws, e.dev, e.c.pump, e.before, k.code), EntriesOf(ws, e, size, k);
            var mid := AfterEntries(was, seeds, toClear);
            if ens == [] then AfterEntries(was, ens, toClear) == was && EntryActions(was, ens, toClear) == []
            else ens[|ens| - 1].Saw?
                 && AfterEntries(was, ens, toClear) == Observe(mid, ens[|ens| - 1].o, toClear)
                 && EntryActions(was, ens, toClear) == Emits(mid, ens[|ens| - 1].o, toClear)
  {
    var seeds, ens := Seeding(ws, e.dev, e.c.pump, e.before, k.code), EntriesOf(ws, e, size, k);
    if ens == [] {
      Nothing(toClear);
    } else {
      var last := ens[|ens| - 1];
      assert ens == seeds + [last];
      SeedingQuiet(ws, e.dev, e.c.pump, e.before, k.code, was, toClear);
      hide Seeding, AfterEntries, EntryActions, Observe, Emits;
      EntriesJoin(was, seeds, [last], toClear);
      OneEntry(AfterEntries(was, seeds, toClear), last, toClear);
      var emitted := EntryActions(AfterEntries(was, seeds, toClear), [last], toClear);
      assert [] + emitted == emitted;
    }
  }

  /** The detections of a cycle, from the conditions its rules find. */
  function CycleTold(e: Event, dry: Condition, short: Condition, o: Observation, dryAt: int, toClear: int)
      : seq<Detection>
    requires e.CycleEvent?
  {
    Told(Key(e.dev, DryRun), dry, DryObservation(e.c), dryAt, toClear) + Continuous(e.dev, e.c)
    + Told(Key(e.dev, ShortCycling), short, o, EndedAt(e.c), toClear)
  }

  lemma CycleActions(e: Event, dry: Condition, short: Condition, o: Observation, dryAt: int, toClear: int, k: Key)
    requires e.CycleEvent?
    ensures ActionsOf(CycleTold(e, dry, short, o, dryAt, toClear), k) ==
            if k == Key(e.dev, DryRun) then Emits(dry, DryObservation(e.c), toClear)
            else if k == Key(e.dev, ShortCycling) then Emits(short, o, toClear)
            else if k == Key(e.dev, ContinuousRun) && IsContinuousRun(e.c) then [Raise, Clear]
            else []
  {
    hide Told, ActionsOf, Emits, DryObservation;
    var d := Told(Key(e.dev, DryRun), dry, DryObservation(e.c), dryAt, toClear);
    var r, s := Continuous(e.dev, e.c), Told(Key(e.dev, ShortCycling), short, o, EndedAt(e.c), toClear);
    ActionsJoin(d + r, s, k);
    ActionsJoin(d, r, k);
    ToldActions(Key(e.dev, DryRun), dry, DryObservation(e.c), dryAt, toClear, k);
    ToldActions(Key(e.dev, ShortCycling), short, o, EndedAt(e.c), toClear, k);
    PairActions(r, Key(e.dev, ContinuousRun), k);
  }

  /** A dry run is raised when its cycle was received, a continuous run ten minutes into it; all else dates from the
      cycle's end. */
  function CycleTime(x: Detection, c: Cycle, receivedAt: int): int {
    if x.action == Raise && x.key.code == DryRun then receivedAt
    else if x.action == Raise && x.key.code == ContinuousRun then c.start + 600
    else c.start + c.runS
  }

  lemma CycleTimes(e: Event, dry: Condition, short: Condition, o: Observation, toClear: int)
    requires e.CycleEvent?
    ensures var out := CycleTold(e, dry, short, o, if IsDryRun(e.c) then e.receivedAt else EndedAt(e.c), toClear);
            forall i :: 0 <= i < |out| ==> out[i].key.dev == e.dev && out[i].at == CycleTime(out[i], e.c, e.receivedAt)
  {
  }

  /** Dry: thirty seconds or more that lowered the water by less than five millimetres. A summary is bad if it tells of
      five runs or more, at most a minute apart on average. */
  lemma ObservationsMean(c: Cycle, count: int, windowS: int)
    ensures DryObservation(c) == if c.runS >= 30 && c.levelEnd - c.levelStart < 5 then Bad else Good(false)
    ensures SummaryObservation(count, windowS) ==
            if count >= 5 && windowS > 0 && windowS as real / count as real <= 60.0 then Bad else Good(false)
  {
    if count >= 5 { Average(windowS, count); }
  }

  lemma Average(total: int, count: int)
    requires count > 0
    ensures total as real / count as real <= 60.0 <==> total <= 60 * count
  {
    var q, n := total as real / count as real, count as real;
    assert q * n == total as real && (60 * count) as real == 60.0 * n;
    assert (60.0 - q) * n == 60.0 * n - total as real;
  }

  /** What the short-cycling rule sees of a cycle. */
  function ShortSeen(ws: Windows, e: Event, size: nat): Observation
    requires e.CycleEvent?
  {
    ShortObservation(Latest(Loaded(ws, e.dev, e.c.pump, e.before) + [e.c], size))
  }

  /** Loading, then the two observations, then the detections: what the entries say. */
  lemma CycleFollows(ws: Windows, e: Event, size: nat, k: Key, was: Condition, dry: Condition, short: Condition,
                     dryAt: int, toClear: int)
    requires e.CycleEvent?
    requires k == Key(e.dev, DryRun) ==>
               dry == AfterEntries(was, Seeding(ws, e.dev, e.c.pump, e.before, DryRun), toClear)
    requires k == Key(e.dev, ShortCycling) ==>
               short == AfterEntries(was, Seeding(ws, e.dev, e.c.pump, e.before, ShortCycling), toClear)
    ensures var o := ShortSeen(ws, e, size);
            var now := if k == Key(e.dev, DryRun) then Observe(dry, DryObservation(e.c), toClear)
                       else if k == Key(e.dev, ShortCycling) then Observe(short, o, toClear)
                       else was;
            Follows(k, now, was, EntriesOf(ws, e, size, k), CycleTold(e, dry, short, o, dryAt, toClear), toClear)
  {
    hide Emits, Observe, ActionsOf, AfterEntries, EntryActions, Seeding, DryObservation, ShortObservation, Latest,
      Loaded, CycleTold;
    CycleEntries(ws, e, size, k, was, toClear);
    CycleActions(e, dry, short, ShortSeen(ws, e, size), dryAt, toClear, k);
  }

  lemma SeedingQuiet(ws: Windows, dev: int, pump: int, before: seq<Cycle>, code: Code, was: Condition, toClear: int)
    ensures EntryActions(was, Seeding(ws, dev, pump, before, code), toClear) == []
  {
    hide SeedsActive, OfPump;
    var s := Seeding(ws, dev, pump, before, code);
    if s != [] { OneEntry(was, s[0], toClear); }
  }

  // ----- the window verdict over runs ------------------------------------------------------------------------------

  /** The cycles of one pump among the events. */
  function CyclesOf(es: seq<Event>, dev: int, pump: int): seq<Cycle> {
    if es == [] then [] else
    var n := |es| - 1;
    CyclesOf(es[..n], dev, pump)
    + (if es[n].CycleEvent? && es[n].dev == dev && es[n].c.pump == pump then [es[n].c] else [])
  }

  /** Once a window is held, it is the latest of what was held and what came since, whatever else happens. */
  lemma {:induction false} WindowIsLatest(ws: Windows, es: seq<Event>, size: nat, dev: int, pump: int)
    requires size > 0 && WindowKey(dev, pump) in ws && |ws[WindowKey(dev, pump)]| <= size
    ensures var wk := WindowKey(dev, pump);
            && wk in AllWindows(ws, es, size)
            && AllWindows(ws, es, size)[wk] == Latest(ws[wk] + CyclesOf(es, dev, pump), size)
  {
    var wk := WindowKey(dev, pump);
    if es == [] {
      assert ws[wk] + [] == ws[wk];
    } else {
      var n := |es| - 1;
      WindowIsLatest(ws, es[..n], size, dev, pump);
      var so := ws[wk] + CyclesOf(es[..n], dev, pump);
      hide Latest, OfPump;
      if es[n].CycleEvent? && es[n].dev == dev && es[n].c.pump == pump {
        LatestGrows(so, size, es[n].c);
        assert so + [es[n].c] == ws[wk] + CyclesOf(es, dev, pump);
      } else {
        assert CyclesOf(es, dev, pump) == CyclesOf(es[..n], dev, pump);
      }
    }
  }

  /** Over any run after its window was loaded with the last `m` cycles of the pump's history `h`, every cycle of the
      pump is judged as the whole history would judge it, if four cycles or the whole streak were loaded. */
  lemma RunVerdict(ws: Windows, es: seq<Event>, e: Event, size: nat, h: seq<Cycle>, m: nat)
    requires e.CycleEvent? && WindowKey(e.dev, e.c.pump) in ws && size >= SHORT_COUNT && m <= |h| && m <= size
    requires ws[WindowKey(e.dev, e.c.pump)] == h[|h| - m..] && (m >= SHORT_COUNT - 1 || Streak(h) <= m)
    ensures var cs := CyclesOf(es, e.dev, e.c.pump) + [e.c];
            EntriesOf(AllWindows(ws, es, size), e, size, Key(e.dev, ShortCycling)) == [Saw(ShortObservation(h + cs))]
  {
    hide Streak, Latest, OfPump, ShortObservation, CyclesOf, AllWindows;
    var wk, before := WindowKey(e.dev, e.c.pump), CyclesOf(es, e.dev, e.c.pump);
    WindowIsLatest(ws, es, size, e.dev, e.c.pump);
    LatestGrows(ws[wk] + before, size, e.c);
    assert ws[wk] + before + [e.c] == ws[wk] + (before + [e.c]);
    EnoughLoaded(h, m, before + [e.c], size);
  }

  /** The cycle that loads the window is judged so as well. */
  lemma FirstVerdict(ws: Windows, e: Event, size: nat, h: seq<Cycle>)
    requires e.CycleEvent? && WindowKey(e.dev, e.c.pump) !in ws && size >= SHORT_COUNT && e.before == Newest(h, size)
    requires var w, all := OfPump(e.before, e.c.pump), PumpOf(h, e.c.pump);
             |w| >= SHORT_COUNT - 1 || Streak(all) <= |w|
    ensures var ens := EntriesOf(ws, e, size, Key(e.dev, ShortCycling));
            ens != [] && ens[|ens| - 1] == Saw(ShortObservation(PumpOf(h, e.c.pump) + [e.c]))
  {
    hide Streak, Latest, OfPump, ShortObservation, PumpOf, Newest, Seeding;
    var w, all := OfPump(e.before, e.c.pump), PumpOf(h, e.c.pump);
    LoadedSuffix(h, size, e.c.pump);
    EnoughLoaded(all, |w|, [e.c], size);
  }
}
