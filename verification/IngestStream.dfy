/** One client stream of the ingest server: receive, batch, store (internal/ingest/server.go). */
module IngestStream {
  import opened Common
  import opened BulkStore

  /** A message either gives a row or fails validation. */
  datatype Msg = Good(row: Row) | Invalid

  /** What the three stages of a stream, and other streams beside it, may do next. */
  datatype Event =
    | Receive(req: seq<Msg>)
    | Due
    | Eof
    | StoreNext(fails: bool)
    | Others(rows: seq<Row>)
    | Broken

  /** The valid rows of a request, in order. */
  function Extract(req: seq<Msg>): seq<Row> {
    if req == [] then [] else
    Extract(req[..|req| - 1]) + (match req[|req| - 1] case Good(row) => [row] case Invalid => [])
  }

  /** All rows received before the end of the stream, and whether it came. */
  function Received(events: seq<Event>): seq<Row> {
    if events == [] then [] else
    var n := |events| - 1;
    Received(events[..n]) + (if events[n].Receive? && !Ended(events[..n]) then Extract(events[n].req) else [])
  }

  function Ended(events: seq<Event>): bool {
    events != [] && (Ended(events[..|events| - 1]) || events[|events| - 1] == Eof)
  }

  predicate Alone(events: seq<Event>) { forall i :: 0 <= i < |events| ==> !events[i].Others? }

  /** Where a stream stands: what it stored, what is queued, what is being collected. */
  datatype State = State(ended: bool, cur: seq<Row>, batches: seq<seq<Row>>, total: Result)

  /** A stream that goes on, or one that ended in an error, and the stored data. */
  datatype Status = Running(s: State, d: Data) | Stopped(d: Data)

  /** Hands the collected rows to the store stage. */
  function Pushed(s: State): State {
    if s.cur == [] then s else s.(cur := [], batches := s.batches + [s.cur])
  }

  /** Collects a request's valid rows; a full batch goes on to the store stage. */
  function Collected(s: State, req: seq<Msg>, batchMax: nat): State {
    if s.ended || Extract(req) == [] then s
    else
      var t := s.(cur := s.cur + Extract(req));
      if |t.cur| >= batchMax then Pushed(t) else t
  }

  function StepOf(auto: bool, batchMax: nat, s: State, d: Data, e: Event): Status {
    match e
    case Receive(req) => Running(Collected(s, req, batchMax), d)
    case Due => Running(Pushed(s), d)
    case Eof => Running(Pushed(s).(ended := true), d)
    case StoreNext(fails) =>
      if s.batches == [] then Running(s, d)
      else if fails && s.batches[0] != [] then Stopped(d)
      else
        var b := s.batches[0];
        Running(s.(batches := s.batches[1..], total := Plus(s.total, CountAll(auto, d, b))), PutAll(auto, d, b))
    case Others(rows) => Running(s, PutAll(auto, d, rows))
    case Broken => Stopped(d)
  }

  const Opening := State(false, [], [], Result(0, 0, 0))

  /** What a stream does over a schedule of its stages and of other writers. */
  function Stream(auto: bool, batchMax: nat, d: Data, events: seq<Event>): Status {
    if events == [] then Running(Opening, d) else
    var n := |events| - 1;
    match Stream(auto, batchMax, d, events[..n])
    case Stopped(d') => Stopped(d')
    case Running(s, d') => StepOf(auto, batchMax, s, d', events[n])
  }

  /** The response: counts once the client has closed its side and every batch is stored. */
  function Answer(st: Status): Option<Result> {
    if st.Running? && st.s.ended && st.s.batches == [] then Some(st.s.total) else None
  }

  /** The rows of the stream's own batches stored so far. */
  ghost function StoredBy(auto: bool, batchMax: nat, d: Data, events: seq<Event>): seq<Row> {
    if events == [] then [] else
    var n := |events| - 1;
    var st := Stream(auto, batchMax, d, events[..n]);
    StoredBy(auto, batchMax, d, events[..n]) +
    (if st.Running? && st.s.batches != [] && events[n].StoreNext? && !(events[n].fails && st.s.batches[0] != [])
     then st.s.batches[0] else [])
  }

  /** Nothing received is lost or reordered; everything stored has landed. */
  ghost predicate Sound(auto: bool, d0: Data, d: Data, s: State, stored: seq<Row>, events: seq<Event>) {
    && s.ended == Ended(events) && Received(events) == stored + Joined(s.batches) + s.cur && (s.ended ==> s.cur == [])
    && Counted(auto, d0, d, s, stored, events)
  }

  ghost predicate Counted(auto: bool, d0: Data, d: Data, s: State, stored: seq<Row>, events: seq<Event>) {
    && (forall r <- stored :: Landed(auto, d, r))
    && s.total.accepted + s.total.duplicates + s.total.rejected == |stored|
    && (Alone(events) ==> d == PutAll(auto, d0, stored) && s.total == CountAll(auto, d0, stored))
  }

  lemma PushedJoins(s: State)
    ensures Joined(Pushed(s).batches) + Pushed(s).cur == Joined(s.batches) + s.cur && Pushed(s).cur == []
  {
    JoinedSnoc(s.batches, s.cur);
  }

  lemma CollectedJoins(s: State, req: seq<Msg>, batchMax: nat)
    ensures var s' := Collected(s, req, batchMax);
            && s'.ended == s.ended && s'.total == s.total && (s.ended ==> s' == s)
            && Joined(s'.batches) + s'.cur == Joined(s.batches) + s.cur + (if s.ended then [] else Extract(req))
  {
    hide Joined, Extract;
    if !s.ended && Extract(req) != [] {
      var t := s.(cur := s.cur + Extract(req));
      PushedJoins(t);
      assert Joined(s.batches) + t.cur == Joined(s.batches) + s.cur + Extract(req);
    }
  }

  lemma Snoc(events: seq<Event>, e: Event)
    ensures Received(events + [e]) == Received(events) + (if e.Receive? && !Ended(events) then Extract(e.req) else [])
    ensures Ended(events + [e]) <==> Ended(events) || e == Eof
    ensures Alone(events + [e]) <==> Alone(events) && !e.Others?
  {
    assert (events + [e])[..|events|] == events;
    if Alone(events + [e]) {
      forall i | 0 <= i < |events| ensures !events[i].Others? { assert events[i] == (events + [e])[i]; }
    }
    assert (events + [e])[|events|] == e;
  }

  method ExtractRows(req: seq<Msg>) returns (rows: seq<Row>)
    ensures rows == Extract(req)
  {
    rows := [];
    for i := 0 to |req|
      invariant rows == Extract(req[..i])
    {
      assert req[..i + 1][..i] == req[..i];
      if req[i].Good? { rows := rows + [req[i].row]; }
    }
    assert req[..|req|] == req;
  }

  lemma StoredMore(auto: bool, d0: Data, d: Data, s: State, stored: seq<Row>, events: seq<Event>, b: seq<Row>)
    requires Counted(auto, d0, d, s, stored, events)
    ensures Counted(auto, d0, PutAll(auto, d, b), s.(total := Plus(s.total, CountAll(auto, d, b))), stored + b, events)
  {
    AllLand(auto, d, b);
    BatchingIrrelevant(auto, d0, stored, b);
    CountsAddUp(auto, d, b);
    hide PutAll, CountAll, Landed;
    forall r <- stored + b ensures Landed(auto, PutAll(auto, d, b), r) {
      if r in stored { LandedStays(auto, d, b, r); }
    }
  }

  lemma OthersMore(auto: bool, d0: Data, d: Data, s: State, stored: seq<Row>, events: seq<Event>, b: seq<Row>)
    requires Counted(auto, d0, d, s, stored, events)
    ensures Counted(auto, d0, PutAll(auto, d, b), s, stored, events + [Others(b)])
  {
    Snoc(events, Others(b));
    hide PutAll, CountAll, Landed, Alone;
    forall r <- stored ensures Landed(auto, PutAll(auto, d, b), r) { LandedStays(auto, d, b, r); }
  }

  lemma QuietEvent(auto: bool, d0: Data, d: Data, s: State, s': State, stored: seq<Row>, events: seq<Event>, e: Event)
    requires Counted(auto, d0, d, s, stored, events) && s'.total == s.total && !e.Others?
    ensures Counted(auto, d0, d, s', stored, events + [e])
  {
    Snoc(events, e);
    hide PutAll, CountAll, Landed, Alone;
  }

  lemma Shift(a: seq<Row>, b: seq<Row>, c: seq<Row>, d: seq<Row>)
    ensures a + (b + c) + d == a + b + c + d
  {
  }

  lemma Stores(auto: bool, d0: Data, d: Data, s: State, stored: seq<Row>, events: seq<Event>, fails: bool)
    requires Sound(auto, d0, d, s, stored, events) && s.batches != []
    ensures var b := s.batches[0];
            Sound(auto, d0, PutAll(auto, d, b),
                  s.(batches := s.batches[1..], total := Plus(s.total, CountAll(auto, d, b))),
                  stored + b, events + [StoreNext(fails)])
  {
    hide Counted, Received, Ended, Joined, PutAll, CountAll;
    var b := s.batches[0];
    JoinedFirst(s.batches);
    Snoc(events, StoreNext(fails));
    StoredMore(auto, d0, d, s, stored, events, b);
    var s1 := s.(total := Plus(s.total, CountAll(auto, d, b)));
    QuietEvent(auto, d0, PutAll(auto, d, b), s1, s1.(batches := s.batches[1..]), stored + b, events, StoreNext(fails));
    Shift(stored, b, Joined(s.batches[1..]), s.cur);
  }

  lemma Passes(auto: bool, d0: Data, d: Data, s: State, stored: seq<Row>, events: seq<Event>, e: Event)
    requires Sound(auto, d0, d, s, stored, events) && !e.Others? && e != Eof && (e.Receive? ==> s.ended)
    ensures Sound(auto, d0, d, s, stored, events + [e])
  {
    Snoc(events, e);
    QuietEvent(auto, d0, d, s, s, stored, events, e);
    hide Counted, Received, Ended, Joined;
  }

  /** Rows moved on, or collected, keep their order. */
  lemma Moves(auto: bool, d0: Data, d: Data, s: State, s': State, stored: seq<Row>, events: seq<Event>, e: Event)
    requires Sound(auto, d0, d, s, stored, events) && s'.total == s.total && !e.Others?
    requires s'.ended == (s.ended || e == Eof) && (s'.ended ==> s'.cur == [])
    requires Joined(s'.batches) + s'.cur ==
               Joined(s.batches) + s.cur + (if e.Receive? && !s.ended then Extract(e.req) else [])
    ensures Sound(auto, d0, d, s', stored, events + [e])
  {
    hide Counted, Received, Ended, Joined, Extract;
    Snoc(events, e);
    QuietEvent(auto, d0, d, s, s', stored, events, e);
    Reassoc(stored, Joined(s.batches), s.cur, if e.Receive? && !s.ended then Extract(e.req) else [],
            Joined(s'.batches), s'.cur);
  }

  lemma Reassoc(a: seq<Row>, b: seq<Row>, c: seq<Row>, x: seq<Row>, b': seq<Row>, c': seq<Row>)
    requires b' + c' == b + c + x
    ensures a + b' + c' == a + b + c + x
  {
    assert a + b' + c' == a + (b' + c') && a + (b + c + x) == a + b + c + x;
  }

  /** What a stream's outcome means. On success every valid row has landed and is counted; without other
      writers the stored data and the counts are those of one insert of everything received, however the
      stages were scheduled. On failure a prefix was stored. */
  ghost predicate StreamRight(auto: bool, d0: Data, d: Data, events: seq<Event>, r: Option<Result>, stored: seq<Row>) {
    && stored <= Received(events)
    && (forall x <- stored :: Landed(auto, d, x))
    && (r.Some? ==> stored == Received(events) && r.value.accepted + r.value.duplicates + r.value.rejected == |stored|)
    && (Alone(events) ==> d == PutAll(auto, d0, stored) && (r.Some? ==> r.value == CountAll(auto, d0, stored)))
  }

  lemma StreamEnds(auto: bool, d0: Data, d: Data, s: State, stored: seq<Row>, all: seq<Event>, i: nat)
    requires i <= |all| && Sound(auto, d0, d, s, stored, all[..i])
    ensures StreamRight(auto, d0, d, all, None, stored)
    ensures i == |all| && s.ended && s.batches == [] ==> StreamRight(auto, d0, d, all, Some(s.total), stored)
  {
    ReceivedPrefix(all, i);
    hide PutAll, CountAll, Landed, Received, Ended;
    if i == |all| { assert all[..i] == all; }
    assert stored <= Received(all[..i]);
    assert Alone(all) ==> Alone(all[..i]);
  }

  lemma {:induction false} ReceivedPrefix(all: seq<Event>, i: nat)
    requires i <= |all|
    ensures Received(all[..i]) <= Received(all)
    decreases |all|
  {
    if i < |all| {
      var n := |all| - 1;
      ReceivedPrefix(all[..n], i);
      assert all[..n][..i] == all[..i];
    } else {
      assert all[..i] == all;
    }
  }

  /** One event of a stream keeps its books. */
  lemma StepSound(auto: bool, batchMax: nat, d0: Data, d: Data, s: State, stored: seq<Row>, events: seq<Event>,
                  e: Event)
    requires Sound(auto, d0, d, s, stored, events) && StepOf(auto, batchMax, s, d, e).Running?
    ensures var st := StepOf(auto, batchMax, s, d, e);
            var more := if e.StoreNext? && s.batches != [] then s.batches[0] else [];
            Sound(auto, d0, st.d, st.s, stored + more, events + [e])
  {
    CurEnded(auto, d0, d, s, stored, events);
    EmptyTail(stored);
    hide Sound, Joined, PutAll, CountAll, Collected, Pushed;
    match e
    case Receive(req) =>
      CollectedJoins(s, req, batchMax);
      Moves(auto, d0, d, s, Collected(s, req, batchMax), stored, events, e);
    case Due =>
      PushedJoins(s);
      PushedSame(s);
      EmptyTail(Joined(s.batches) + s.cur);
      Moves(auto, d0, d, s, Pushed(s), stored, events, e);
    case Eof =>
      PushedJoins(s);
      PushedSame(s);
      EmptyTail(Joined(s.batches) + s.cur);
      Moves(auto, d0, d, s, Pushed(s).(ended := true), stored, events, e);
    case StoreNext(fails) =>
      if s.batches == [] {
        Passes(auto, d0, d, s, stored, events, e);
      } else {
        Stores(auto, d0, d, s, stored, events, fails);
      }
    case Others(rows) => OthersPass(auto, d0, d, s, stored, events, rows);
    case Broken =>
  }

  lemma PushedSame(s: State)
    ensures Pushed(s).ended == s.ended && Pushed(s).total == s.total
  {
  }

  lemma EmptyTail(s: seq<Row>)
    ensures s + [] == s
  {
  }

  lemma CurEnded(auto: bool, d0: Data, d: Data, s: State, stored: seq<Row>, events: seq<Event>)
    requires Sound(auto, d0, d, s, stored, events)
    ensures s.ended ==> s.cur == []
  {
  }

  lemma OthersPass(auto: bool, d0: Data, d: Data, s: State, stored: seq<Row>, events: seq<Event>, rows: seq<Row>)
    requires Sound(auto, d0, d, s, stored, events)
    ensures Sound(auto, d0, PutAll(auto, d, rows), s, stored, events + [Others(rows)])
  {
    OthersMore(auto, d0, d, s, stored, events, rows);
    Snoc(events, Others(rows));
    hide Counted, Received, Ended, Joined, PutAll;
  }

  lemma StreamStart(auto: bool, d: Data)
    ensures Sound(auto, d, d, Opening, [], [])
  {
  }

  /** A stream that goes on has kept its books; one that stopped has stored a prefix. */
  lemma {:induction false} StreamSound(auto: bool, batchMax: nat, d: Data, events: seq<Event>)
    ensures var st, stored := Stream(auto, batchMax, d, events), StoredBy(auto, batchMax, d, events);
            match st
            case Running(s, d') => Sound(auto, d, d', s, stored, events)
            case Stopped(d') => StreamRight(auto, d, d', events, None, stored)
  {
    hide Sound, StreamRight, StepOf;
    if events == [] {
      StreamStart(auto, d);
    } else {
      var n := |events| - 1;
      var before, e := events[..n], events[n];
      assert events == before + [e];
      StreamSound(auto, batchMax, d, before);
      var stored := StoredBy(auto, batchMax, d, before);
      match Stream(auto, batchMax, d, before)
      case Stopped(d') =>
        EmptyTail(stored);
        StoppedOn(auto, d, d', before, stored, e);
      case Running(s, d') =>
        if StepOf(auto, batchMax, s, d', e).Running? {
          StepSound(auto, batchMax, d, d', s, stored, before, e);
          StoredStep(auto, batchMax, s, d', e);
        } else {
          StoredStep(auto, batchMax, s, d', e);
          EmptyTail(stored);
          StreamEnds(auto, d, d', s, stored, events, n);
        }
    }
  }

  lemma StoredStep(auto: bool, batchMax: nat, s: State, d: Data, e: Event)
    ensures !StepOf(auto, batchMax, s, d, e).Running? ==> StepOf(auto, batchMax, s, d, e) == Stopped(d)
    ensures StepOf(auto, batchMax, s, d, e).Running? && e.StoreNext? && s.batches != [] ==>
              !(e.fails && s.batches[0] != [])
    ensures !StepOf(auto, batchMax, s, d, e).Running? && e.StoreNext? ==>
              s.batches != [] && e.fails && s.batches[0] != []
  {
  }

  lemma StoppedOn(auto: bool, d0: Data, d: Data, events: seq<Event>, stored: seq<Row>, e: Event)
    requires StreamRight(auto, d0, d, events, None, stored)
    ensures StreamRight(auto, d0, d, events + [e], None, stored)
  {
    Snoc(events, e);
    hide PutAll, CountAll, Landed, Received, Ended, Alone;
  }

  /** What a whole stream's answer and stored data mean. */
  lemma StreamMeaning(auto: bool, batchMax: nat, d: Data, events: seq<Event>)
    ensures var st := Stream(auto, batchMax, d, events);
            && StreamRight(auto, d, st.d, events, Answer(st), StoredBy(auto, batchMax, d, events))
            && (Answer(st).Some? ==> Ended(events))
  {
    hide Stream, StoredBy, StreamRight;
    StreamSound(auto, batchMax, d, events);
    var st, stored := Stream(auto, batchMax, d, events), StoredBy(auto, batchMax, d, events);
    assert events[..|events|] == events;
    if st.Running? {
      StreamEnds(auto, d, st.d, st.s, stored, events, |events|);
      EndedMeans(auto, d, st.d, st.s, stored, events);
    }
  }

  lemma EndedMeans(auto: bool, d0: Data, d: Data, s: State, stored: seq<Row>, events: seq<Event>)
    requires Sound(auto, d0, d, s, stored, events)
    ensures s.ended ==> Ended(events)
  {
  }

  /** The rows other writers insert beside the stream. */
  function OtherRows(events: seq<Event>): seq<Row> {
    if events == [] then [] else
    OtherRows(events[..|events| - 1]) + (if events[|events| - 1].Others? then events[|events| - 1].rows else [])
  }

  /** The rows one event inserts. */
  function Inserts(s: State, e: Event): seq<Row> {
    if e.Others? then e.rows
    else if e.StoreNext? && s.batches != [] && !(e.fails && s.batches[0] != []) then s.batches[0]
    else []
  }

  lemma StepInserts(auto: bool, batchMax: nat, d0: Data, d: Data, s: State, stored: seq<Row>, events: seq<Event>,
                    e: Event)
    requires Sound(auto, d0, d, s, stored, events)
    ensures StepOf(auto, batchMax, s, d, e).d == PutAll(auto, d, Inserts(s, e))
    ensures forall r <- Inserts(s, e) :: r in Received(events) || (e.Others? && r in e.rows)
  {
    EmptyInsert(auto, d);
    if s.batches != [] { JoinedFirst(s.batches); }
    hide PutAll, CountAll, Received, Counted, Joined, Ended;
  }

  /** All a stream leaves behind is some inserts of rows it received or others wrote. */
  lemma {:induction false} StreamLog(auto: bool, batchMax: nat, d: Data, events: seq<Event>) returns (log: seq<Row>)
    ensures Stream(auto, batchMax, d, events).d == PutAll(auto, d, log)
    ensures forall r <- log :: r in Received(events) || r in OtherRows(events)
  {
    if events == [] {
      log := [];
      EmptyInsert(auto, d);
    } else {
      var n := |events| - 1;
      var before, e := events[..n], events[n];
      assert events == before + [e];
      log := StreamLog(auto, batchMax, d, before);
      var st := Stream(auto, batchMax, d, before);
      StreamSound(auto, batchMax, d, before);
      Snoc(before, e);
      hide PutAll, Received, StreamRight, Sound, StepOf, Inserts;
      if st.Running? {
        StepInserts(auto, batchMax, d, st.d, st.s, StoredBy(auto, batchMax, d, before), before, e);
        BatchingIrrelevant(auto, d, log, Inserts(st.s, e));
        log := log + Inserts(st.s, e);
      }
    }
  }

  // ----- in place ------------------------------------------------------------------------------------------------

  method Push(s: State) returns (s': State)
    ensures s' == Pushed(s)
  {
    if s.cur == [] { return s; }
    s' := s.(cur := [], batches := s.batches + [s.cur]);
  }

  /** Runs one stream over any schedule of its stages and of other writers. */
  method RunStream(store: Store, batchMax: nat, events: seq<Event>) returns (r: Option<Result>)
    modifies store
    ensures store.data == Stream(store.autoRegister, batchMax, old(store.data), events).d
    ensures r == Answer(Stream(store.autoRegister, batchMax, old(store.data), events))
  {
    hide PutAll, CountAll;
    ghost var auto, d0 := store.autoRegister, store.data;
    var s := Opening;
    for i := 0 to |events|
      invariant Stream(auto, batchMax, d0, events[..i]) == Running(s, store.data)
    {
      assert events[..i + 1][..i] == events[..i];
      var ok;
      ok, s := HandleEvent(store, batchMax, s, events[i]);
      if !ok {
        StaysStopped(auto, batchMax, d0, events, i + 1);
        return None;
      }
    }
    assert events[..|events|] == events;
    if s.ended && s.batches == [] { return Some(s.total); }
    return None;
  }

  method HandleEvent(store: Store, batchMax: nat, s: State, e: Event) returns (ok: bool, s': State)
    modifies store
    ensures StepOf(store.autoRegister, batchMax, s, old(store.data), e)
         == if ok then Running(s', store.data) else Stopped(store.data)
  {
    hide PutAll, CountAll;
    ok, s' := true, s;
    match e
    case Receive(req) =>
      if !s.ended {
        var rows := ExtractRows(req);
        if rows != [] {
          s' := s.(cur := s.cur + rows);
          if |s'.cur| >= batchMax { s' := Push(s'); }
        }
      }
    case Due => s' := Push(s);
    case Eof =>
      s' := Push(s);
      s' := s'.(ended := true);
    case StoreNext(fails) =>
      if s.batches != [] {
        var res := store.Insert(s.batches[0], fails);
        if res == None { return false, s; }
        s' := s.(batches := s.batches[1..], total := Plus(s.total, res.value));
      }
    case Others(rows) => var _ := store.Insert(rows, false);
    case Broken => ok := false;
  }

  lemma {:induction false} StaysStopped(auto: bool, batchMax: nat, d: Data, events: seq<Event>, n: nat)
    requires n <= |events| && Stream(auto, batchMax, d, events[..n]).Stopped?
    ensures Stream(auto, batchMax, d, events) == Stream(auto, batchMax, d, events[..n])
    decreases |events|
  {
    if n < |events| {
      assert events[..|events| - 1][..n] == events[..n];
      StaysStopped(auto, batchMax, d, events[..|events| - 1], n);
    } else {
      assert events[..n] == events;
    }
  }

  // ----- nothing waits for ever ------------------------------------------------------------------------------------

  /** A full batch goes on to the store at once, a due one then: what is still being collected is less than a batch, and
      nothing right after a due time or the end. */
  lemma {:induction false} StreamPrompt(auto: bool, batchMax: nat, d: Data, events: seq<Event>)
    requires batchMax > 0 && Stream(auto, batchMax, d, events).Running?
    ensures var s := Stream(auto, batchMax, d, events).s;
            |s.cur| < batchMax
              && (events != [] && (events[|events| - 1].Due? || events[|events| - 1].Eof?) ==> s.cur == [])
  {
    hide PutAll, CountAll, Extract;
    if events != [] { StreamPrompt(auto, batchMax, d, events[..|events| - 1]); }
  }

  /** The store stage, `n` times without failure. */
  function StoreAll(n: nat): seq<Event> { seq(n, _ => StoreNext(false)) }

  /** Whatever has happened on a stream that still runs: once the client closes its side and what is queued is stored,
      the answer comes. */
  lemma {:induction false} AnswerComes(auto: bool, batchMax: nat, d: Data, events: seq<Event>, n: nat)
    requires Stream(auto, batchMax, d, events).Running? && n <= |Stream(auto, batchMax, d, events + [Eof]).s.batches|
    ensures var st := Stream(auto, batchMax, d, events + [Eof]);
            var st' := Stream(auto, batchMax, d, events + [Eof] + StoreAll(n));
            && st'.Running? && st'.s.ended && st'.s.batches == st.s.batches[n..]
            && (n == |st.s.batches| ==> Answer(st').Some?)
  {
    hide PutAll, CountAll;
    assert (events + [Eof])[..|events|] == events;
    var st := Stream(auto, batchMax, d, events + [Eof]);
    var all := events + [Eof] + StoreAll(n);
    if n == 0 {
      assert all == events + [Eof];
    } else {
      AnswerComes(auto, batchMax, d, events, n - 1);
      assert all[..|all| - 1] == events + [Eof] + StoreAll(n - 1);
      assert all[|all| - 1] == StoreNext(false);
      assert st.s.batches[n - 1..][1..] == st.s.batches[n..];
    }
  }
}
