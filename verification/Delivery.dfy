/** The whole path from broker to table, over crashes, retries and redeliveries: the handler, the batcher, the client,
    the ingest stream and the store (internal/bridge/run.go, internal/bridge/batcher.go, internal/bridge/client.go,
    internal/ingest/server.go, internal/store/bulk.go). */
module Delivery {
  import opened Common
  import opened BulkStore
  import opened IngestStream
  import opened BridgeClient
  import Batcher

  /** A published message, as the decoder and the server's validation will see it. */
  datatype Body = Dropped | Decoded(msg: Msg)

  datatype Mail = Mail(id: int, body: Body)

  datatype Config = Config(auto: bool, maxItems: nat, chunk: nat, batchMax: nat)

  predicate ValidConfig(c: Config) { c.maxItems > 0 && c.chunk > 0 }

  /** The broker's view (`published`, `unacked`, `acked`), one process life (`b`, and `arrived`, all it took in), the
      acknowledgements on their way to the broker, and the stored data. */
  datatype World = World(published: set<Mail>, unacked: set<Mail>, acked: set<Mail>,
                         b: Batcher.State<Mail>, arrived: seq<Mail>, leaving: seq<Mail>, data: Data)

  /** `Work` is a step of the batcher, with the attempts its flush makes if it flushes; `Elsewhere` is what other
      bridges store; `Acknowledge` and `AckLost` are the fate of an acknowledgement; `Crash` starts a new life. */
  datatype Step =
    | Publish(m: Mail)
    | Deliver(m: Mail)
    | Work(e: Batcher.Event<Mail>, attempts: seq<Attempt>)
    | Elsewhere(rows: seq<Row>)
    | Acknowledge
    | AckLost
    | Crash

  function Messages(mail: seq<Mail>): seq<Msg> {
    if mail == [] then [] else
    Messages(mail[..|mail| - 1]) +
    (match mail[|mail| - 1].body case Decoded(msg) => [msg] case Dropped => [])
  }

  /** Some published message brings this row. */
  ghost predicate Brings(published: set<Mail>, r: Row) { exists m <- published :: m.body == Decoded(Good(r)) }

  ghost predicate AllBrought(published: set<Mail>, rows: seq<Row>) { forall r <- rows :: Brings(published, r) }

  /** The requests that flushing a batch makes. */
  function Requested(c: Config, batch: seq<Mail>): seq<seq<Msg>>
    requires ValidConfig(c)
  {
    Chunks(Messages(batch), c.chunk)
  }

  /** What the flush of a batch leaves behind, and whether it succeeded. */
  function Flushed(c: Config, d: Data, batch: seq<Mail>, attempts: seq<Attempt>): Sent
    requires ValidConfig(c)
  {
    Submission(c.auto, c.batchMax, d, Requested(c, batch), attempts)
  }

  /** What the sender may count on for a message. */
  predicate Handled(auto: bool, d: Data, m: Mail) {
    m.body.Decoded? && m.body.msg.Good? ==> Landed(auto, d, m.body.msg.row)
  }

  ghost predicate Enabled(c: Config, s: World, e: Step)
    requires ValidConfig(c)
  {
    match e
    case Publish(m) => m !in s.published
    case Deliver(m) => m in s.unacked
    case Work(x, attempts) =>
      var reqs := Requested(c, Batcher.ToFlush(s.b, x, c.maxItems));
      !x.Add? && AllCarry(reqs, attempts) && Reliable(reqs, attempts) && AllBrought(s.published, Beside(attempts))
    case Elsewhere(rows) => AllBrought(s.published, rows)
    case Acknowledge => s.leaving != []
    case AckLost => s.leaving != []
    case Crash => true
  }

  function Apply(c: Config, s: World, e: Step): World
    requires ValidConfig(c) && ((e.Acknowledge? || e.AckLost?) ==> s.leaving != [])
  {
    match e
    case Publish(m) => s.(published := s.published + {m}, unacked := s.unacked + {m})
    case Deliver(m) =>
      if m.body.Dropped? then s.(leaving := s.leaving + [m])
      else s.(b := Batcher.Next(s.b, Batcher.Add(m), c.maxItems, true), arrived := s.arrived + [m])
    case Work(x, attempts) =>
      var batch := Batcher.ToFlush(s.b, x, c.maxItems);
      if batch == [] then s.(b := Batcher.Next(s.b, x, c.maxItems, true))
      else
        var f := Flushed(c, s.data, batch, attempts);
        s.(b := Batcher.Next(s.b, x, c.maxItems, f.ok), data := f.d,
           leaving := if f.ok then s.leaving + batch else s.leaving)
    case Elsewhere(rows) => s.(data := PutAll(c.auto, s.data, rows))
    case Acknowledge =>
      s.(leaving := s.leaving[1..], unacked := s.unacked - {s.leaving[0]}, acked := s.acked + {s.leaving[0]})
    case AckLost => s.(leaving := s.leaving[1..])
    case Crash => s.(b := Batcher.Fresh(), arrived := [], leaving := [])
  }

  // ----- what every step keeps -------------------------------------------------------------------------------------

  /** No message is lost: it is acknowledged or the broker still has it. */
  ghost predicate NoneLost(s: World) {
    && s.published == s.unacked + s.acked
    && (forall m <- s.arrived :: m in s.published) && (forall m <- s.leaving :: m in s.published)
  }

  /** Acknowledged messages, and those whose acknowledgement is on its way, were stored, refused or dropped. */
  ghost predicate AckedHandled(auto: bool, s: World) {
    (forall m <- s.acked :: Handled(auto, s.data, m)) && (forall m <- s.leaving :: Handled(auto, s.data, m))
  }

  /** Every stored value was published under its key. */
  ghost predicate StoredPublished(s: World) {
    forall k <- s.data.rows :: Brings(s.published, Row(k, s.data.rows[k]))
  }

  /** One life hands on batches that join to a prefix of what it took in. */
  ghost predicate InOrder(c: Config, s: World) { Batcher.Kept(s.b, c.maxItems, s.arrived) }

  ghost predicate Inv(c: Config, s: World) {
    NoneLost(s) && AckedHandled(c.auto, s) && StoredPublished(s) && InOrder(c, s)
  }

  // ----- storing ---------------------------------------------------------------------------------------------------

  lemma HandledStays(auto: bool, d: Data, rows: seq<Row>, m: Mail)
    requires Handled(auto, d, m)
    ensures Handled(auto, PutAll(auto, d, rows), m)
  {
    if m.body.Decoded? && m.body.msg.Good? { LandedStays(auto, d, rows, m.body.msg.row); }
  }

  /** Inserting rows that were published leaves only published values. */
  lemma InsertBrought(auto: bool, d: Data, published: set<Mail>, rows: seq<Row>, k: Key)
    requires AllBrought(published, rows) && k in PutAll(auto, d, rows).rows
    requires k in d.rows ==> Brings(published, Row(k, d.rows[k]))
    ensures Brings(published, Row(k, PutAll(auto, d, rows).rows[k]))
  {
    if k in d.rows {
      StoredStays(auto, d, rows, k);
    } else {
      FirstWins(auto, d, rows, k);
      hide PutAll, Brings;
      var i :| 0 <= i < |rows| && rows[i] == Row(k, PutAll(auto, d, rows).rows[k]);
      assert rows[i] in rows;
    }
  }

  lemma InsertKeeps(c: Config, s: World, rows: seq<Row>)
    requires Inv(c, s) && AllBrought(s.published, rows)
    ensures Inv(c, s.(data := PutAll(c.auto, s.data, rows)))
  {
    hide PutAll, Handled, AllBrought, Brings, Batcher.Kept;
    var s' := s.(data := PutAll(c.auto, s.data, rows));
    forall m <- s.acked ensures Handled(c.auto, s'.data, m) { HandledStays(c.auto, s.data, rows, m); }
    forall m <- s.leaving ensures Handled(c.auto, s'.data, m) { HandledStays(c.auto, s.data, rows, m); }
    forall k <- s'.data.rows ensures Brings(s.published, Row(k, s'.data.rows[k])) {
      InsertBrought(c.auto, s.data, s.published, rows, k);
    }
  }

  // ----- flushing --------------------------------------------------------------------------------------------------

  ghost predicate Carries(mail: seq<Mail>, r: Row) { exists i :: 0 <= i < |mail| && mail[i].body == Decoded(Good(r)) }

  lemma CarriesLast(mail: seq<Mail>, r: Row)
    requires mail != []
    ensures Carries(mail, r) <==> Carries(mail[..|mail| - 1], r) || mail[|mail| - 1].body == Decoded(Good(r))
  {
    var n := |mail| - 1;
    if i :| 0 <= i < n && mail[..n][i].body == Decoded(Good(r)) { assert mail[i] == mail[..n][i]; }
    if i :| 0 <= i < |mail| && mail[i].body == Decoded(Good(r)) && i < n { assert mail[..n][i] == mail[i]; }
  }

  lemma {:induction false} MessageOf(mail: seq<Mail>, r: Row)
    ensures r in Extract(Messages(mail)) <==> Carries(mail, r)
  {
    if mail != [] {
      hide Extract, Carries;
      var n := |mail| - 1;
      var last := match mail[n].body case Decoded(msg) => [msg] case Dropped => [];
      MessageOf(mail[..n], r);
      CarriesLast(mail, r);
      ExtractJoin(Messages(mail[..n]), last);
      ExtractFew(last, r);
    }
  }

  lemma ExtractFew(msgs: seq<Msg>, r: Row)
    requires |msgs| <= 1
    ensures r in Extract(msgs) <==> msgs != [] && msgs[0] == Good(r)
  {
    if msgs != [] { assert msgs[..0] == []; }
  }

  /** A flush that succeeded has handled every message of its batch. */
  lemma FlushHandles(c: Config, d: Data, batch: seq<Mail>, attempts: seq<Attempt>, m: Mail)
    requires ValidConfig(c) && m in batch
    requires AllCarry(Requested(c, batch), attempts) && Reliable(Requested(c, batch), attempts)
    requires Flushed(c, d, batch, attempts).ok
    ensures Handled(c.auto, Flushed(c, d, batch, attempts).d, m)
  {
    var reqs := Requested(c, batch);
    SubmissionLands(c.auto, c.batchMax, d, reqs, attempts);
    ChunksJoin(Messages(batch), c.chunk);
    assert reqs[..|reqs|] == reqs;
    hide Submission, Chunks, Extract, Messages, Joined, Landed;
    if m.body.Decoded? && m.body.msg.Good? {
      var i :| 0 <= i < |batch| && batch[i] == m;
      MessageOf(batch, m.body.msg.row);
    }
  }

  /** What a flush stores was published. */
  lemma FlushLog(c: Config, s: World, batch: seq<Mail>, attempts: seq<Attempt>) returns (log: seq<Row>)
    requires ValidConfig(c) && AllCarry(Requested(c, batch), attempts) && AllBrought(s.published, Beside(attempts))
    requires forall m <- batch :: m in s.published
    ensures Flushed(c, s.data, batch, attempts).d == PutAll(c.auto, s.data, log) && AllBrought(s.published, log)
  {
    log := SubmissionLog(c.auto, c.batchMax, s.data, Requested(c, batch), attempts);
    ChunksJoin(Messages(batch), c.chunk);
    hide Submission, Chunks, Extract, Messages, Joined, PutAll, Beside;
    forall r <- log ensures Brings(s.published, r) {
      if r !in Beside(attempts) {
        MessageOf(batch, r);
        var i :| 0 <= i < |batch| && batch[i].body == Decoded(Good(r));
        assert batch[i] in batch;
      }
    }
  }

  /** A batch comes from what arrived. */
  lemma BatchArrived(c: Config, s: World, x: Batcher.Event<Mail>)
    requires Inv(c, s)
    ensures forall m <- Batcher.ToFlush(s.b, x, c.maxItems) :: m in s.arrived
  {
    hide Joined;
    var done := Joined(s.b.submitted);
    assert forall m :: m in s.b.cur || m in s.b.queue ==> m in done + s.b.cur + s.b.queue;
    if s.b.queue != [] { assert s.b.queue[0] in s.b.queue; }
  }

  lemma WorkKeeps(c: Config, s: World, x: Batcher.Event<Mail>, attempts: seq<Attempt>)
    requires ValidConfig(c) && Inv(c, s) && Enabled(c, s, Work(x, attempts))
    ensures Inv(c, Apply(c, s, Work(x, attempts)))
  {
    var batch := Batcher.ToFlush(s.b, x, c.maxItems);
    BatchArrived(c, s, x);
    hide Batcher.ToFlush, Batcher.Next, Batcher.Kept, Flushed, Requested, Inv;
    assert Batcher.Arrives(s.arrived, x) == s.arrived;
    if batch == [] {
      KeptBatcher(c, s, x, true);
      Relay(c, s, Batcher.Next(s.b, x, c.maxItems, true), []);
      assert s.leaving + [] == s.leaving;
    } else {
      var f := Flushed(c, s.data, batch, attempts);
      FlushKeeps(c, s, batch, attempts);
      KeptBatcher(c, s, x, f.ok);
      if f.ok {
        forall m <- batch ensures Handled(c.auto, f.d, m) { FlushHandles(c, s.data, batch, attempts, m); }
        Relay(c, s.(data := f.d), Batcher.Next(s.b, x, c.maxItems, true), batch);
      } else {
        Relay(c, s.(data := f.d), Batcher.Next(s.b, x, c.maxItems, false), []);
        assert s.leaving + [] == s.leaving;
      }
    }
  }

  lemma KeptBatcher(c: Config, s: World, x: Batcher.Event<Mail>, flushes: bool)
    requires ValidConfig(c) && Inv(c, s) && !x.Add?
    ensures Batcher.Kept(Batcher.Next(s.b, x, c.maxItems, flushes), c.maxItems, s.arrived)
  {
    Batcher.NextKeeps(s.b, x, c.maxItems, flushes, s.arrived);
  }

  lemma FlushKeeps(c: Config, s: World, batch: seq<Mail>, attempts: seq<Attempt>)
    requires ValidConfig(c) && Inv(c, s) && forall m <- batch :: m in s.arrived
    requires AllCarry(Requested(c, batch), attempts) && AllBrought(s.published, Beside(attempts))
    ensures Inv(c, s.(data := Flushed(c, s.data, batch, attempts).d))
  {
    assert forall m <- batch :: m in s.published;
    hide Flushed, Requested, Inv;
    var log := FlushLog(c, s, batch, attempts);
    InsertKeeps(c, s, log);
  }

  /** The batcher moves on, and handled messages of this life are acknowledged. */
  lemma Relay(c: Config, s: World, b: Batcher.State<Mail>, batch: seq<Mail>)
    requires Inv(c, s) && Batcher.Kept(b, c.maxItems, s.arrived)
    requires forall m <- batch :: m in s.arrived && Handled(c.auto, s.data, m)
    ensures Inv(c, s.(b := b, leaving := s.leaving + batch))
  {
    hide Batcher.Kept, Handled, Brings;
  }

  lemma PublishKeeps(c: Config, s: World, m: Mail)
    requires ValidConfig(c) && Inv(c, s)
    ensures Inv(c, Apply(c, s, Publish(m)))
  {
    hide Batcher.Kept, Handled;
    forall k <- s.data.rows ensures Brings(s.published + {m}, Row(k, s.data.rows[k])) {
      BroughtStays(s.published, m, Row(k, s.data.rows[k]));
    }
  }

  lemma BroughtStays(published: set<Mail>, m: Mail, r: Row)
    requires Brings(published, r)
    ensures Brings(published + {m}, r)
  {
  }

  lemma DeliverKeeps(c: Config, s: World, m: Mail)
    requires ValidConfig(c) && Inv(c, s) && m in s.unacked
    ensures Inv(c, Apply(c, s, Deliver(m)))
  {
    hide Batcher.Next, Batcher.Kept, Brings, Landed;
    Batcher.NextKeeps(s.b, Batcher.Add(m), c.maxItems, true, s.arrived);
  }

  /** The fate of an acknowledgement, or the end of a life. */
  lemma AnswerKeeps(c: Config, s: World, e: Step)
    requires ValidConfig(c) && Inv(c, s) && (e.Acknowledge? || e.AckLost? || e.Crash?) && Enabled(c, s, e)
    ensures Inv(c, Apply(c, s, e))
  {
    hide Batcher.Next, Batcher.Kept, Brings, Handled;
    Batcher.FreshKept<Mail>(c.maxItems);
  }

  lemma StepKeeps(c: Config, s: World, e: Step)
    requires ValidConfig(c) && Inv(c, s) && Enabled(c, s, e)
    ensures Inv(c, Apply(c, s, e))
  {
    if e.Work? {
      WorkKeeps(c, s, e.e, e.attempts);
    } else if e.Elsewhere? {
      InsertKeeps(c, s, e.rows);
    } else if e.Publish? {
      PublishKeeps(c, s, e.m);
    } else if e.Deliver? {
      DeliverKeeps(c, s, e.m);
    } else {
      AnswerKeeps(c, s, e);
    }
  }

  // ----- runs ------------------------------------------------------------------------------------------------------

  predicate Initial(s: World) {
    && s.published == {} && s.unacked == {} && s.acked == {} && s.b == Batcher.Fresh() && s.arrived == []
    && s.leaving == [] && s.data.rows == map[]
  }

  ghost predicate Run(c: Config, states: seq<World>, steps: seq<Step>)
    requires ValidConfig(c)
  {
    && |states| == |steps| + 1 && Initial(states[0])
    && (forall i :: 0 <= i < |steps| ==>
          Enabled(c, states[i], steps[i]) && states[i + 1] == Apply(c, states[i], steps[i]))
  }

  /** Over every run with crashes, lost answers, lost acknowledgements and redeliveries: an acknowledged message was
      stored, refused or dropped; none is lost; stored values were published; each life hands on batches that join to
      a prefix of its arrivals. */
  lemma {:induction false} RunSafe(c: Config, states: seq<World>, steps: seq<Step>)
    requires ValidConfig(c) && Run(c, states, steps)
    ensures Inv(c, states[|steps|])
  {
    hide Enabled, Apply, Inv;
    if steps == [] {
      StartSafe(c, states[0]);
    } else {
      var n := |steps| - 1;
      RunSafe(c, states[..n + 1], steps[..n]);
      StepKeeps(c, states[n], steps[n]);
    }
  }

  lemma StartSafe(c: Config, s: World)
    requires ValidConfig(c) && Initial(s)
    ensures Inv(c, s)
  {
    Batcher.FreshKept<Mail>(c.maxItems);
  }

  /** A stored row is never overwritten in the rest of a run. */
  lemma {:induction false} RunKeepsRows(c: Config, states: seq<World>, steps: seq<Step>, i: nat, k: Key)
    requires ValidConfig(c) && Run(c, states, steps) && i <= |steps| && k in states[i].data.rows
    ensures k in states[|steps|].data.rows && states[|steps|].data.rows[k] == states[i].data.rows[k]
    decreases |steps|
  {
    if i < |steps| {
      var n := |steps| - 1;
      RunKeepsRows(c, states[..n + 1], steps[..n], i, k);
      StepKeepsRow(c, states[n], steps[n], k);
    }
  }

  lemma StepKeepsRow(c: Config, s: World, e: Step, k: Key)
    requires ValidConfig(c) && Enabled(c, s, e) && k in s.data.rows
    ensures k in Apply(c, s, e).data.rows && Apply(c, s, e).data.rows[k] == s.data.rows[k]
  {
    if e.Elsewhere? {
      StoredStays(c.auto, s.data, e.rows, k);
    } else if e.Work? {
      var batch := Batcher.ToFlush(s.b, e.e, c.maxItems);
      hide Batcher.ToFlush, Batcher.Next, Submission;
      var log := SubmissionLog(c.auto, c.batchMax, s.data, Requested(c, batch), e.attempts);
      StoredStays(c.auto, s.data, log, k);
    }
  }
}
