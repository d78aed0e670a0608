/** Delivery gets on: from every state an unacknowledged message can still be acknowledged (internal/bridge/run.go,
    internal/bridge/batcher.go, internal/bridge/client.go, internal/ingest/server.go). */
module DeliveryProgress {
  import opened Common
  import opened BulkStore
  import opened IngestStream
  import opened BridgeClient
  import opened Delivery
  import Batcher

  // ----- a server that is up -----------------------------------------------------------------------------------------

  function Receives(reqs: seq<seq<Msg>>): seq<Event> { seq(|reqs|, i requires 0 <= i < |reqs| => Receive(reqs[i])) }

  lemma {:induction false} ReceivesAll(auto: bool, batchMax: nat, d: Data, reqs: seq<seq<Msg>>)
    ensures var es := Receives(reqs);
            Stream(auto, batchMax, d, es).Running? && !Ended(es) && Requests(es) == reqs && OtherRows(es) == []
  {
    if reqs != [] {
      var n := |reqs| - 1;
      ReceivesAll(auto, batchMax, d, reqs[..n]);
      assert Receives(reqs)[..n] == Receives(reqs[..n]);
      hide Collected;
    }
  }

  lemma {:induction false} StoresQuietly(es: seq<Event>, n: nat)
    requires Ended(es)
    ensures var all := es + StoreAll(n); Ended(all) && Requests(all) == Requests(es) && OtherRows(all) == OtherRows(es)
  {
    var all := es + StoreAll(n);
    if n == 0 {
      assert all == es;
    } else {
      StoresQuietly(es, n - 1);
      assert all[..|all| - 1] == es + StoreAll(n - 1) && all[|all| - 1] == StoreNext(false);
    }
  }

  /** Whatever is stored and whatever is sent, a stream that goes well answers. */
  lemma GoodAttempt(auto: bool, batchMax: nat, d: Data, reqs: seq<seq<Msg>>) returns (a: Attempt)
    ensures BridgeClient.Carries(reqs, a) && FailedSendEnds(reqs, a) && Tried(auto, batchMax, d, a).ok
            && OtherRows(a.events) == []
  {
    var es := Receives(reqs);
    ReceivesAll(auto, batchMax, d, reqs);
    var closed := es + [Eof];
    assert closed[..|es|] == es;
    hide Stream;
    var n := |Closing(auto, batchMax, d, es)|;
    StoresQuietly(closed, n);
    AnswerComes(auto, batchMax, d, es, n);
    a := Attempt(|reqs|, closed + StoreAll(n), true, true);
    assert reqs[..|reqs|] == reqs;
  }

  /** What is queued when the client closes its side. */
  function Closing(auto: bool, batchMax: nat, d: Data, es: seq<Event>): seq<seq<Row>>
    requires Stream(auto, batchMax, d, es).Running?
  {
    ClosingRuns(auto, batchMax, d, es);
    Stream(auto, batchMax, d, es + [Eof]).s.batches
  }

  lemma ClosingRuns(auto: bool, batchMax: nat, d: Data, es: seq<Event>)
    requires Stream(auto, batchMax, d, es).Running?
    ensures Stream(auto, batchMax, d, es + [Eof]).Running?
  {
    assert (es + [Eof])[..|es|] == es;
  }

  // ----- one message -------------------------------------------------------------------------------------------------

  /** Steps that can be taken one after another. */
  ghost predicate Walk(c: Config, states: seq<World>, steps: seq<Step>)
    requires ValidConfig(c)
  {
    && |states| == |steps| + 1
    && forall i :: 0 <= i < |steps| ==>
         Enabled(c, states[i], steps[i]) && states[i + 1] == Apply(c, states[i], steps[i])
  }

  lemma WalkOn(c: Config, states: seq<World>, steps: seq<Step>, e: Step)
    requires ValidConfig(c) && Walk(c, states, steps) && Enabled(c, states[|steps|], e)
    ensures Walk(c, states + [Apply(c, states[|steps|], e)], steps + [e])
  {
    hide Enabled, Apply;
  }

  /** Flushing a batch of one with a server that is up. */
  lemma FlushOne(c: Config, s: World, x: Batcher.Event<Mail>, m: Mail) returns (e: Step)
    requires ValidConfig(c) && !x.Add? && Batcher.ToFlush(s.b, x, c.maxItems) == [m] && s.leaving == []
    ensures e.Work? && e.e == x && Enabled(c, s, e)
    ensures Apply(c, s, e).leaving == [m] && Apply(c, s, e).unacked == s.unacked
  {
    var reqs := Requested(c, [m]);
    var a := GoodAttempt(c.auto, c.batchMax, s.data, reqs);
    e := Work(x, [a]);
    hide BridgeClient.Carries, FailedSendEnds, Tried, Requested, Batcher.ToFlush, Batcher.Next;
    assert [a][0] == a;
    assert Beside([a]) == [] by { NoneBeside(a); }
  }

  lemma NoneBeside(a: Attempt)
    requires OtherRows(a.events) == []
    ensures Beside([a]) == []
  {
    assert [a][1..] == [];
  }

  /** A step of the batcher that flushes nothing. */
  lemma Idle(c: Config, s: World, x: Batcher.Event<Mail>)
    requires ValidConfig(c) && !x.Add? && Batcher.ToFlush(s.b, x, c.maxItems) == []
    ensures Enabled(c, s, Work(x, []))
    ensures Apply(c, s, Work(x, [])) == s.(b := Batcher.Next(s.b, x, c.maxItems, true))
  {
    hide Requested, Batcher.ToFlush, Batcher.Next;
    assert Beside([]) == [];
  }

  /** The batcher's two steps that take a lone message from its queue and flush it. */
  lemma TakeAndFlush(c: Config, s: World, m: Mail) returns (e: Step, e': Step)
    requires ValidConfig(c) && s.b == Batcher.Fresh().(queue := [m]) && s.leaving == []
    ensures Enabled(c, s, e) && Enabled(c, Apply(c, s, e), e')
    ensures var t := Apply(c, Apply(c, s, e), e'); t.leaving == [m] && t.unacked == s.unacked
  {
    hide Enabled, Apply;
    if c.maxItems == 1 {
      assert [] + [m] == [m];
      e := FlushOne(c, s, Batcher.Take, m);
      e' := Work(Batcher.Due, []);
      AfterFull(c, s, e, m);
      Idle(c, Apply(c, s, e), Batcher.Due);
    } else {
      e := Work(Batcher.Take, []);
      Idle(c, s, Batcher.Take);
      assert [] + [m] == [m];
      e' := FlushOne(c, Apply(c, s, e), Batcher.Due, m);
    }
  }

  lemma AfterFull(c: Config, s: World, e: Step, m: Mail)
    requires ValidConfig(c) && s.b == Batcher.Fresh().(queue := [m]) && c.maxItems == 1 && e.Work?
             && e.e == Batcher.Take
    requires Enabled(c, s, e)
    ensures Batcher.ToFlush(Apply(c, s, e).b, Batcher.Due, c.maxItems) == []
  {
    hide Flushed, Requested, AllCarry, Reliable;
  }

  /** Whatever has happened, any message the broker still has can be acknowledged: a new process life that takes it in
      and finds the server up will do it. */
  lemma NeverStuck(c: Config, s: World, m: Mail) returns (states: seq<World>, steps: seq<Step>)
    requires ValidConfig(c) && m in s.unacked
    ensures Walk(c, states, steps) && states[0] == s && m in states[|steps|].acked
  {
    states, steps := [s], [];
    var s1 := Apply(c, s, Crash);
    WalkOn(c, states, steps, Crash);
    var s2 := Apply(c, s1, Deliver(m));
    WalkOn(c, [s, s1], [Crash], Deliver(m));
    assert [s, s1] + [s2] == [s, s1, s2] && [Crash] + [Deliver(m)] == [Crash, Deliver(m)];
    if m.body.Dropped? {
      assert s2.leaving == [m];
      states, steps := Confirmed(c, [s, s1, s2], [Crash, Deliver(m)], m);
    } else {
      assert s2.b == Batcher.Fresh().(queue := [m]);
      var e, e' := TakeAndFlush(c, s2, m);
      var s3 := Apply(c, s2, e);
      var s4 := Apply(c, s3, e');
      hide Enabled, Apply;
      WalkOn(c, [s, s1, s2], [Crash, Deliver(m)], e);
      WalkOn(c, [s, s1, s2] + [s3], [Crash, Deliver(m)] + [e], e');
      states, steps := Confirmed(c, [s, s1, s2] + [s3] + [s4], [Crash, Deliver(m)] + [e] + [e'], m);
    }
  }

  lemma Confirmed(c: Config, states: seq<World>, steps: seq<Step>, m: Mail)
      returns (states': seq<World>, steps': seq<Step>)
    requires ValidConfig(c) && Walk(c, states, steps) && states[|steps|].leaving == [m] && m in states[|steps|].unacked
    ensures Walk(c, states', steps') && states' != [] && states'[0] == states[0] && m in states'[|steps'|].acked
  {
    var t := Apply(c, states[|steps|], Acknowledge);
    states', steps' := states + [t], steps + [Acknowledge];
    WalkOn(c, states, steps, Acknowledge);
  }
}
