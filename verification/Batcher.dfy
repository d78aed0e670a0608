/** Batches in arrival order, acknowledged only after they were flushed (internal/bridge/batcher.go). */
module Batcher {
  import opened Common

  /** What may happen to a batcher: a message is queued, one is taken, the oldest is due, the process is told to
      stop, or the next piece of what was left is flushed. */
  datatype Event<T> = Add(e: T) | Take | Due | Cancel | Piece

  /** `submitted` are the batches handed to flush, `acked` the messages acknowledged after it. */
  datatype State<T> = State(queue: seq<T>, cur: seq<T>, submitted: seq<seq<T>>, acked: seq<T>, draining: bool,
                            failed: bool)

  function Fresh<T>(): State<T> { State([], [], [], [], false, false) }

  // ----- one event -----------------------------------------------------------------------------------------------

  /** The batch an event hands to flush; none if it is empty. */
  function ToFlush<T>(s: State<T>, e: Event<T>, maxItems: nat): seq<T> {
    if s.failed then []
    else
      match e
      case Add(_) => []
      case Cancel => []
      case Take => if s.draining || s.queue == [] || |s.cur| + 1 < maxItems then [] else s.cur + [s.queue[0]]
      case Due => if s.draining then [] else s.cur
      case Piece => if !s.draining then [] else s.cur[..Min(|s.cur|, maxItems)]
  }

  /** The queue and the batch being collected after an event, less what it flushes. */
  function Moved<T>(s: State<T>, e: Event<T>, maxItems: nat): State<T> {
    if e.Add? then s.(queue := s.queue + [e.e])
    else if s.failed then s
    else
      match e
      case Cancel => s.(cur := s.cur + s.queue, queue := [], draining := true)
      case Take =>
        if s.draining || s.queue == [] then s
        else if |s.cur| + 1 < maxItems then s.(cur := s.cur + [s.queue[0]], queue := s.queue[1..])
        else s.(cur := [], queue := s.queue[1..])
      case Due => if s.draining then s else s.(cur := [])
      case Piece => if !s.draining then s else s.(cur := s.cur[Min(|s.cur|, maxItems)..])
  }

  /** A flushed batch is acknowledged; a failed flush ends the batcher. */
  function Next<T>(s: State<T>, e: Event<T>, maxItems: nat, flushes: bool): State<T> {
    var b, m := ToFlush(s, e, maxItems), Moved(s, e, maxItems);
    if b == [] then m
    else if flushes then m.(submitted := m.submitted + [b], acked := m.acked + b)
    else m.(submitted := m.submitted + [b], failed := true)
  }

  // ----- what every event keeps ----------------------------------------------------------------------------------

  /** Nothing that arrived is lost, doubled or reordered; batches have one to `maxItems` messages; exactly the
      batches whose flush succeeded are acknowledged. */
  ghost predicate Kept<T>(s: State<T>, maxItems: nat, arrived: seq<T>) {
    && Joined(s.submitted) + s.cur + s.queue == arrived
    && (forall i :: 0 <= i < |s.submitted| ==> 0 < |s.submitted[i]| <= maxItems)
    && (s.draining || |s.cur| < maxItems) && (s.failed ==> s.submitted != [])
    && s.acked == Joined(if s.failed then s.submitted[..|s.submitted| - 1] else s.submitted)
  }

  function Arrives<T>(arrived: seq<T>, e: Event<T>): seq<T> { if e.Add? then arrived + [e.e] else arrived }

  /** The batch, then what is left, is what there was. */
  lemma MovedJoins<T>(s: State<T>, e: Event<T>, maxItems: nat)
    ensures var m := Moved(s, e, maxItems);
            ToFlush(s, e, maxItems) + m.cur + m.queue == Arrives(s.cur + s.queue, e)
  {
    match e
    case Add(x) => assert s.cur + (s.queue + [x]) == s.cur + s.queue + [x];
    case Take => if s.queue != [] { assert s.queue == [s.queue[0]] + s.queue[1..]; }
    case Piece => assert s.cur == s.cur[..Min(|s.cur|, maxItems)] + s.cur[Min(|s.cur|, maxItems)..];
    case _ =>
  }

  lemma MovedFlags<T>(s: State<T>, e: Event<T>, maxItems: nat)
    requires maxItems > 0 && (s.draining || |s.cur| < maxItems)
    ensures var b, m := ToFlush(s, e, maxItems), Moved(s, e, maxItems);
            && |b| <= maxItems && (m.draining || |m.cur| < maxItems) && (s.failed ==> b == [])
            && m.submitted == s.submitted && m.acked == s.acked && m.failed == s.failed
  {
  }

  lemma StillJoins<T>(done: seq<T>, cur: seq<T>, queue: seq<T>, e: Event<T>, b: seq<T>, cur': seq<T>, queue': seq<T>)
    requires b + cur' + queue' == Arrives(cur + queue, e)
    ensures done + b + cur' + queue' == Arrives(done + cur + queue, e)
  {
    assert done + b + cur' + queue' == done + (b + cur' + queue');
    assert done + (cur + queue) == done + cur + queue;
    if e.Add? { assert done + (cur + queue + [e.e]) == done + cur + queue + [e.e]; }
  }

  lemma NextKeeps<T>(s: State<T>, e: Event<T>, maxItems: nat, flushes: bool, arrived: seq<T>)
    requires Kept(s, maxItems, arrived) && maxItems > 0
    ensures Kept(Next(s, e, maxItems, flushes), maxItems, Arrives(arrived, e))
  {
    hide Joined, ToFlush, Moved, Arrives;
    var b, m, done := ToFlush(s, e, maxItems), Moved(s, e, maxItems), Joined(s.submitted);
    MovedJoins(s, e, maxItems);
    MovedFlags(s, e, maxItems);
    StillJoins(done, s.cur, s.queue, e, b, m.cur, m.queue);
    if b == [] {
      assert done + b == done;
    } else {
      JoinedSnoc(s.submitted, b);
      assert (s.submitted + [b])[..|s.submitted|] == s.submitted;
    }
  }

  // ----- whole lives ---------------------------------------------------------------------------------------------

  /** The state after any events, each with the outcome of its flush. */
  function After<T>(es: seq<Event<T>>, flushes: seq<bool>, maxItems: nat): State<T>
    requires |flushes| == |es|
  {
    if es == [] then Fresh() else
    var n := |es| - 1;
    Next(After(es[..n], flushes[..n], maxItems), es[n], maxItems, flushes[n])
  }

  function Arrived<T>(es: seq<Event<T>>): seq<T> {
    if es == [] then [] else Arrives(Arrived(es[..|es| - 1]), es[|es| - 1])
  }

  /** In every life of a batcher the batches it handed on are a prefix of the arrivals, in order. */
  lemma {:induction false} LifeKeeps<T>(es: seq<Event<T>>, flushes: seq<bool>, maxItems: nat)
    requires |flushes| == |es| && maxItems > 0
    ensures Kept(After(es, flushes, maxItems), maxItems, Arrived(es))
  {
    hide Next, Arrives;
    if es == [] {
      FreshKept<T>(maxItems);
    } else {
      hide Kept;
      var n := |es| - 1;
      LifeKeeps(es[..n], flushes[..n], maxItems);
      NextKeeps(After(es[..n], flushes[..n], maxItems), es[n], maxItems, flushes[n], Arrived(es[..n]));
    }
  }

  lemma FreshKept<T>(maxItems: nat)
    requires maxItems > 0
    ensures Kept<T>(Fresh(), maxItems, [])
  {
  }

  // ----- in place ------------------------------------------------------------------------------------------------

  class Batcher<T(==)> {
    const maxItems: nat
    var queue: seq<T>
    var cur: seq<T>
    var submitted: seq<seq<T>>
    var acked: seq<T>
    var draining: bool
    var failed: bool

    constructor (maxItems: nat)
      requires maxItems > 0
      ensures this.maxItems == maxItems && Contents() == Fresh()
    {
      this.maxItems := maxItems;
      queue, cur, submitted, acked, draining, failed := [], [], [], [], false, false;
    }

    function Contents(): State<T>
      reads this
    {
      State(queue, cur, submitted, acked, draining, failed)
    }

    /** Flushes a batch, and acknowledges it message by message if that succeeded. */
    method Submit(batch: seq<T>, flushes: bool)
      modifies this`submitted, this`acked, this`failed
      ensures submitted == old(submitted) + [batch] && failed == (old(failed) || !flushes)
      ensures acked == if flushes then old(acked) + batch else old(acked)
    {
      submitted := submitted + [batch];
      if !flushes {
        failed := true;
        return;
      }
      for i := 0 to |batch|
        invariant acked == old(acked) + batch[..i] && submitted == old(submitted) + [batch] && failed == old(failed)
      {
        assert batch[..i + 1] == batch[..i] + [batch[i]];
        acked := acked + [batch[i]];
      }
      assert batch[..|batch|] == batch;
    }

    /** Queues a message. */
    method Enqueue(x: T)
      modifies this`queue
      ensures forall flushes :: Contents() == Next(old(Contents()), Add(x), maxItems, flushes)
    {
      queue := queue + [x];
    }

    /** Moves the oldest queued message to the batch, and flushes that when it is full. */
    method TakeOne(flushes: bool)
      requires !failed && !draining
      modifies this
      ensures Contents() == Next(old(Contents()), Take, maxItems, flushes)
    {
      if queue == [] { return; }
      cur, queue := cur + [queue[0]], queue[1..];
      if |cur| >= maxItems {
        var batch := cur;
        cur := [];
        Submit(batch, flushes);
      }
    }

    /** Flushes what is collected, if anything, when its oldest message is due. */
    method FlushDue(flushes: bool)
      requires !failed && !draining
      modifies this
      ensures Contents() == Next(old(Contents()), Due, maxItems, flushes)
    {
      if cur == [] { return; }
      var batch := cur;
      cur := [];
      Submit(batch, flushes);
    }

    /** After cancellation: takes everything queued and flushes it piece by piece until a flush fails. */
    method Drain(flushes: seq<bool>) returns (pieces: nat)
      requires !failed && !draining && maxItems > 0 && |flushes| >= |cur| + |queue|
      modifies this
      ensures pieces <= |flushes| && draining && (failed || cur == [])
      ensures forall f :: Contents() == Pieces(Next(old(Contents()), Cancel, maxItems, f), flushes[..pieces], maxItems)
    {
      cur, queue, draining := cur + queue, [], true;
      ghost var start := Contents();
      pieces := 0;
      while cur != [] && !failed
        invariant draining && pieces + |cur| <= |flushes| + (if failed then |cur| else 0) && pieces <= |flushes|
        invariant Contents() == Pieces(start, flushes[..pieces], maxItems)
        decreases |cur|, !failed
      {
        var n := Min(|cur|, maxItems);
        var batch := cur[..n];
        cur := cur[n..];
        Submit(batch, flushes[pieces]);
        assert flushes[..pieces + 1][..pieces] == flushes[..pieces];
        pieces := pieces + 1;
      }
    }

    /** Runs until a flush fails or the process is told to stop, and then drains. */
    method Run(es: seq<Event<T>>, flushes: seq<bool>, drain: seq<bool>) returns (used: nat, pieces: nat)
      requires Contents() == Fresh() && maxItems > 0 && |flushes| == |es| && |drain| >= |es|
      requires Piece !in es
      modifies this
      ensures used <= |es| && pieces <= |drain|
      ensures Contents() == Pieces(After(es[..used], flushes[..used], maxItems), drain[..pieces], maxItems)
      ensures failed || used == |es| || (used > 0 && es[used - 1] == Cancel && acked == Arrived(es[..used]))
    {
      hide Next, Arrives, Kept;
      used, pieces := 0, 0;
      while used < |es| && !failed
        invariant used <= |es| && !draining && Contents() == After(es[..used], flushes[..used], maxItems)
        decreases |es| - used
      {
        var e := es[used];
        AfterSnoc(es, flushes, used, maxItems);
        QueueBound(es[..used], flushes[..used], maxItems);
        used := used + 1;
        if e.Cancel? {
          pieces := Drain(drain);
          if !failed { DrainedAll(es[..used], flushes[..used], drain[..pieces], maxItems); }
          return;
        }
        OnlyCancelDrains(Contents(), e, maxItems, flushes[used - 1]);
        assert e != Piece;
        if e.Add? {
          Enqueue(e.e);
        } else if e.Take? {
          TakeOne(flushes[used - 1]);
        } else {
          FlushDue(flushes[used - 1]);
        }
      }
      assert drain[..0] == [];
    }
  }

  /** The state after flushing pieces with these outcomes. */
  function Pieces<T>(s: State<T>, flushes: seq<bool>, maxItems: nat): State<T> {
    if flushes == [] then s else
    Next(Pieces(s, flushes[..|flushes| - 1], maxItems), Piece, maxItems, flushes[|flushes| - 1])
  }

  lemma AfterSnoc<T>(es: seq<Event<T>>, flushes: seq<bool>, n: nat, maxItems: nat)
    requires |flushes| == |es| && n < |es|
    ensures After(es[..n + 1], flushes[..n + 1], maxItems)
         == Next(After(es[..n], flushes[..n], maxItems), es[n], maxItems, flushes[n])
  {
    assert es[..n + 1][..n] == es[..n] && flushes[..n + 1][..n] == flushes[..n];
  }

  lemma {:induction false} QueueBound<T>(es: seq<Event<T>>, flushes: seq<bool>, maxItems: nat)
    requires |flushes| == |es|
    ensures var s := After(es, flushes, maxItems); |s.cur| + |s.queue| <= |es|
  {
    if es != [] { QueueBound(es[..|es| - 1], flushes[..|es| - 1], maxItems); }
  }

  lemma OnlyCancelDrains<T>(s: State<T>, e: Event<T>, maxItems: nat, flushes: bool)
    requires e != Cancel
    ensures Next(s, e, maxItems, flushes).draining == s.draining
  {
  }

  lemma {:induction false} PiecesKeep<T>(s: State<T>, drain: seq<bool>, maxItems: nat, arrived: seq<T>)
    requires Kept(s, maxItems, arrived) && maxItems > 0
    ensures var p := Pieces(s, drain, maxItems);
            Kept(p, maxItems, arrived) && p.queue == s.queue && (s.failed ==> p.failed)
  {
    if drain != [] {
      hide Kept;
      var n := |drain| - 1;
      PiecesKeep(s, drain[..n], maxItems, arrived);
      NextKeeps(Pieces(s, drain[..n], maxItems), Piece, maxItems, drain[n], arrived);
    }
  }

  /** A drain that flushed everything acknowledged every arrival. */
  lemma DrainedAll<T>(es: seq<Event<T>>, flushes: seq<bool>, drain: seq<bool>, maxItems: nat)
    requires |flushes| == |es| && maxItems > 0 && es != [] && es[|es| - 1] == Cancel
    requires var s := Pieces(After(es, flushes, maxItems), drain, maxItems); !s.failed && s.cur == []
    ensures Pieces(After(es, flushes, maxItems), drain, maxItems).acked == Arrived(es)
  {
    var n := |es| - 1;
    var s := After(es, flushes, maxItems);
    LifeKeeps(es, flushes, maxItems);
    PiecesKeep(s, drain, maxItems, Arrived(es));
    assert s.failed || s.queue == [];
    hide After, Pieces, Arrived;
    var done := Joined(Pieces(s, drain, maxItems).submitted);
    assert done + [] + [] == done;
  }

  // ----- nothing waits for ever ------------------------------------------------------------------------------------

  /** Taking `n` messages while every flush succeeds. */
  function Takes<T>(s: State<T>, n: nat, maxItems: nat): State<T> {
    if n == 0 then s else Next(Takes(s, n - 1, maxItems), Take, maxItems, true)
  }

  lemma {:induction false} TakesKeep<T>(s: State<T>, n: nat, maxItems: nat, arrived: seq<T>)
    requires Kept(s, maxItems, arrived) && maxItems > 0 && !s.failed && !s.draining && n <= |s.queue|
    ensures var t := Takes(s, n, maxItems);
            Kept(t, maxItems, arrived) && !t.failed && !t.draining && t.queue == s.queue[n..]
  {
    if n > 0 {
      hide Kept, Next;
      var t := Takes(s, n - 1, maxItems);
      TakesKeep(s, n - 1, maxItems, arrived);
      NextKeeps(t, Take, maxItems, true, arrived);
      TakesOne(t, maxItems);
    }
  }

  lemma TakesOne<T>(s: State<T>, maxItems: nat)
    requires !s.failed && !s.draining && s.queue != []
    ensures var t := Next(s, Take, maxItems, true); !t.failed && !t.draining && t.queue == s.queue[1..]
  {
  }

  /** Once everything queued has been taken, the next due flush acknowledges every arrival. */
  lemma DueFlushes<T>(s: State<T>, maxItems: nat, arrived: seq<T>)
    requires Kept(s, maxItems, arrived) && maxItems > 0 && !s.failed && !s.draining
    ensures var t := Next(Takes(s, |s.queue|, maxItems), Due, maxItems, true);
            t.acked == arrived && t.cur == [] && t.queue == []
  {
    hide Joined;
    var u := Takes(s, |s.queue|, maxItems);
    TakesKeep(s, |s.queue|, maxItems, arrived);
    NextKeeps(u, Due, maxItems, true, arrived);
    var t := Next(u, Due, maxItems, true);
    hide Next, Takes;
    assert Joined(t.submitted) + [] + [] == Joined(t.submitted);
  }

  /** Before it is due only a full batch is flushed. */
  lemma OnlyFull<T>(s: State<T>, maxItems: nat)
    requires !s.failed && !s.draining && |s.cur| < maxItems
    ensures s.queue != [] && |s.cur| + 1 == maxItems ==> ToFlush(s, Take, maxItems) == s.cur + s.queue[..1]
    ensures s.queue == [] || |s.cur| + 1 < maxItems ==> ToFlush(s, Take, maxItems) == []
  {
  }

  /** Draining flushes as much at a time as it may. */
  lemma FullPieces<T>(s: State<T>, maxItems: nat)
    requires !s.failed && s.draining
    ensures |s.cur| >= maxItems ==> ToFlush(s, Piece, maxItems) == s.cur[..maxItems]
    ensures |s.cur| < maxItems ==> ToFlush(s, Piece, maxItems) == s.cur
  {
  }
}
