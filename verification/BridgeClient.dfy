/** The bridge's ingest client: chunking, one stream per attempt, retries (internal/bridge/client.go). */
module BridgeClient {
  import opened Common
  import opened BulkStore
  import opened IngestStream

  /** A list cut into pieces of at most `n`. */
  function Chunks(rows: seq<Msg>, n: nat): seq<seq<Msg>>
    requires n > 0
    decreases |rows|
  {
    if rows == [] then [] else
    var m := if n < |rows| then n else |rows|;
    [rows[..m]] + Chunks(rows[m..], n)
  }

  /** Chunking loses nothing, keeps the order, and makes no request empty, or smaller than it may be but the last. */
  lemma {:induction false} ChunksJoin(rows: seq<Msg>, n: nat)
    requires n > 0
    ensures Joined(Chunks(rows, n)) == rows
    ensures forall i :: 0 <= i < |Chunks(rows, n)| ==> 0 < |Chunks(rows, n)[i]| <= n
    ensures forall i :: 0 <= i < |Chunks(rows, n)| - 1 ==> |Chunks(rows, n)[i]| == n
    decreases |rows|
  {
    if rows != [] {
      var m := if n < |rows| then n else |rows|;
      ChunksJoin(rows[m..], n);
      JoinedFirst(Chunks(rows, n));
      assert Chunks(rows, n)[1..] == Chunks(rows[m..], n);
      assert rows == rows[..m] + rows[m..];
    }
  }

  /** What is left to chunk from index `i` on. */
  function ChunksFrom(rows: seq<Msg>, i: nat, n: nat): seq<seq<Msg>>
    requires n > 0
  {
    if i >= |rows| then [] else Chunks(rows[i..], n)
  }

  lemma ChunksStep(rows: seq<Msg>, i: nat, n: nat)
    requires n > 0 && i < |rows|
    ensures ChunksFrom(rows, i, n) == [rows[i..Min(i + n, |rows|)]] + ChunksFrom(rows, i + n, n)
  {
    var rest, m := rows[i..], Min(n, |rows| - i);
    assert rest[..m] == rows[i..i + m] && rest[m..] == rows[i + m..];
    assert Chunks(rest, n) == [rest[..m]] + Chunks(rest[m..], n);
    if i + n >= |rows| { assert rest[m..] == []; }
  }

  method Chunked(rows: seq<Msg>, n: nat) returns (out: seq<seq<Msg>>)
    requires n > 0
    ensures out == Chunks(rows, n)
  {
    hide Chunks;
    out := [];
    var i := 0;
    ChunksAll(rows, n);
    while i < |rows|
      invariant out + ChunksFrom(rows, i, n) == Chunks(rows, n)
      decreases |rows| - i
    {
      hide ChunksFrom;
      ChunksStep(rows, i, n);
      out := out + [rows[i..Min(i + n, |rows|)]];
      i := i + n;
    }
  }

  lemma ChunksAll(rows: seq<Msg>, n: nat)
    requires n > 0
    ensures ChunksFrom(rows, 0, n) == Chunks(rows, n)
  {
    assert rows[0..] == rows;
  }

  lemma {:induction false} ExtractJoin(a: seq<Msg>, b: seq<Msg>)
    ensures Extract(a + b) == Extract(a) + Extract(b)
  {
    if b == [] {
      assert a + b == a;
    } else {
      var n := |b| - 1;
      ExtractJoin(a, b[..n]);
      assert (a + b)[..|a| + n] == a + b[..n];
    }
  }

  /** The requests a stream received before it ended. */
  function Requests(events: seq<Event>): seq<seq<Msg>> {
    if events == [] then [] else
    var n := |events| - 1;
    Requests(events[..n]) + (if events[n].Receive? && !Ended(events[..n]) then [events[n].req] else [])
  }

  lemma {:induction false} ReceivedRequests(events: seq<Event>)
    ensures Received(events) == Extract(Joined(Requests(events)))
  {
    if events != [] {
      var n := |events| - 1;
      ReceivedRequests(events[..n]);
      if events[n].Receive? && !Ended(events[..n]) {
        var r := Requests(events[..n]);
        assert (r + [events[n].req])[..|r|] == r;
        ExtractJoin(Joined(r), events[n].req);
      } else {
        assert Requests(events) == Requests(events[..n]) && Received(events) == Received(events[..n]);
      }
    }
  }

  /** One attempt: how many sends succeeded, what the server did, whether its answer came back, and whether
      an error may be retried. */
  datatype Attempt = Attempt(sent: nat, events: seq<Event>, answered: bool, retryable: bool)

  /** The server receives, in order, exactly the requests that were sent. */
  ghost predicate Carries(reqs: seq<seq<Msg>>, a: Attempt) { a.sent <= |reqs| && Requests(a.events) == reqs[..a.sent] }

  /** A stream on which a send fails is over, so it does not end well. */
  ghost predicate FailedSendEnds(reqs: seq<seq<Msg>>, a: Attempt) {
    a.sent < |reqs| ==> !Ended(a.events) || !a.answered
  }

  /** Data and outcome of a submission. */
  datatype Sent = Sent(d: Data, ok: bool)

  /** One stream: what it leaves behind, and whether its answer came. */
  function Tried(auto: bool, batchMax: nat, d: Data, a: Attempt): Sent {
    var st := Stream(auto, batchMax, d, a.events);
    Sent(st.d, Answer(st).Some? && a.answered)
  }

  /** Attempts one after another until one succeeds, fails for good, or time runs out. */
  function Submission(auto: bool, batchMax: nat, d: Data, reqs: seq<seq<Msg>>, attempts: seq<Attempt>): Sent
    decreases |attempts|
  {
    if reqs == [] then Sent(d, true)
    else if attempts == [] then Sent(d, false)
    else
      var t := Tried(auto, batchMax, d, attempts[0]);
      if t.ok || !attempts[0].retryable then t else Submission(auto, batchMax, t.d, reqs, attempts[1..])
  }

  ghost predicate AllCarry(reqs: seq<seq<Msg>>, attempts: seq<Attempt>) {
    forall i :: 0 <= i < |attempts| ==> Carries(reqs, attempts[i])
  }

  /** What the transport guarantees of streams on which a send failed. */
  ghost predicate Reliable(reqs: seq<seq<Msg>>, attempts: seq<Attempt>) {
    forall i :: 0 <= i < |attempts| ==> FailedSendEnds(reqs, attempts[i])
  }

  /** A successful attempt: the valid rows of what was sent have landed. */
  lemma TriedLands(auto: bool, batchMax: nat, d: Data, reqs: seq<seq<Msg>>, a: Attempt)
    requires Carries(reqs, a) && Tried(auto, batchMax, d, a).ok
    ensures Ended(a.events) && a.answered
    ensures forall r <- Extract(Joined(reqs[..a.sent])) :: Landed(auto, Tried(auto, batchMax, d, a).d, r)
  {
    ReceivedRequests(a.events);
    StreamMeaning(auto, batchMax, d, a.events);
    hide Received, Extract, Joined, Requests, Ended, PutAll, CountAll, Alone, Stream, StoredBy;
  }

  /** A successful submission has one successful attempt, whose rows have landed; if streams with a failed send do
      not end well, these are all the valid rows. */
  lemma {:induction false} SubmissionLands(auto: bool, batchMax: nat, d: Data, reqs: seq<seq<Msg>>,
                                           attempts: seq<Attempt>)
    requires AllCarry(reqs, attempts) && Submission(auto, batchMax, d, reqs, attempts).ok
    ensures reqs != [] ==>
              exists i :: 0 <= i < |attempts| &&
                Succeeds(auto, Submission(auto, batchMax, d, reqs, attempts).d, reqs, attempts[i])
    ensures Reliable(reqs, attempts) ==> LandedTo(auto, Submission(auto, batchMax, d, reqs, attempts).d, reqs, |reqs|)
    decreases |attempts|
  {
    hide Tried, Extract, Joined, Landed, Requests, Ended;
    if reqs == [] {
      NothingToSend();
    } else {
      var a, rest := attempts[0], attempts[1..];
      var t := Tried(auto, batchMax, d, a);
      assert Carries(reqs, a);
      if t.ok {
        TriedLands(auto, batchMax, d, reqs, a);
        if Reliable(reqs, attempts) { assert FailedSendEnds(reqs, a); assert reqs[..a.sent] == reqs; }
        assert reqs[..|reqs|] == reqs;
        assert Succeeds(auto, t.d, reqs, attempts[0]);
      } else {
        assert forall i :: 0 <= i < |rest| ==> rest[i] == attempts[i + 1];
        SubmissionLands(auto, batchMax, t.d, reqs, rest);
        var i :| 0 <= i < |rest| && Succeeds(auto, Submission(auto, batchMax, t.d, reqs, rest).d, reqs, rest[i]);
        assert attempts[i + 1] == rest[i];
      }
    }
  }

  // ----- which attempts are made ---------------------------------------------------------------------------------

  /** The data once the first `n` attempts have run, one after another. */
  function DataAfter(auto: bool, batchMax: nat, d: Data, attempts: seq<Attempt>, n: nat): Data
    requires n <= |attempts|
  {
    if n == 0 then d
    else Stream(auto, batchMax, DataAfter(auto, batchMax, d, attempts, n - 1), attempts[n - 1].events).d
  }

  /** The server answers attempt `i` with a result, on the data its predecessors left, and the answer arrives. */
  predicate Wins(auto: bool, batchMax: nat, d: Data, attempts: seq<Attempt>, i: nat)
    requires i < |attempts|
  {
    Answer(Stream(auto, batchMax, DataAfter(auto, batchMax, d, attempts, i), attempts[i].events)).Some?
    && attempts[i].answered
  }

  /** All attempts before the `n`-th failed with an error that may be retried. */
  ghost predicate RetriedTo(auto: bool, batchMax: nat, d: Data, attempts: seq<Attempt>, n: nat) {
    n <= |attempts| && forall i :: 0 <= i < n ==> !Wins(auto, batchMax, d, attempts, i) && attempts[i].retryable
  }

  /** The `n`-th attempt was the last one made: it won, or failed for good, or no time was left for another. */
  ghost predicate MadeUpTo(auto: bool, batchMax: nat, d: Data, attempts: seq<Attempt>, n: nat) {
    && n <= |attempts| && (n > 0 ==> RetriedTo(auto, batchMax, d, attempts, n - 1))
    && (n < |attempts| ==> n > 0 && (Wins(auto, batchMax, d, attempts, n - 1) || !attempts[n - 1].retryable))
  }

  lemma {:induction false} DataAfterFirst(auto: bool, batchMax: nat, d: Data, attempts: seq<Attempt>, n: nat)
    requires 0 < n <= |attempts|
    ensures DataAfter(auto, batchMax, d, attempts, n) ==
            DataAfter(auto, batchMax, Stream(auto, batchMax, d, attempts[0].events).d, attempts[1..], n - 1)
  {
    hide Stream;
    if n > 1 { DataAfterFirst(auto, batchMax, d, attempts, n - 1); }
  }

  /** A submission succeeds exactly if some attempt wins after all before it failed with errors that may be retried; its
      data are those left by the attempts made. */
  lemma {:induction false} SubmissionExactly(auto: bool, batchMax: nat, d: Data, reqs: seq<seq<Msg>>,
                                             attempts: seq<Attempt>)
      returns (n: nat)
    requires reqs != []
    ensures MadeUpTo(auto, batchMax, d, attempts, n)
    ensures var s := Submission(auto, batchMax, d, reqs, attempts);
            && s.d == DataAfter(auto, batchMax, d, attempts, n)
            && (s.ok <==> n > 0 && Wins(auto, batchMax, d, attempts, n - 1))
    ensures Submission(auto, batchMax, d, reqs, attempts).ok <==>
              exists i :: 0 <= i < |attempts| && Wins(auto, batchMax, d, attempts, i)
                          && RetriedTo(auto, batchMax, d, attempts, i)
    decreases |attempts|
  {
    hide Stream, Answer, DataAfter, Wins;
    if attempts == [] {
      n := 0;
      DataAfterNone(auto, batchMax, d, attempts);
    } else {
      var rest, t := attempts[1..], Tried(auto, batchMax, d, attempts[0]);
      FirstTry(auto, batchMax, d, attempts);
      if t.ok || !attempts[0].retryable {
        n := 1;
      } else {
        var m := SubmissionExactly(auto, batchMax, t.d, reqs, rest);
        n := m + 1;
        OneMore(auto, batchMax, d, attempts, m);
      }
      WonAlone(auto, batchMax, d, attempts, n);
    }
  }

  lemma DataAfterNone(auto: bool, batchMax: nat, d: Data, attempts: seq<Attempt>)
    ensures DataAfter(auto, batchMax, d, attempts, 0) == d
  {
  }

  lemma FirstTry(auto: bool, batchMax: nat, d: Data, attempts: seq<Attempt>)
    requires attempts != []
    ensures var t := Tried(auto, batchMax, d, attempts[0]);
            t.d == DataAfter(auto, batchMax, d, attempts, 1) && (t.ok <==> Wins(auto, batchMax, d, attempts, 0))
  {
    hide Stream, Answer;
    assert DataAfter(auto, batchMax, d, attempts, 0) == d;
  }

  lemma OneMore(auto: bool, batchMax: nat, d: Data, attempts: seq<Attempt>, m: nat)
    requires attempts != [] && m < |attempts| && attempts[0].retryable && !Wins(auto, batchMax, d, attempts, 0)
    requires MadeUpTo(auto, batchMax, DataAfter(auto, batchMax, d, attempts, 1), attempts[1..], m)
    ensures MadeUpTo(auto, batchMax, d, attempts, m + 1)
    ensures DataAfter(auto, batchMax, d, attempts, m + 1) ==
            DataAfter(auto, batchMax, DataAfter(auto, batchMax, d, attempts, 1), attempts[1..], m)
    ensures m > 0 ==> (Wins(auto, batchMax, d, attempts, m) <==>
                       Wins(auto, batchMax, DataAfter(auto, batchMax, d, attempts, 1), attempts[1..], m - 1))
  {
    var d1, rest := DataAfter(auto, batchMax, d, attempts, 1), attempts[1..];
    forall i | 0 <= i < |rest|
      ensures Wins(auto, batchMax, d, attempts, i + 1) <==> Wins(auto, batchMax, d1, rest, i)
    {
      OneLater(auto, batchMax, d, attempts, i);
    }
    DataLater(auto, batchMax, d, attempts, m);
    hide Wins, DataAfter;
    forall i | 0 <= i < m ensures !Wins(auto, batchMax, d, attempts, i) && attempts[i].retryable {
      if i > 0 { assert rest[i - 1] == attempts[i] && !Wins(auto, batchMax, d1, rest, i - 1); }
    }
    if m > 0 { assert rest[m - 1] == attempts[m]; }
  }

  lemma DataLater(auto: bool, batchMax: nat, d: Data, attempts: seq<Attempt>, m: nat)
    requires m < |attempts|
    ensures DataAfter(auto, batchMax, d, attempts, m + 1) ==
            DataAfter(auto, batchMax, DataAfter(auto, batchMax, d, attempts, 1), attempts[1..], m)
  {
    hide Stream;
    DataAfterFirst(auto, batchMax, d, attempts, m + 1);
    DataAfterFirst(auto, batchMax, d, attempts, 1);
  }

  lemma OneLater(auto: bool, batchMax: nat, d: Data, attempts: seq<Attempt>, i: nat)
    requires i + 1 < |attempts|
    ensures Wins(auto, batchMax, d, attempts, i + 1) <==>
            Wins(auto, batchMax, DataAfter(auto, batchMax, d, attempts, 1), attempts[1..], i)
  {
    hide Stream, Answer, DataAfter;
    DataLater(auto, batchMax, d, attempts, i);
  }

  /** Only the last attempt made can have won with all before it retried. */
  lemma WonAlone(auto: bool, batchMax: nat, d: Data, attempts: seq<Attempt>, n: nat)
    requires MadeUpTo(auto, batchMax, d, attempts, n)
    ensures (n > 0 && Wins(auto, batchMax, d, attempts, n - 1)) <==>
              exists i :: 0 <= i < |attempts| && Wins(auto, batchMax, d, attempts, i)
                          && RetriedTo(auto, batchMax, d, attempts, i)
  {
    hide Wins;
  }

  /** Nothing to send succeeds at once and touches nothing. */
  lemma NothingSubmitted(auto: bool, batchMax: nat, d: Data, attempts: seq<Attempt>)
    ensures Submission(auto, batchMax, d, [], attempts) == Sent(d, true)
  {
  }

  // ----- what success means --------------------------------------------------------------------------------------

  /** The valid rows of the first `n` requests have landed. */
  ghost predicate LandedTo(auto: bool, d: Data, reqs: seq<seq<Msg>>, n: nat) {
    n <= |reqs| && forall r <- Extract(Joined(reqs[..n])) :: Landed(auto, d, r)
  }

  /** An attempt that ended well, and whose rows have landed. */
  ghost predicate Succeeds(auto: bool, d: Data, reqs: seq<seq<Msg>>, a: Attempt) {
    Ended(a.events) && a.answered && LandedTo(auto, d, reqs, a.sent)
  }

  lemma NothingToSend()
    ensures Extract(Joined([])) == []
  {
  }

  /** Rows that other writers insert while the attempts run. */
  function Beside(attempts: seq<Attempt>): seq<Row> {
    if attempts == [] then [] else OtherRows(attempts[0].events) + Beside(attempts[1..])
  }

  /** All a submission leaves behind is some inserts of its own valid rows and of rows others wrote. */
  lemma {:induction false} SubmissionLog(auto: bool, batchMax: nat, d: Data, reqs: seq<seq<Msg>>,
                                         attempts: seq<Attempt>)
      returns (log: seq<Row>)
    requires AllCarry(reqs, attempts)
    ensures Submission(auto, batchMax, d, reqs, attempts).d == PutAll(auto, d, log)
    ensures forall r <- log :: r in Extract(Joined(reqs)) || r in Beside(attempts)
    decreases |attempts|
  {
    if reqs == [] || attempts == [] {
      log := [];
      EmptyInsert(auto, d);
    } else {
      hide PutAll, Extract, Joined, OtherRows, Requests;
      var a, rest := attempts[0], attempts[1..];
      assert Carries(reqs, a);
      log := TriedLog(auto, batchMax, d, reqs, a);
      var t := Tried(auto, batchMax, d, a);
      hide Tried;
      if !t.ok && a.retryable {
        assert forall i :: 0 <= i < |rest| ==> rest[i] == attempts[i + 1];
        var more := SubmissionLog(auto, batchMax, t.d, reqs, rest);
        BatchingIrrelevant(auto, d, log, more);
        log := log + more;
      }
    }
  }

  lemma TriedLog(auto: bool, batchMax: nat, d: Data, reqs: seq<seq<Msg>>, a: Attempt) returns (log: seq<Row>)
    requires Carries(reqs, a)
    ensures Tried(auto, batchMax, d, a).d == PutAll(auto, d, log)
    ensures forall r <- log :: r in Extract(Joined(reqs)) || r in OtherRows(a.events)
  {
    hide PutAll, Extract, Joined, OtherRows, Requests, Received, Stream;
    log := StreamLog(auto, batchMax, d, a.events);
    ReceivedRequests(a.events);
    SentPart(reqs, a.sent);
  }

  lemma SentPart(reqs: seq<seq<Msg>>, n: nat)
    requires n <= |reqs|
    ensures forall r <- Extract(Joined(reqs[..n])) :: r in Extract(Joined(reqs))
  {
    JoinedParts(reqs, n);
    ExtractJoin(Joined(reqs[..n]), Joined(reqs[n..]));
    hide Extract, Joined;
  }

  lemma {:induction false} JoinedParts<T>(s: seq<seq<T>>, n: nat)
    requires n <= |s|
    ensures Joined(s) == Joined(s[..n]) + Joined(s[n..])
    decreases |s|
  {
    if n == |s| {
      assert s[..n] == s && s[n..] == [];
    } else {
      var k := |s| - 1;
      JoinedParts(s[..k], n);
      assert s[..k][..n] == s[..n] && s[..k][n..] == s[n..][..k - n];
      assert s[n..][k - n] == s[k];
    }
  }

  // ----- in place ------------------------------------------------------------------------------------------------

  /** Opens one stream, sends until a send fails, and takes the answer. */
  method AttemptSubmit(store: Store, batchMax: nat, reqs: seq<seq<Msg>>, a: Attempt) returns (res: Option<Result>)
    requires Carries(reqs, a)
    modifies store
    ensures Sent(store.data, res.Some?) == Tried(store.autoRegister, batchMax, old(store.data), a)
    ensures res.Some? ==> LandedTo(store.autoRegister, store.data, reqs, a.sent)
    ensures res.Some? ==> var c := res.value;
              c.accepted + c.duplicates + c.rejected == |Extract(Joined(reqs[..a.sent]))|
  {
    ghost var auto, d := store.autoRegister, store.data;
    ReceivedRequests(a.events);
    StreamMeaning(auto, batchMax, d, a.events);
    hide Received, Extract, Joined, Requests, Ended, PutAll, CountAll, Alone, Stream, StoredBy, Landed;
    res := RunStream(store, batchMax, a.events);
    if !a.answered { res := None; }
    if res.Some? { TriedLands(auto, batchMax, d, reqs, a); }
  }

  /** Retries until an attempt succeeds, fails for good, or time runs out. */
  method Submit(store: Store, batchMax: nat, reqs: seq<seq<Msg>>, attempts: seq<Attempt>) returns (ok: bool)
    requires AllCarry(reqs, attempts)
    modifies store
    ensures Sent(store.data, ok) == Submission(store.autoRegister, batchMax, old(store.data), reqs, attempts)
    ensures ok && Reliable(reqs, attempts) ==> LandedTo(store.autoRegister, store.data, reqs, |reqs|)
  {
    hide Tried, Extract, Joined, Carries, LandedTo;
    ghost var auto, d0 := store.autoRegister, store.data;
    if Submission(auto, batchMax, d0, reqs, attempts).ok { SubmissionLands(auto, batchMax, d0, reqs, attempts); }
    if reqs == [] { return true; }
    assert attempts[0..] == attempts;
    for i := 0 to |attempts|
      invariant Submission(auto, batchMax, d0, reqs, attempts)
             == Submission(auto, batchMax, store.data, reqs, attempts[i..])
    {
      assert attempts[i..][1..] == attempts[i + 1..] && attempts[i..][0] == attempts[i];
      var res := AttemptSubmit(store, batchMax, reqs, attempts[i]);
      if res.Some? { return true; }
      if !attempts[i].retryable { return false; }
    }
    return false;
  }

  /** Sends a batch in chunks; success means every valid message of it has landed. */
  method SubmitBatch(store: Store, batchMax: nat, chunk: nat, rows: seq<Msg>, attempts: seq<Attempt>) returns (ok: bool)
    requires chunk > 0 && AllCarry(Chunks(rows, chunk), attempts)
    modifies store
    ensures Sent(store.data, ok)
         == Submission(store.autoRegister, batchMax, old(store.data), Chunks(rows, chunk), attempts)
    ensures ok && Reliable(Chunks(rows, chunk), attempts) ==>
              forall r <- Extract(rows) :: Landed(store.autoRegister, store.data, r)
  {
    ChunksJoin(rows, chunk);
    hide Chunks, Joined, Extract, Landed, Submission, AllCarry, Reliable;
    var reqs := Chunked(rows, chunk);
    assert reqs[..|reqs|] == reqs;
    ok := Submit(store, batchMax, reqs, attempts);
  }

  /** Without that guarantee a submission can succeed with a row missing: the first send fails, the server still sees
      a clean end, and its answer comes back. */
  lemma FailedSendMatters(d: Data, batchMax: nat, r: Row) returns (reqs: seq<seq<Msg>>, attempts: seq<Attempt>)
    requires r.key !in d.rows
    ensures AllCarry(reqs, attempts) && !Reliable(reqs, attempts) && r in Extract(Joined(reqs))
    ensures var s := Submission(true, batchMax, d, reqs, attempts); s.ok && !Landed(true, s.d, r)
  {
    var a := Attempt(0, [Eof], true, true);
    reqs, attempts := [[Good(r)]], [a];
    OneMessage(r);
    OnlyEof(batchMax, d);
    hide Joined, Extract, Requests, Ended, Stream, Answer;
    assert !FailedSendEnds(reqs, a);
    assert attempts[0] == a;
  }

  lemma OneMessage(r: Row)
    ensures Joined([[Good(r)]]) == [Good(r)] && Extract([Good(r)]) == [r]
  {
    assert Joined([[Good(r)]]) == Joined([]) + [Good(r)];
    assert Extract([Good(r)]) == Extract([]) + [r];
  }

  lemma OnlyEof(batchMax: nat, d: Data)
    ensures Requests([Eof]) == [] && Ended([Eof])
    ensures var st := Stream(true, batchMax, d, [Eof]); st.d == d && Answer(st).Some?
  {
    assert [Eof][..0] == [];
  }
}
