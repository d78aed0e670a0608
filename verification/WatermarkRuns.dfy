/** Every interleaving of writer transactions and poll transactions (internal/watermark/consumer.go). */
module WatermarkRuns {
  import opened Common
  import opened Watermark

  /** An ingest transaction in flight: its rows all carry the time it began. */
  datatype Writer = Writer(stamp: int, rows: set<Row>)

  /** Where the consumer is in its own transaction. */
  datatype Phase =
    | Quiet
    | Begun(start: int)
    | Read(start: int, after: int, rows: seq<Row>)
    | Handled(start: int, after: int, rows: seq<Row>)

  datatype State = State(now: int, table: set<Row>, writers: set<Writer>,
                         mark: Option<int>, effects: seq<Row>, memory: seq<Row>, tx: Phase)

  datatype Step =
    | Tick(to: int)
    | Open(w: Writer)
    | Commit(w: Writer)
    | Abort(w: Writer)
    | PollBegin
    | PollRead
    | Handle
    | PollCommit
    | PollCommitUnheard
    | PollFail

  ghost predicate Enabled(s: State, e: Step) {
    match e
    case Tick(to) => s.now <= to
    case Open(w) => w.stamp == s.now && (forall r <- w.rows :: r.at == w.stamp) && w.rows !! s.table && w !in s.writers
    case Commit(w) => w in s.writers && w.rows !! s.table
    case Abort(w) => w in s.writers
    case PollBegin => s.tx.Quiet?
    case PollRead => s.tx.Begun?
    case Handle => s.tx.Read? && s.tx.rows != []
    case PollCommit => (s.tx.Read? && s.tx.rows == []) || s.tx.Handled?
    case PollCommitUnheard => (s.tx.Read? && s.tx.rows == []) || s.tx.Handled?
    case PollFail => !s.tx.Quiet?
  }

  /** The poll's effects and its watermark become visible together. */
  function Committed(lag: nat, s: State): State
    requires s.tx.Read? || s.tx.Handled?
  {
    var newMark := NewMark(s.tx.after, s.tx.rows, s.tx.start - lag);
    s.(tx := Quiet, effects := s.effects + s.tx.rows, mark := Stored(s.mark, s.tx.after, newMark))
  }

  /** `PollCommitUnheard` is a commit whose answer is lost: the consumer takes it for a failure and resets. */
  ghost function Apply(lag: nat, maxGroups: nat, s: State, e: Step): State
    requires Enabled(s, e)
  {
    match e
    case Tick(to) => s.(now := to)
    case Open(w) => s.(writers := s.writers + {w})
    case Commit(w) => s.(writers := s.writers - {w}, table := s.table + w.rows)
    case Abort(w) => s.(writers := s.writers - {w})
    case PollBegin => s.(tx := Begun(s.now))
    case PollRead =>
      s.(tx := Read(s.tx.start, MarkOf(s.mark), Polled(s.table, MarkOf(s.mark), s.tx.start - lag, maxGroups)))
    case Handle => s.(tx := Handled(s.tx.start, s.tx.after, s.tx.rows), memory := s.memory + s.tx.rows)
    case PollCommit => Committed(lag, s)
    case PollCommitUnheard => Committed(lag, s).(memory := [])
    case PollFail => s.(tx := Quiet, memory := [])
  }

  /** The watermark row is written only if it moves. */
  function Stored(mark: Option<int>, after: int, newMark: int): Option<int> {
    if newMark > after then Some(newMark) else mark
  }

  /** A writer that commits does so less than the lag after it began. */
  predicate Timely(lag: nat, s: State, e: Step) { e.Commit? ==> s.now < e.w.stamp + lag }

  predicate Initial(s: State) {
    s.now > 0 && s.table == {} && s.writers == {} && s.mark == None && s.effects == [] && s.memory == []
      && s.tx == Quiet
  }

  /** The states of a run. */
  ghost predicate Run(lag: nat, maxGroups: nat, states: seq<State>, steps: seq<Step>) {
    && |states| == |steps| + 1 && Initial(states[0])
    && (forall i :: 0 <= i < |steps| ==>
        Enabled(states[i], steps[i]) && states[i + 1] == Apply(lag, maxGroups, states[i], steps[i]))
  }

  ghost predicate AllTimely(lag: nat, states: seq<State>, steps: seq<Step>)
    requires |states| == |steps| + 1
  {
    forall i :: 0 <= i < |steps| ==> Timely(lag, states[i], steps[i])
  }

  // ----- with timely writers -------------------------------------------------------------------------------

  ghost predicate WritersSound(s: State) {
    s.now > 0 && forall w <- s.writers :: 0 < w.stamp <= s.now && forall r <- w.rows :: r.at == w.stamp
  }

  /** No writer that may still commit has a stamp at or below the watermark. */
  ghost predicate MarkBehind(lag: nat, s: State) { MarkOf(s.mark) <= 0 || MarkOf(s.mark) <= s.now - lag }

  /** The committed effects are the table's rows up to the watermark, each once, oldest first. */
  ghost predicate Exactly(s: State) { s.effects == UpTo(s.table, MarkOf(s.mark)) }

  /** What an open poll read is still what the query would return. */
  ghost predicate ReadStands(lag: nat, maxGroups: nat, s: State) {
    match s.tx
    case Quiet => true
    case Begun(start) => start <= s.now
    case Read(start, after, rows) =>
      start <= s.now && after == MarkOf(s.mark) && rows == Polled(s.table, after, start - lag, maxGroups)
    case Handled(start, after, rows) =>
      start <= s.now && after == MarkOf(s.mark) && rows == Polled(s.table, after, start - lag, maxGroups)
  }

  ghost predicate EndsWith(s: seq<Row>, t: seq<Row>) { |t| <= |s| && s[|s| - |t|..] == t }

  /** Handlers remember only committed rows, and those of the transaction that is open. */
  ghost predicate MemorySound(s: State) {
    EndsWith(if s.tx.Handled? then s.effects + s.tx.rows else s.effects, s.memory)
  }

  ghost predicate Inv(lag: nat, maxGroups: nat, s: State) {
    WritersSound(s) && MarkBehind(lag, s) && Exactly(s) && ReadStands(lag, maxGroups, s) && MemorySound(s)
  }

  lemma LateRowsUnseen(t: set<Row>, new_: set<Row>, after: int, upto: int)
    requires forall r <- new_ :: r.at > upto && r.at > after
    ensures UpTo(t + new_, after) == UpTo(t, after)
    ensures Between(t + new_, after, upto) == Between(t, after, upto)
  {
    hide Ordered;
    assert (set r <- t + new_ | r.at <= after) == (set r <- t | r.at <= after);
  }

  lemma StepCommit(lag: nat, maxGroups: nat, s: State, w: Writer)
    requires Inv(lag, maxGroups, s) && Enabled(s, Commit(w)) && Timely(lag, s, Commit(w))
    ensures Inv(lag, maxGroups, Apply(lag, maxGroups, s, Commit(w)))
  {
    hide UpTo, Between, TakeGroups;
    var m := MarkOf(s.mark);
    LateRowsUnseen(s.table, w.rows, m, m);
    if s.tx.Read? || s.tx.Handled? {
      LateRowsUnseen(s.table, w.rows, m, s.tx.start - lag);
    }
    hide Ordered;
  }

  lemma StepPoll(lag: nat, maxGroups: nat, s: State)
    requires Inv(lag, maxGroups, s) && Enabled(s, PollCommit) && maxGroups > 0
    ensures Inv(lag, maxGroups, Committed(lag, s)) && Inv(lag, maxGroups, Committed(lag, s).(memory := []))
  {
    hide UpTo, Polled, NewMark;
    PollAdvances(s.table, s.tx.after, s.tx.start - lag, maxGroups);
    var c := Committed(lag, s);
    assert WritersSound(c) && MarkBehind(lag, c) && Exactly(c);
    assert s.effects + [] == s.effects && EndsWith(c.effects, []);
  }

  lemma StepHandle(lag: nat, maxGroups: nat, s: State)
    requires Inv(lag, maxGroups, s) && Enabled(s, Handle)
    ensures Inv(lag, maxGroups, Apply(lag, maxGroups, s, Handle))
  {
    hide UpTo, Polled;
    EndsWithMore(s.effects, s.memory, s.tx.rows);
  }

  lemma EndsWithMore(s: seq<Row>, t: seq<Row>, r: seq<Row>)
    requires EndsWith(s, t)
    ensures EndsWith(s + r, t + r)
  {
    assert (s + r)[|s| - |t|..] == s[|s| - |t|..] + r;
  }

  lemma StepKeeps(lag: nat, maxGroups: nat, s: State, e: Step)
    requires Inv(lag, maxGroups, s) && Enabled(s, e) && Timely(lag, s, e) && maxGroups > 0
    ensures Inv(lag, maxGroups, Apply(lag, maxGroups, s, e))
  {
    hide UpTo, Polled;
    match e
    case Commit(w) => StepCommit(lag, maxGroups, s, w);
    case PollCommit => StepPoll(lag, maxGroups, s);
    case PollCommitUnheard => StepPoll(lag, maxGroups, s);
    case Handle => StepHandle(lag, maxGroups, s);
    case _ =>
  }

  /** In every run whose writers are timely, the committed effects are the rows up to the watermark, each once. */
  lemma {:induction false} RunCovers(lag: nat, maxGroups: nat, states: seq<State>, steps: seq<Step>)
    requires Run(lag, maxGroups, states, steps) && AllTimely(lag, states, steps) && maxGroups > 0
    ensures Inv(lag, maxGroups, states[|steps|])
  {
    hide Enabled, Apply, Inv, Timely;
    if steps == [] {
      StartInv(lag, maxGroups, states[0]);
    } else {
      var n := |steps| - 1;
      RunCovers(lag, maxGroups, states[..n + 1], steps[..n]);
      StepKeeps(lag, maxGroups, states[n], steps[n]);
    }
  }

  lemma StartInv(lag: nat, maxGroups: nat, s: State)
    requires Initial(s)
    ensures Inv(lag, maxGroups, s)
  {
    assert (set r <- s.table | r.at <= MarkOf(s.mark)) == {};
  }

  // ----- whatever the writers do --------------------------------------------------------------------------

  /** No row takes effect twice, none out of order, none that is not in the table. */
  ghost predicate AtMostOnce(s: State) {
    && Ascending(s.effects) && (forall r <- s.effects :: r in s.table && r.at <= MarkOf(s.mark))
    && (s.tx.Read? || s.tx.Handled? ==>
          s.tx.after == MarkOf(s.mark) && Ascending(s.tx.rows)
          && forall r <- s.tx.rows :: r in s.table && r.at > s.tx.after)
  }

  lemma AscendingJoin(a: seq<Row>, b: seq<Row>, m: int)
    requires Ascending(a) && Ascending(b) && (forall r <- a :: r.at <= m) && (forall r <- b :: r.at > m)
    ensures Ascending(a + b)
  {
    forall i, j | 0 <= i < j < |a + b| ensures RowLess((a + b)[i], (a + b)[j]) {
      if i < |a| { assert a[i] in a; }
      if j >= |a| { assert b[j - |a|] in b; }
    }
  }

  lemma {:induction false} NewestBounds(after: int, rows: seq<Row>)
    ensures Newest(after, rows) >= after && forall r <- rows :: r.at <= Newest(after, rows)
  {
    if rows != [] {
      var n := |rows| - 1;
      NewestBounds(after, rows[..n]);
      forall r <- rows ensures r.at <= Newest(after, rows) { assert r == rows[n] || r in rows[..n]; }
    }
  }

  lemma OnceStep(lag: nat, maxGroups: nat, s: State, e: Step)
    requires AtMostOnce(s) && Enabled(s, e) && maxGroups > 0
    ensures AtMostOnce(Apply(lag, maxGroups, s, e))
  {
    hide Ascending;
    if e == PollRead {
      PolledMeaning(s.table, MarkOf(s.mark), s.tx.start - lag, maxGroups);
      hide Polled;
      var p := Polled(s.table, MarkOf(s.mark), s.tx.start - lag, maxGroups);
      if p == [] { assert Ascending(p) by { AscendingEmpty(); } }
      else { OrderedMeaning(Between(s.table, MarkOf(s.mark), p[|p| - 1].at)); }
      hide Ordered;
    } else if e == PollCommit || e == PollCommitUnheard {
      NewestBounds(s.tx.after, s.tx.rows);
      AscendingJoin(s.effects, s.tx.rows, s.tx.after);
      hide Newest;
    }
  }

  lemma AscendingEmpty()
    ensures Ascending([])
  {
  }

  /** However late writers commit, every row takes effect at most once and in order. */
  lemma {:induction false} RunAtMostOnce(lag: nat, maxGroups: nat, states: seq<State>, steps: seq<Step>)
    requires Run(lag, maxGroups, states, steps) && maxGroups > 0
    ensures AtMostOnce(states[|steps|])
  {
    hide Enabled, Apply;
    if steps != [] {
      hide AtMostOnce;
      var n := |steps| - 1;
      RunAtMostOnce(lag, maxGroups, states[..n + 1], steps[..n]);
      OnceStep(lag, maxGroups, states[n], steps[n]);
    }
  }

  /** The row lies at or below the watermark without having taken effect, and no open poll holds it. */
  ghost predicate Missed(s: State, r: Row) {
    && r in s.table && r.at <= MarkOf(s.mark) && r !in s.effects
    && (s.tx.Read? || s.tx.Handled? ==> s.tx.after == MarkOf(s.mark) && r !in s.tx.rows)
  }

  /** A row the watermark has passed is never handled again. */
  lemma MissedStays(lag: nat, maxGroups: nat, s: State, e: Step, r: Row)
    requires Missed(s, r) && Enabled(s, e) && maxGroups > 0
    ensures Missed(Apply(lag, maxGroups, s, e), r)
  {
    hide Polled, NewMark;
    if e == PollRead {
      NotPolled(s.table, MarkOf(s.mark), s.tx.start - lag, maxGroups, r);
    } else if e == PollCommit || e == PollCommitUnheard {
      MarkRises(s.tx.after, s.tx.rows, s.tx.start - lag);
    }
  }

  lemma NotPolled(t: set<Row>, after: int, boundary: int, maxGroups: nat, r: Row)
    requires maxGroups > 0 && r.at <= after
    ensures r !in Polled(t, after, boundary, maxGroups)
  {
    hide Polled, Ordered;
    PolledMeaning(t, after, boundary, maxGroups);
    var p := Polled(t, after, boundary, maxGroups);
    if p != [] { OrderedMeaning(Between(t, after, p[|p| - 1].at)); }
  }

  lemma MarkRises(after: int, rows: seq<Row>, boundary: int)
    ensures NewMark(after, rows, boundary) >= after
  {
    NewestBounds(after, rows);
    hide Newest;
  }

  /** For every lag, one writer that commits exactly the lag after it began can lose its row for good. */
  lemma LagIsTight(lag: nat, maxGroups: nat) returns (states: seq<State>, steps: seq<Step>)
    requires maxGroups > 0
    ensures Run(lag, maxGroups, states, steps) && Missed(states[|steps|], Row(1, 0))
    ensures |steps| == 6 && steps[5].Commit? && states[5].now == steps[5].w.stamp + lag
    ensures forall i :: 0 <= i < |steps| - 1 ==> !steps[i].Commit?
  {
    var w := Writer(1, {Row(1, 0)});
    var s0 := State(1, {}, {}, None, [], [], Quiet);
    steps := [Open(w), Tick(1 + lag), PollBegin, PollRead, PollCommit, Commit(w)];
    var s1 := Apply(lag, maxGroups, s0, Open(w));
    var s2 := Apply(lag, maxGroups, s1, Tick(1 + lag));
    var s3 := Apply(lag, maxGroups, s2, PollBegin);
    assert Ordered(Between({}, 0, 1)) == [];
    var s4 := Apply(lag, maxGroups, s3, PollRead);
    assert s4.tx == Read(1 + lag, 0, []);
    hide Polled;
    var s5 := Apply(lag, maxGroups, s4, PollCommit);
    var s6 := Apply(lag, maxGroups, s5, Commit(w));
    states := [s0, s1, s2, s3, s4, s5, s6];
  }

  // ----- draining ------------------------------------------------------------------------------------------

  /** The non-empty polls of the loop that runs rounds until one returns nothing. */
  ghost function Rounds(t: set<Row>, after: int, boundary: int, maxGroups: nat): seq<seq<Row>>
    requires maxGroups > 0
    decreases |Between(t, after, boundary)|
  {
    var p := Polled(t, after, boundary, maxGroups);
    if p == [] then [] else
    RoundShrinks(t, after, boundary, maxGroups);
    [p] + Rounds(t, p[|p| - 1].at, boundary, maxGroups)
  }

  lemma RoundShrinks(t: set<Row>, after: int, boundary: int, maxGroups: nat)
    requires maxGroups > 0 && Polled(t, after, boundary, maxGroups) != []
    ensures var p := Polled(t, after, boundary, maxGroups);
            && |Between(t, p[|p| - 1].at, boundary)| < |Between(t, after, boundary)|
            && Ordered(Between(t, after, boundary)) == p + Ordered(Between(t, p[|p| - 1].at, boundary))
  {
    var p := Polled(t, after, boundary, maxGroups);
    PolledMeaning(t, after, boundary, maxGroups);
    hide Polled;
    var hi := p[|p| - 1].at;
    var a, b, w := Between(t, after, hi), Between(t, hi, boundary), Between(t, after, boundary);
    assert w == a + b;
    OrderedMeaning(a);
    assert p[|p| - 1] in p;
    hide Ordered;
    OrderedUnion(a, b);
    assert p[|p| - 1] in a;
    Disjoint(a, b);
  }

  lemma Disjoint(a: set<Row>, b: set<Row>)
    requires a != {} && a !! b
    ensures |b| < |a + b|
  {
    assert |a + b| == |a| + |b|;
  }

  function CeilDiv(a: nat, b: nat): nat
    requires b > 0
    decreases a
  {
    if a == 0 then 0 else 1 + CeilDiv(if a > b then a - b else 0, b)
  }

  /** Draining handles every pending row in order, in as few rounds as the group limit allows. */
  lemma {:induction false} DrainsAll(t: set<Row>, after: int, boundary: int, maxGroups: nat)
    requires maxGroups > 0
    ensures Joined(Rounds(t, after, boundary, maxGroups)) == Ordered(Between(t, after, boundary))
    ensures |Rounds(t, after, boundary, maxGroups)| == CeilDiv(Groups(Ordered(Between(t, after, boundary))), maxGroups)
    decreases |Between(t, after, boundary)|
  {
    var p := Polled(t, after, boundary, maxGroups);
    var s := Ordered(Between(t, after, boundary));
    OrderedMeaning(Between(t, after, boundary));
    TakeGroupsCount(s, maxGroups);
    if p == [] {
      PolledMeaning(t, after, boundary, maxGroups);
    } else {
      RoundShrinks(t, after, boundary, maxGroups);
      var hi := p[|p| - 1].at;
      DrainsAll(t, hi, boundary, maxGroups);
      assert s[|p|..] == Ordered(Between(t, hi, boundary));
      assert Rounds(t, after, boundary, maxGroups)[1..] == Rounds(t, hi, boundary, maxGroups);
      JoinedFirst(Rounds(t, after, boundary, maxGroups));
    }
  }
}
