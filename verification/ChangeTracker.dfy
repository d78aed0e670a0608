/** One delivery per row version, over writers that commit late (internal/gateway/watch.go). */
module ChangeTracker {

  datatype Version = Version(id: int, at: int)

  /** What the tracker remembers: the newest stamp seen, and the last stamp of each row. */
  datatype Memory = Memory(mark: int, seen: map<int, int>)

  function Since(overlap: nat, m: Memory): int { m.mark - overlap }

  predicate IsNew(m: Memory, v: Version) { v.id !in m.seen || m.seen[v.id] != v.at }

  /** Remembering versions one by one. */
  function Noted(m: Memory, vs: seq<Version>): Memory {
    if vs == [] then m else
    var p := Noted(m, vs[..|vs| - 1]);
    var v := vs[|vs| - 1];
    Memory(if v.at > p.mark then v.at else p.mark, p.seen[v.id := v.at])
  }

  /** Forgets stamps older than the overlap. */
  function Pruned(overlap: nat, m: Memory): Memory {
    Memory(m.mark, map id | id in m.seen && m.seen[id] >= Since(overlap, m) :: m.seen[id])
  }

  class Tracker {
    const overlap: nat
    var mark: int
    var seen: map<int, int>

    constructor (overlap: nat, now: int)
      ensures this.overlap == overlap && Remembered() == Memory(now, map[])
    {
      this.overlap, mark, seen := overlap, now, map[];
    }

    function Remembered(): Memory
      reads this
    {
      Memory(mark, seen)
    }

    /** Records what a round read, then forgets what no later query can return. */
    method Record(vs: seq<Version>)
      modifies this
      ensures Remembered() == Pruned(overlap, Noted(old(Remembered()), vs))
      ensures forall id <- seen :: seen[id] >= mark - overlap
    {
      for i := 0 to |vs|
        invariant Remembered() == Noted(old(Remembered()), vs[..i])
      {
        assert vs[..i + 1][..i] == vs[..i];
        seen := seen[vs[i].id := vs[i].at];
        if vs[i].at > mark { mark := vs[i].at; }
      }
      assert vs[..|vs|] == vs;
      var noted := Remembered();
      seen := map id | id in noted.seen && noted.seen[id] >= Since(overlap, noted) :: noted.seen[id];
    }

    /** The versions of a query's rows that were not seen before; nothing is recorded if the round fails. */
    method Round(rows: seq<Version>, fails: bool) returns (published: seq<Version>)
      modifies this
      ensures fails ==> published == [] && Remembered() == old(Remembered())
      ensures !fails ==> published == NewOnes(old(Remembered()), rows)
      ensures !fails ==> Remembered() == Pruned(overlap, Noted(old(Remembered()), published))
    {
      published := [];
      for i := 0 to |rows|
        invariant published == NewOnes(Remembered(), rows[..i])
      {
        assert rows[..i + 1][..i] == rows[..i];
        if rows[i].id !in seen || seen[rows[i].id] != rows[i].at { published := published + [rows[i]]; }
      }
      assert rows[..|rows|] == rows;
      if fails { return []; }
      Record(published);
    }
  }

  function NewOnes(m: Memory, rows: seq<Version>): seq<Version> {
    if rows == [] then [] else
    NewOnes(m, rows[..|rows| - 1]) + (if IsNew(m, rows[|rows| - 1]) then [rows[|rows| - 1]] else [])
  }

  lemma {:induction false} NewOnesMeaning(m: Memory, rows: seq<Version>)
    ensures forall v :: v in NewOnes(m, rows) <==> v in rows && IsNew(m, v)
  {
    if rows != [] {
      var n := |rows| - 1;
      NewOnesMeaning(m, rows[..n]);
      assert rows == rows[..n] + [rows[n]];
    }
  }

  /** Each row has one version. */
  ghost predicate OnePerRow(vs: seq<Version>) { forall a, b :: 0 <= a < b < |vs| ==> vs[a].id != vs[b].id }

  lemma {:induction false} NotedMeaning(m: Memory, vs: seq<Version>, hi: int)
    requires OnePerRow(vs) && m.mark <= hi && forall v <- vs :: v.at <= hi
    ensures var n := Noted(m, vs);
            && m.mark <= n.mark <= hi
            && (forall v <- vs :: v.id in n.seen && n.seen[v.id] == v.at && v.at <= n.mark)
            && (forall id :: id in n.seen <==> id in m.seen || exists v :: v in vs && v.id == id)
            && (forall id :: id in m.seen && (forall v <- vs :: v.id != id) ==> n.seen[id] == m.seen[id])
  {
    if vs != [] {
      var k := |vs| - 1;
      assert vs == vs[..k] + [vs[k]];
      forall v <- vs[..k] ensures v.at <= hi { assert v in vs; }
      NotedMeaning(m, vs[..k], hi);
      var p, n := Noted(m, vs[..k]), Noted(m, vs);
      forall v <- vs ensures v.id in n.seen && n.seen[v.id] == v.at && v.at <= n.mark {
        if v in vs[..k] {
          var a :| 0 <= a < k && vs[..k][a] == v;
          assert vs[a].id != vs[k].id;
        }
      }
      forall id ensures id in n.seen <==> id in m.seen || exists v :: v in vs && v.id == id {
        if id == vs[k].id { assert vs[k] in vs; }
        if v :| v in vs[..k] && v.id == id { assert v in vs; }
      }
      forall id | id in m.seen && (forall v <- vs :: v.id != id) ensures n.seen[id] == m.seen[id] {
        forall v <- vs[..k] ensures v.id != id { assert v in vs; }
        assert vs[k] in vs;
      }
    }
  }

  // ----- writers, commits and rounds ----------------------------------------------------------------------

  /** The table's current versions, those ever committed and when, the tracker, and what was published. */
  datatype State = State(now: int, start: int, rows: map<int, int>, committed: map<Version, int>, memory: Memory,
                         published: set<Version>)

  datatype Step = Tick(to: int) | Commit(v: Version) | Round(rows: seq<Version>) | FailedRound

  /** A round's query returns the current rows stamped after the tracker's bound, each once. */
  ghost predicate Query(overlap: nat, s: State, rows: seq<Version>) {
    OnePerRow(rows) && forall v :: v in rows <==>
        v.id in s.rows && s.rows[v.id] == v.at && v.at > Since(overlap, s.memory)
  }

  ghost predicate Enabled(overlap: nat, s: State, e: Step) {
    match e
    case Tick(to) => s.now <= to
    case Commit(v) => v.at <= s.now && v !in s.committed
    case Round(rows) => Query(overlap, s, rows)
    case FailedRound => true
  }

  ghost function Apply(overlap: nat, s: State, e: Step): State {
    match e
    case Tick(to) => s.(now := to)
    case Commit(v) => s.(rows := s.rows[v.id := v.at], committed := s.committed[v := s.now])
    case Round(rows) =>
      var new_ := NewOnes(s.memory, rows);
      s.(memory := Pruned(overlap, Noted(s.memory, new_)), published := s.published + set v <- new_)
    case FailedRound => s
  }

  predicate Initial(s: State) {
    && s.now == s.start && s.memory == Memory(s.start, map[]) && s.published == {}
    && (forall id <- s.rows :: Version(id, s.rows[id]) in s.committed && s.rows[id] <= s.start)
    && (forall v <- s.committed :: s.committed[v] < s.start)
  }

  /** The row's current version. */
  predicate Current(s: State, v: Version) { v.id in s.rows && s.rows[v.id] == v.at }

  /** It committed after the hub started and less than the overlap after its stamp. */
  predicate Timely(overlap: nat, s: State, v: Version) {
    v in s.committed && s.committed[v] >= s.start && s.committed[v] < v.at + overlap
  }

  ghost predicate Sane(s: State) {
    && s.start <= s.now && s.memory.mark <= s.now
    && (forall id <- s.rows :: s.rows[id] <= s.now && Version(id, s.rows[id]) in s.committed)
    && (forall v <- s.published :: v in s.committed)
  }

  /** A published version that is still current is remembered, or too old to be asked for again. */
  ghost predicate NotAgain(overlap: nat, s: State) {
    forall v <- s.published :: Current(s, v) ==> !IsNew(s.memory, v) || v.at <= Since(overlap, s.memory)
  }

  /** What is remembered was published. */
  ghost predicate SeenPublished(s: State) {
    forall id <- s.memory.seen :: Version(id, s.memory.seen[id]) in s.published
  }

  /** A timely current version is published, or the next query returns it. */
  ghost predicate StillToCome(overlap: nat, s: State) {
    forall v <- s.committed :: Current(s, v) && Timely(overlap, s, v) ==>
        v in s.published || v.at > Since(overlap, s.memory)
  }

  ghost predicate Inv(overlap: nat, s: State) {
    Sane(s) && NotAgain(overlap, s) && SeenPublished(s) && StillToCome(overlap, s)
  }

  lemma CommitKeeps(overlap: nat, s: State, v: Version)
    requires Inv(overlap, s) && Enabled(overlap, s, Commit(v))
    ensures Inv(overlap, Apply(overlap, s, Commit(v)))
  {
    var s' := Apply(overlap, s, Commit(v));
    assert v !in s.published;
    assert NotAgain(overlap, s') by { forall x <- s'.published | Current(s', x) ensures Current(s, x) {} }
    assert StillToCome(overlap, s') by {
      forall x <- s'.committed | Current(s', x) && Timely(overlap, s', x)
        ensures x in s'.published || x.at > Since(overlap, s'.memory) {
        if x != v { assert x.id != v.id; assert Current(s, x) && Timely(overlap, s, x); }
      }
    }
  }

  /** A round publishes only versions never published before. */
  lemma RoundNew(overlap: nat, s: State, rows: seq<Version>, v: Version)
    requires Inv(overlap, s) && Query(overlap, s, rows) && v in NewOnes(s.memory, rows)
    ensures v !in s.published && Current(s, v) && v in s.committed
  {
    NewOnesMeaning(s.memory, rows);
  }

  lemma {:induction false} NewOnesOnce(m: Memory, rows: seq<Version>)
    requires OnePerRow(rows)
    ensures OnePerRow(NewOnes(m, rows))
  {
    if rows != [] {
      var n := |rows| - 1;
      NewOnesOnce(m, rows[..n]);
      NewOnesMeaning(m, rows[..n]);
      var p := NewOnes(m, rows[..n]);
      forall a | 0 <= a < |p| ensures p[a].id != rows[n].id {
        assert p[a] in p && p[a] in rows[..n];
        var b :| 0 <= b < n && rows[..n][b] == p[a];
        assert rows[b].id != rows[n].id;
      }
    }
  }

  lemma RoundFacts(overlap: nat, s: State, rows: seq<Version>)
    requires Inv(overlap, s) && Query(overlap, s, rows)
    ensures var n := Noted(s.memory, NewOnes(s.memory, rows));
            && s.memory.mark <= n.mark <= s.now
            && (forall v <- NewOnes(s.memory, rows) :: v.id in n.seen && n.seen[v.id] == v.at)
            && (forall id <- n.seen ::
                  Version(id, n.seen[id]) in NewOnes(s.memory, rows)
                  || (id in s.memory.seen && n.seen[id] == s.memory.seen[id]))
            && (forall id <- s.memory.seen ::
                  && id in n.seen
                  && (n.seen[id] == s.memory.seen[id] || exists v :: v in NewOnes(s.memory, rows) && v.id == id))
  {
    var new_ := NewOnes(s.memory, rows);
    NewOnesMeaning(s.memory, rows);
    NewOnesOnce(s.memory, rows);
    forall v <- new_ ensures v.at <= s.now { assert Current(s, v); }
    NotedMeaning(s.memory, new_, s.now);
    hide NewOnes, Noted, Query, Inv, OnePerRow;
    var n := Noted(s.memory, new_);
    forall id <- n.seen
      ensures Version(id, n.seen[id]) in new_ || (id in s.memory.seen && n.seen[id] == s.memory.seen[id]) {
      if v :| v in new_ && v.id == id { assert v == Version(id, n.seen[id]); }
    }
  }

  lemma RoundNotAgain(overlap: nat, s: State, rows: seq<Version>)
    requires Inv(overlap, s) && Query(overlap, s, rows)
    ensures NotAgain(overlap, Apply(overlap, s, Round(rows)))
  {
    var s' := Apply(overlap, s, Round(rows));
    var new_, n := NewOnes(s.memory, rows), Noted(s.memory, NewOnes(s.memory, rows));
    RoundFacts(overlap, s, rows);
    hide NewOnes, Noted;
    forall v <- s'.published | Current(s', v) ensures !IsNew(s'.memory, v) || v.at <= Since(overlap, s'.memory) {
      if v !in new_ {
        assert v in s.published && Current(s, v);
        if x :| x in new_ && x.id == v.id { RoundNew(overlap, s, rows, x); }
      }
    }
  }

  lemma RoundSane(overlap: nat, s: State, rows: seq<Version>)
    requires Inv(overlap, s) && Query(overlap, s, rows)
    ensures Sane(Apply(overlap, s, Round(rows))) && SeenPublished(Apply(overlap, s, Round(rows)))
  {
    var s' := Apply(overlap, s, Round(rows));
    RoundFacts(overlap, s, rows);
    hide NewOnes, Noted, NotAgain, StillToCome;
    forall v <- s'.published ensures v in s'.committed {
      if v !in s.published { RoundNew(overlap, s, rows, v) by { assert Inv(overlap, s); } }
    }
  }

  /** After a round every timely current version has been published. */
  lemma RoundCatches(overlap: nat, s: State, rows: seq<Version>, v: Version)
    requires Inv(overlap, s) && Query(overlap, s, rows) && v in s.committed && Current(s, v) && Timely(overlap, s, v)
    ensures v in s.published || v in NewOnes(s.memory, rows)
  {
    NewOnesMeaning(s.memory, rows);
    hide NewOnes, NotAgain, Sane;
    SeenMeans(s, v);
  }

  lemma SeenMeans(s: State, v: Version)
    requires SeenPublished(s)
    ensures IsNew(s.memory, v) || v in s.published
  {
    assert !IsNew(s.memory, v) ==> v == Version(v.id, s.memory.seen[v.id]);
  }

  lemma RoundKeeps(overlap: nat, s: State, rows: seq<Version>)
    requires Inv(overlap, s) && Query(overlap, s, rows)
    ensures Inv(overlap, Apply(overlap, s, Round(rows)))
  {
    var s' := Apply(overlap, s, Round(rows));
    RoundNotAgain(overlap, s, rows);
    RoundSane(overlap, s, rows);
    assert StillToCome(overlap, s') by {
      hide NewOnes, Noted, Pruned, Inv, Query;
      forall v <- s'.committed | Current(s', v) && Timely(overlap, s', v) ensures v in s'.published {
        assert Current(s, v) && Timely(overlap, s, v);
        RoundCatches(overlap, s, rows, v);
      }
    }
  }

  lemma StepKeeps(overlap: nat, s: State, e: Step)
    requires Inv(overlap, s) && Enabled(overlap, s, e)
    ensures Inv(overlap, Apply(overlap, s, e))
  {
    match e
    case Commit(v) => CommitKeeps(overlap, s, v);
    case Round(rows) => hide Inv, Apply; RoundKeeps(overlap, s, rows);
    case _ =>
  }

  ghost predicate Run(overlap: nat, states: seq<State>, steps: seq<Step>) {
    && |states| == |steps| + 1 && Initial(states[0])
    && forall i :: 0 <= i < |steps| ==>
         Enabled(overlap, states[i], steps[i]) && states[i + 1] == Apply(overlap, states[i], steps[i])
  }

  lemma {:induction false} RunKeeps(overlap: nat, states: seq<State>, steps: seq<Step>)
    requires Run(overlap, states, steps)
    ensures Inv(overlap, states[|steps|])
  {
    hide Enabled, Apply, Inv;
    if steps == [] {
      assert Inv(overlap, states[0]) by { StartInv(overlap, states[0]); }
    } else {
      var n := |steps| - 1;
      RunKeeps(overlap, states[..n + 1], steps[..n]);
      StepKeeps(overlap, states[n], steps[n]);
    }
  }

  lemma StartInv(overlap: nat, s: State)
    requires Initial(s)
    ensures Inv(overlap, s)
  {
  }

  /** In every run, each round publishes no version a second time, and publishes every current version that
      committed after the start and less than the overlap after its stamp, unless it was published before. */
  lemma ExactlyOnce(overlap: nat, states: seq<State>, steps: seq<Step>, rows: seq<Version>)
    requires Run(overlap, states, steps) && Query(overlap, states[|steps|], rows)
    ensures var s := states[|steps|];
            var new_ := NewOnes(s.memory, rows);
            && OnePerRow(new_) && (forall v <- new_ :: v !in s.published)
            && (forall v <- s.committed :: Current(s, v) && Timely(overlap, s, v) ==> v in s.published || v in new_)
  {
    var s := states[|steps|];
    RunKeeps(overlap, states, steps);
    NewOnesOnce(s.memory, rows);
    hide NewOnes, Inv, Query;
    forall v <- s.committed | Current(s, v) && Timely(overlap, s, v)
      ensures v in s.published || v in NewOnes(s.memory, rows) {
      RoundCatches(overlap, s, rows, v);
    }
    forall v <- NewOnes(s.memory, rows) ensures v !in s.published { RoundNew(overlap, s, rows, v); }
  }

  /** For every overlap, a version that commits exactly the overlap after its stamp can be missed. */
  lemma OverlapIsTight(overlap: nat, t: int) returns (states: seq<State>, steps: seq<Step>, v: Version)
    ensures Run(overlap, states, steps) && v.at == t && v in states[|steps|].committed && Current(states[|steps|], v)
    ensures states[|steps|].committed[v] == t + overlap >= states[|steps|].start
    ensures v !in states[|steps|].published && forall rows :: Query(overlap, states[|steps|], rows) ==> v !in rows
  {
    var c := t + overlap;
    v := Version(1, t);
    var s0 := State(c, c, map[], map[], Memory(c, map[]), {});
    states, steps := [s0, Apply(overlap, s0, Commit(v))], [Commit(v)];
  }
}
