/** The polling consumer and its watermark (internal/watermark/consumer.go,
    internal/store/sqlcgen/watermarks.sql.go). */
module Watermark {
  import opened Common

  /** A table row: when its transaction began, and the rank of its key among rows of equal age. */
  datatype Row = Row(at: int, key: int)

  predicate RowLess(a: Row, b: Row) { a.at < b.at || (a.at == b.at && a.key < b.key) }

  ghost predicate Ascending(s: seq<Row>) { forall a, b :: 0 <= a < b < |s| ==> RowLess(s[a], s[b]) }

  // ----- rows in order -----------------------------------------------------------------------------------

  lemma {:induction false} HasLast(t: set<Row>)
    requires t != {}
    ensures exists r :: IsLast(t, r)
    decreases |t|
  {
    var x :| x in t;
    var u := t - {x};
    if u == {} {
      assert IsLast(t, x) by { forall y <- t ensures y == x { assert y !in u; } }
    } else {
      HasLast(u);
      var y :| IsLast(u, y);
      var z := if RowLess(x, y) then y else x;
      forall r <- t ensures r == z || RowLess(r, z) { assert r == x || r in u; }
      assert IsLast(t, z);
    }
  }

  ghost predicate IsLast(t: set<Row>, r: Row) { r in t && forall x <- t :: x == r || RowLess(x, r) }

  ghost function Last(t: set<Row>): Row
    requires t != {}
  {
    HasLast(t);
    var r :| IsLast(t, r); r
  }

  /** The rows of a set, oldest first. */
  ghost function Ordered(t: set<Row>): seq<Row>
    decreases |t|
  {
    if t == {} then [] else
    var r := LastIn(t);
    Ordered(t - {r}) + [r]
  }

  ghost function LastIn(t: set<Row>): (r: Row)
    requires t != {}
    ensures r in t
  {
    Last(t)
  }

  lemma {:induction false} OrderedMeaning(t: set<Row>)
    ensures Ascending(Ordered(t)) && (forall r :: r in Ordered(t) <==> r in t)
    decreases |t|
  {
    if t != {} {
      var r := Last(t);
      OrderedMeaning(t - {r});
      var o := Ordered(t - {r});
      forall a | 0 <= a < |o| ensures RowLess(o[a], r) { assert o[a] in o; }
      hide Ordered;
    }
  }

  /** An ascending list is the ordered form of its rows. */
  lemma {:induction false} OrderedUnique(s: seq<Row>, t: set<Row>)
    requires Ascending(s) && forall r :: r in s <==> r in t
    ensures s == Ordered(t)
    decreases |t|
  {
    if s == [] {
      assert t == {};
    } else {
      var n := |s| - 1;
      var last := s[n];
      assert last in t;
      assert IsLast(t, last) by {
        forall x <- t ensures x == last || RowLess(x, last) { assert x in s; }
      }
      assert Last(t) == last;
      assert s == s[..n] + [last];
      forall r ensures r in s[..n] <==> r in t - {last} {
        if r in s[..n] { assert r in s; }
      }
      OrderedUnique(s[..n], t - {last});
    }
  }

  /** Rows of a later set come after those of an earlier one. */
  lemma OrderedUnion(a: set<Row>, b: set<Row>)
    requires forall x, y :: x in a && y in b ==> RowLess(x, y)
    ensures Ordered(a + b) == Ordered(a) + Ordered(b)
  {
    OrderedMeaning(a);
    OrderedMeaning(b);
    hide Ordered;
    var p, q := Ordered(a), Ordered(b);
    forall i, j | 0 <= i < j < |p + q| ensures RowLess((p + q)[i], (p + q)[j]) {
      if i < |p| { assert p[i] in p; }
      if j >= |p| { assert q[j - |p|] in q; }
    }
    OrderedUnique(p + q, a + b);
  }

  // ----- the poll query ------------------------------------------------------------------------------------

  /** Rows whose stamp lies in (after, upto]. */
  ghost function Between(t: set<Row>, after: int, upto: int): set<Row> { set r <- t | after < r.at <= upto }

  /** How many rows at the front of a list share the first one's stamp. */
  function Group(s: seq<Row>): (n: nat)
    requires s != []
    ensures 1 <= n <= |s|
  {
    if |s| > 1 && s[1].at == s[0].at then 1 + Group(s[1..]) else 1
  }

  /** The first `n` whole groups of equal stamps. */
  function TakeGroups(s: seq<Row>, n: nat): seq<Row> {
    if s == [] || n == 0 then [] else s[..Group(s)] + TakeGroups(s[Group(s)..], n - 1)
  }

  /** How many different stamps there are in an ascending list. */
  function Groups(s: seq<Row>): nat {
    if s == [] then 0 else 1 + Groups(s[Group(s)..])
  }

  /** One poll: the oldest groups after the watermark that the lag boundary allows. */
  ghost function Polled(t: set<Row>, after: int, boundary: int, maxGroups: nat): seq<Row> {
    TakeGroups(Ordered(Between(t, after, boundary)), maxGroups)
  }

  lemma {:induction false} GroupMeaning(s: seq<Row>)
    requires s != [] && Ascending(s)
    ensures forall a :: 0 <= a < Group(s) ==> s[a].at == s[0].at
    ensures forall a :: Group(s) <= a < |s| ==> s[a].at > s[0].at
  {
    if |s| > 1 {
      var r := s[1..];
      assert RowLess(s[0], s[1]);
      GroupMeaning(r);
      forall a | 0 <= a < Group(s) ensures s[a].at == s[0].at { if a > 0 { assert s[a] == r[a - 1]; } }
      forall a | Group(s) <= a < |s| ensures s[a].at > s[0].at {
        assert s[a] == r[a - 1];
        if s[1].at != s[0].at && a > 1 { assert RowLess(s[1], s[a]); }
      }
    }
  }

  lemma {:induction false} TakeGroupsPrefix(s: seq<Row>, n: nat)
    ensures TakeGroups(s, n) <= s && (n > 0 && s != [] ==> TakeGroups(s, n) != [])
  {
    if s != [] && n > 0 {
      var g := Group(s);
      TakeGroupsPrefix(s[g..], n - 1);
      assert s == s[..g] + s[g..];
    }
  }

  lemma AscendingPart(s: seq<Row>, g: nat)
    requires Ascending(s) && g <= |s|
    ensures Ascending(s[g..]) && Ascending(s[..g])
  {
  }

  /** A poll never splits a group: what it leaves has later stamps. */
  lemma {:induction false} TakeGroupsWhole(s: seq<Row>, n: nat, a: nat, b: nat)
    requires Ascending(s) && a < |TakeGroups(s, n)| <= b < |s|
    ensures s[a].at < s[b].at
  {
    hide TakeGroups, Ascending, Group;
    TakeStep(s, n);
    var g := Group(s);
    if a >= g {
      AscendingPart(s, g);
      TakeGroupsWhole(s[g..], n - 1, a - g, b - g);
    } else {
      GroupFirst(s, a, b);
    }
  }

  lemma TakeStep(s: seq<Row>, n: nat)
    requires TakeGroups(s, n) != []
    ensures s != [] && n > 0 && |TakeGroups(s, n)| == Group(s) + |TakeGroups(s[Group(s)..], n - 1)|
  {
    hide Group;
  }

  lemma GroupFirst(s: seq<Row>, a: nat, b: nat)
    requires s != [] && Ascending(s) && a < Group(s) <= b < |s|
    ensures s[a].at < s[b].at
  {
    GroupMeaning(s);
  }

  /** A poll takes as many groups as it may, or all there are. */
  lemma {:induction false} TakeGroupsCount(s: seq<Row>, n: nat)
    requires Ascending(s)
    ensures |TakeGroups(s, n)| <= |s|
    ensures Groups(s[|TakeGroups(s, n)|..]) == if Groups(s) < n then 0 else Groups(s) - n
  {
    if s != [] && n > 0 {
      var g := Group(s);
      AscendingPart(s, g);
      TakeGroupsCount(s[g..], n - 1);
      assert s[|TakeGroups(s, n)|..] == s[g..][|TakeGroups(s[g..], n - 1)|..];
    } else {
      assert s[|TakeGroups(s, n)|..] == s;
    }
  }

  /** Polled rows are all rows between the watermark and the last of them; nothing is left if none came. */
  lemma PolledMeaning(t: set<Row>, after: int, boundary: int, maxGroups: nat)
    requires maxGroups > 0
    ensures var p := Polled(t, after, boundary, maxGroups);
            && (p == [] ==> Between(t, after, boundary) == {})
            && (p != [] ==> after < p[|p| - 1].at <= boundary && p == Ordered(Between(t, after, p[|p| - 1].at)))
  {
    var w := Between(t, after, boundary);
    var s, p := Ordered(w), Polled(t, after, boundary, maxGroups);
    OrderedMeaning(w);
    TakeGroupsPrefix(s, maxGroups);
    if p == [] {
      forall r ensures r !in w {}
    } else {
      var hi := p[|p| - 1];
      assert hi == s[|p| - 1] && hi in s;
      assert Ascending(p) by { AscendingPart(s, |p|); assert p == s[..|p|]; }
      forall r ensures r in p <==> r in Between(t, after, hi.at) { PolledMember(t, after, boundary, maxGroups, r); }
      OrderedUnique(p, Between(t, after, hi.at));
    }
  }

  lemma PrefixMembers(s: seq<Row>, p: seq<Row>)
    requires p <= s
    ensures forall b :: 0 <= b < |p| ==> s[b] in p
  {
    forall b | 0 <= b < |p| ensures s[b] in p { assert s[b] == p[b]; }
  }

  lemma PolledMember(t: set<Row>, after: int, boundary: int, maxGroups: nat, r: Row)
    requires Polled(t, after, boundary, maxGroups) != []
    ensures var p := Polled(t, after, boundary, maxGroups);
            p[|p| - 1].at <= boundary && (r in p <==> r in Between(t, after, p[|p| - 1].at))
  {
    var w := Between(t, after, boundary);
    var s, p := Ordered(w), Polled(t, after, boundary, maxGroups);
    OrderedMeaning(w);
    TakeGroupsPrefix(s, maxGroups);
    assert p <= s && p == TakeGroups(s, maxGroups);
    PrefixMembers(s, p);
    hide Ordered, TakeGroups;
    var hi := |p| - 1;
    assert s[hi] == p[hi] && s[hi] in s;
    if r in p {
      var a :| 0 <= a < |p| && p[a] == r;
      assert s[a] == r && r in s;
      if a < hi { assert RowLess(s[a], s[hi]); }
    } else if r in s {
      var b :| 0 <= b < |s| && s[b] == r;
      TakeGroupsWhole(s, maxGroups, hi, b);
    }
  }

  /** Where a successful poll leaves the watermark. */
  function NewMark(after: int, rows: seq<Row>, boundary: int): int {
    if rows == [] then (if boundary > after then boundary else after) else Newest(after, rows)
  }

  /** The latest stamp handled, or the old watermark. */
  function Newest(after: int, rows: seq<Row>): int {
    if rows == [] then after else
    var m := Newest(after, rows[..|rows| - 1]);
    if rows[|rows| - 1].at > m then rows[|rows| - 1].at else m
  }

  lemma {:induction false} NewestIsLast(after: int, rows: seq<Row>)
    requires Ascending(rows) && forall a :: 0 <= a < |rows| ==> rows[a].at > after
    ensures Newest(after, rows) == if rows == [] then after else rows[|rows| - 1].at
  {
    if rows != [] {
      var n := |rows| - 1;
      NewestIsLast(after, rows[..n]);
      if n > 0 { assert RowLess(rows[n - 1], rows[n]); }
    }
  }

  /** A watermark that was never stored reads as the epoch. */
  function MarkOf(mark: Option<int>): int { if mark.Some? then mark.value else 0 }

  /** All rows at or below a watermark, oldest first: what the committed effects should be. */
  ghost function UpTo(t: set<Row>, mark: int): seq<Row> { Ordered(set r <- t | r.at <= mark) }

  /** One successful poll extends the handled rows from one watermark to the next, exactly. */
  lemma PollAdvances(t: set<Row>, after: int, boundary: int, maxGroups: nat)
    requires maxGroups > 0
    ensures var p := Polled(t, after, boundary, maxGroups);
            var m := NewMark(after, p, boundary);
            && UpTo(t, m) == UpTo(t, after) + p
            && after <= m && (m == after || m <= boundary)
            && (p == [] ==> m >= boundary)
  {
    var p := Polled(t, after, boundary, maxGroups);
    var m := NewMark(after, p, boundary);
    PolledMeaning(t, after, boundary, maxGroups);
    hide Ordered, Polled;
    var old_, new_ := set r <- t | r.at <= after, set r <- t | r.at <= m;
    if p == [] {
      assert UpTo(t, after) + p == UpTo(t, after);
      forall r ensures r in new_ <==> r in old_ { assert r !in Between(t, after, boundary); }
      assert new_ == old_;
    } else {
      var w := Between(t, after, p[|p| - 1].at);
      OrderedMeaning(w);
      forall a | 0 <= a < |p| ensures p[a].at > after { assert p[a] in p; }
      NewestIsLast(after, p);
      assert new_ == old_ + w;
      OrderedUnion(old_, w);
    }
  }

  // ----- one consumer and its stages -------------------------------------------------------------------------

  /** The stages of one consumer: stored watermark, committed effects and in-memory handler state of each. */
  class Consumer {
    const stages: nat
    const lag: nat
    const maxGroups: nat
    var mark: seq<Option<int>>
    var effects: seq<seq<Row>>
    var memory: seq<seq<Row>>

    ghost predicate Valid()
      reads this
    {
      |mark| == stages && |effects| == stages && |memory| == stages && maxGroups > 0
    }

    constructor (stages: nat, lag: nat, maxGroups: nat)
      requires maxGroups > 0
      ensures Valid() && this.stages == stages && this.lag == lag && this.maxGroups == maxGroups
      ensures forall i :: 0 <= i < stages ==> mark[i] == None && effects[i] == [] && memory[i] == []
    {
      this.stages, this.lag, this.maxGroups := stages, lag, maxGroups;
      mark := seq(stages, i => None);
      effects := seq(stages, i => []);
      memory := seq(stages, i => []);
    }

    /** One stage's transaction over the rows its poll read; `fails` if the handler or the commit does. */
    method RunStage(i: nat, rows: seq<Row>, now: int, fails: bool) returns (n: Option<nat>)
      requires Valid() && i < stages
      modifies this
      ensures Valid() && n == (if fails then None else Some(|rows|))
      ensures fails ==> mark == old(mark) && effects == old(effects) && memory == old(memory)[i := []]
      ensures !fails ==>
                effects == old(effects)[i := old(effects[i]) + rows]
                && memory == old(memory)[i := old(memory[i]) + rows]
      ensures !fails ==> MarkOf(mark[i]) == NewMark(MarkOf(old(mark[i])), rows, now - lag)
      ensures forall j :: 0 <= j < stages && j != i ==> mark[j] == old(mark[j])
    {
      var after := MarkOf(mark[i]);
      if fails {
        memory := memory[i := []];
        return None;
      }
      assert old(memory[i]) + [] == old(memory[i]) && old(effects[i]) + [] == old(effects[i]);
      var newMark := after;
      if rows == [] {
        if now - lag > newMark { newMark := now - lag; }
      } else {
        memory := memory[i := memory[i] + rows];
        effects := effects[i := effects[i] + rows];
        newMark := NewestOf(after, rows);
      }
      if newMark > after { mark := mark[i := Some(newMark)]; }
      return Some(|rows|);
    }

    /** Keeps the latest of the stamps handled. */
    method NewestOf(after: int, rows: seq<Row>) returns (m: int)
      ensures m == Newest(after, rows) >= after
    {
      m := after;
      for a := 0 to |rows|
        invariant m == Newest(after, rows[..a]) >= after
      {
        assert rows[..a + 1][..a] == rows[..a];
        if rows[a].at > m { m := rows[a].at; }
      }
      assert rows[..|rows|] == rows;
    }

    /** The stage has handled exactly the table's rows up to its watermark. */
    ghost predicate Covered(i: nat, table: set<Row>)
      requires i < |mark| && i < |effects|
      reads this
    {
      effects[i] == UpTo(table, MarkOf(mark[i]))
    }

    /** A stage that reads by the poll query stays covered, and reaches the lag boundary when nothing comes. */
    method AdvanceStage(i: nat, table: set<Row>, rows: seq<Row>, now: int, fails: bool) returns (n: Option<nat>)
      requires Valid() && i < stages && Covered(i, table)
      requires rows == Polled(table, MarkOf(mark[i]), now - lag, maxGroups)
      modifies this
      ensures Valid() && Covered(i, table) && n == (if fails then None else Some(|rows|))
      ensures mark[i] == old(mark[i]) || !fails
      ensures effects[i] == if fails then old(effects[i]) else old(effects[i]) + rows
      ensures n == Some(0) ==> MarkOf(mark[i]) >= now - lag
      ensures forall j :: 0 <= j < stages && j != i ==> mark[j] == old(mark[j]) && effects[j] == old(effects[j])
    {
      hide Ordered, Polled, NewMark, UpTo;
      PollAdvances(table, MarkOf(mark[i]), now - lag, maxGroups);
      n := RunStage(i, rows, now, fails);
    }

    /** One round over the stages in order, each in its own transaction with its own clock reading `nows[i]` and its
        table as it stands then; a failure ends the round. */
    method RunOnce(tables: seq<set<Row>>, polls: seq<seq<Row>>, nows: seq<int>, fails: seq<bool>)
        returns (total: nat, ok: bool)
      requires Valid() && |tables| == |polls| == |nows| == |fails| == stages
      requires forall i :: 0 <= i < stages ==> Covered(i, tables[i])
      requires forall i :: 0 <= i < stages ==> polls[i] == Polled(tables[i], MarkOf(mark[i]), nows[i] - lag, maxGroups)
      modifies this
      ensures Valid() && forall i :: 0 <= i < stages ==> Covered(i, tables[i])
      ensures ok <==> true !in fails
      ensures ok ==> total == TotalRows(polls) && forall i :: 0 <= i < stages ==>
                effects[i] == old(effects[i]) + polls[i]
      ensures forall i, j :: 0 <= i <= j < stages && fails[i] ==>
                mark[j] == old(mark[j]) && effects[j] == old(effects[j])
      ensures ok && total == 0 ==> forall i :: 0 <= i < stages ==> MarkOf(mark[i]) >= nows[i] - lag
    {
      hide Ordered, Polled, UpTo, MarkOf, TotalRows;
      total := 0;
      NoRows(polls);
      for i := 0 to stages
        invariant Valid() && (forall j :: 0 <= j < i ==> !fails[j]) && total == TotalRows(polls[..i])
        invariant forall j :: 0 <= j < stages ==> Covered(j, tables[j])
        invariant forall j :: 0 <= j < i ==> effects[j] == old(effects[j]) + polls[j]
        invariant forall j :: i <= j < stages ==> mark[j] == old(mark[j]) && effects[j] == old(effects[j])
        invariant total == 0 ==> forall j :: 0 <= j < i ==> MarkOf(mark[j]) >= nows[j] - lag
      {
        MoreRows(polls, i);
        var n := AdvanceStage(i, tables[i], polls[i], nows[i], fails[i]);
        if n == None {
          ok := false;
          assert fails[i];
          return;
        }
        total := total + n.value;
      }
      ok := true;
    }
  }

  lemma NoRows(polls: seq<seq<Row>>)
    ensures TotalRows(polls[..0]) == 0 && TotalRows(polls[..|polls|]) == TotalRows(polls)
  {
    assert polls[..|polls|] == polls;
  }

  lemma MoreRows(polls: seq<seq<Row>>, i: nat)
    requires i < |polls|
    ensures TotalRows(polls[..i + 1]) == TotalRows(polls[..i]) + |polls[i]|
  {
    assert polls[..i + 1][..i] == polls[..i];
  }

  function TotalRows(polls: seq<seq<Row>>): nat {
    if polls == [] then 0 else TotalRows(polls[..|polls| - 1]) + |polls[|polls| - 1]|
  }
}
