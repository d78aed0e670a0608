/** How refreshStorms reconciles the stored storm rows with the computed storms
    (internal/storms/storms.go): ids stay with their storms while onsets and ends move. */
module StormRows {
  import opened Common
  import opened Storms

  const MICRO := 1000

  datatype Status = Open | Closed

  datatype Row = Row(startedAt: int, endedAt: Option<int>, total: real, peak: real, source: bool, status: Status)

  /** A row's identifier; rows of equal start are listed in id order. */
  datatype Id = Id(rank: int)

  type Table = map<Id, Row>

  /** Postgres keeps microseconds. */
  function DbTime(t: int): int { t - t % MICRO }

  /** Rounds to hundredths, halves away from zero. */
  function Round2(v: real): real {
    if v >= 0.0 then (v * 100.0 + 0.5).Floor as real / 100.0 else -((-v * 100.0 + 0.5).Floor as real / 100.0)
  }

  /** A computed storm with its rain source (true: an own gauge saw rain during it). */
  datatype Computed = Computed(storm: Storm, gauge: bool)

  function RowFor(c: Computed): Row {
    var s := c.storm;
    Row(DbTime(s.onset), if s.closed then Some(DbTime(s.rainEnd)) else None, Round2(s.total), Round2(s.peak), c.gauge,
        if s.closed then Closed else Open)
  }

  predicate Meets(c: Computed, lo: int, hi: int) { c.storm.rainEnd > lo && c.storm.firstRain < hi }

  /** A row's onset falls inside the storm's rain. */
  predicate InSpan(r: Row, c: Computed) { c.storm.firstRain <= r.startedAt <= c.storm.rainEnd }

  /** The rows the window answers for: they overlap it and begin in it. */
  predicate Owned(r: Row, lo: int, hi: int) {
    lo <= r.startedAt < hi && (r.endedAt.Some? ==> r.endedAt.value > lo)
  }

  predicate Earlier(t: Table, a: Id, b: Id)
    requires a in t && b in t
  {
    t[a].startedAt < t[b].startedAt || (t[a].startedAt == t[b].startedAt && a.rank < b.rank)
  }

  /** Rows of the overlap query that begin in the window, ordered by start, then id. */
  ghost predicate Listing(t: Table, lo: int, hi: int, owned: seq<Id>) {
    && (forall j :: 0 <= j < |owned| ==> owned[j] in t && Owned(t[owned[j]], lo, hi))
    && (forall id <- t :: Owned(t[id], lo, hi) ==> exists j :: 0 <= j < |owned| && owned[j] == id)
    && (forall i, j :: 0 <= i < j < |owned| ==> Earlier(t, owned[i], owned[j]))
  }

  /** Computed storms as the pipeline delivers them: in order, with dry time between them. */
  ghost predicate Spaced(cs: seq<Computed>) {
    && (forall i :: 0 <= i < |cs| ==> cs[i].storm.firstRain <= cs[i].storm.rainEnd)
    && (forall i, j :: 0 <= i < j < |cs| ==> cs[i].storm.rainEnd < cs[j].storm.firstRain)
  }

  // ----- the result of a refresh ------------------------------------------------------------------

  function Kept(cs: seq<Computed>, lo: int, hi: int): seq<Computed> {
    if cs == [] then []
    else
      var n := |cs| - 1;
      if Meets(cs[n], lo, hi) then Kept(cs[..n], lo, hi) + [cs[n]] else Kept(cs[..n], lo, hi)
  }

  /** The row a storm takes over: the earliest owned row whose onset lies in it. */
  ghost predicate Heir(t: Table, lo: int, hi: int, c: Computed, id: Id) {
    && id in t && Owned(t[id], lo, hi) && InSpan(t[id], c)
    && forall o <- t :: Owned(t[o], lo, hi) && InSpan(t[o], c) && o != id ==> Earlier(t, id, o)
  }

  ghost predicate HasHeir(t: Table, lo: int, hi: int, c: Computed) {
    exists o <- t :: Owned(t[o], lo, hi) && InSpan(t[o], c)
  }

  /** After a refresh: one row per storm that meets the window, with its fields, under distinct ids;
      a storm keeps the id of its earliest row or gets a fresh one; rows outside are untouched. */
  ghost predicate Refreshed(t: Table, t': Table, ks: seq<Computed>, lo: int, hi: int, ids: seq<Id>) {
    && |ids| == |ks|
    && (forall i, j :: 0 <= i < j < |ids| ==> ids[i] != ids[j])
    && (forall i :: 0 <= i < |ids| ==> ids[i] in t' && t'[ids[i]] == RowFor(ks[i]))
    && (forall i :: 0 <= i < |ids| ==>
          if HasHeir(t, lo, hi, ks[i]) then Heir(t, lo, hi, ks[i], ids[i]) else ids[i] !in t)
    && (forall id <- t' :: id in ids || (id in t && !Owned(t[id], lo, hi) && t'[id] == t[id]))
    && (forall id <- t :: !Owned(t[id], lo, hi) ==> id in t' && t'[id] == t[id])
  }

  // ----- one storm at a time ------------------------------------------------------------------------

  ghost predicate MatchedAny(r: Row, ks: seq<Computed>) { exists i :: 0 <= i < |ks| && InSpan(r, ks[i]) }

  /** An owned row that one of the storms so far has taken over or deleted. */
  ghost predicate Claimed(t: Table, lo: int, hi: int, ks: seq<Computed>, id: Id) {
    id in t && Owned(t[id], lo, hi) && MatchedAny(t[id], ks)
  }

  /** The table while the storms `ks` have been handled: rows no storm has claimed are still there. */
  ghost predicate Midway(t: Table, cur: Table, ks: seq<Computed>, lo: int, hi: int, ids: seq<Id>) {
    && |ids| == |ks|
    && (forall i, j :: 0 <= i < j < |ids| ==> ids[i] != ids[j])
    && (forall i :: 0 <= i < |ids| ==> ids[i] in cur && cur[ids[i]] == RowFor(ks[i]))
    && (forall i :: 0 <= i < |ids| ==>
          if HasHeir(t, lo, hi, ks[i]) then Heir(t, lo, hi, ks[i], ids[i]) else ids[i] !in t)
    && (forall id <- cur :: id in ids || (id in t && !Claimed(t, lo, hi, ks, id) && cur[id] == t[id]))
    && (forall id <- t :: !Claimed(t, lo, hi, ks, id) ==> id in cur && cur[id] == t[id])
  }

  /** The owned rows a storm claims, except the one whose id it keeps. */
  ghost predicate Superseded(t: Table, lo: int, hi: int, c: Computed, id: Id, o: Id) {
    o in t && Owned(t[o], lo, hi) && InSpan(t[o], c) && o != id
  }

  /** `next` is `cur` after storm `c` took row `id` and deleted the other rows it covers. */
  ghost predicate Absorbed(t: Table, cur: Table, next: Table, lo: int, hi: int, c: Computed, id: Id) {
    && id in next && next[id] == RowFor(c)
    && (forall o :: o in next && o != id <==> o in cur && o != id && !Superseded(t, lo, hi, c, id, o))
    && (forall o <- next :: o != id ==> next[o] == cur[o])
  }

  lemma NotBefore(t: Table, lo: int, hi: int, ks: seq<Computed>, c: Computed, o: Id)
    requires Spaced(ks + [c]) && o in t && InSpan(t[o], c)
    ensures !Claimed(t, lo, hi, ks, o)
  {
    var all := ks + [c];
    forall i | 0 <= i < |ks| ensures !InSpan(t[o], ks[i]) {
      assert all[i] == ks[i] && all[|ks|] == c;
    }
  }

  lemma ClaimedSnoc(t: Table, lo: int, hi: int, ks: seq<Computed>, c: Computed, o: Id)
    ensures Claimed(t, lo, hi, ks + [c], o) <==>
            Claimed(t, lo, hi, ks, o) || (o in t && Owned(t[o], lo, hi) && InSpan(t[o], c))
  {
    var ks' := ks + [c];
    if o in t {
      if MatchedAny(t[o], ks) {
        var i :| 0 <= i < |ks| && InSpan(t[o], ks[i]);
        assert InSpan(t[o], ks'[i]);
      }
      if InSpan(t[o], c) { assert InSpan(t[o], ks'[|ks|]); }
    }
  }

  /** The new storm's id is none of the earlier ones. */
  lemma FreshFor(t: Table, cur: Table, lo: int, hi: int, ks: seq<Computed>, c: Computed, ids: seq<Id>, id: Id)
    requires Midway(t, cur, ks, lo, hi, ids) && Spaced(ks + [c])
    requires if HasHeir(t, lo, hi, c) then Heir(t, lo, hi, c, id) else id !in t && id !in cur
    ensures forall i :: 0 <= i < |ids| ==> ids[i] != id
    ensures forall i :: 0 <= i < |ids| ==> !Superseded(t, lo, hi, c, id, ids[i])
  {
    forall i | 0 <= i < |ids| ensures ids[i] != id && !Superseded(t, lo, hi, c, id, ids[i]) {
      if ids[i] in t {
        assert Heir(t, lo, hi, ks[i], ids[i]);
        if InSpan(t[ids[i]], c) {
          NotBefore(t, lo, hi, ks, c, ids[i]);
          assert MatchedAny(t[ids[i]], ks);
        }
      }
    }
  }

  lemma MidwayStep(t: Table, cur: Table, next: Table, ks: seq<Computed>, c: Computed, lo: int, hi: int, ids: seq<Id>,
                   id: Id)
    requires Midway(t, cur, ks, lo, hi, ids) && Spaced(ks + [c])
    requires if HasHeir(t, lo, hi, c) then Heir(t, lo, hi, c, id) else id !in t && id !in cur
    requires Absorbed(t, cur, next, lo, hi, c, id)
    ensures Midway(t, next, ks + [c], lo, hi, ids + [id])
  {
    hide Heir, HasHeir, Owned, InSpan, Spaced, RowFor, Claimed;
    FreshFor(t, cur, lo, hi, ks, c, ids, id);
    var ks', ids' := ks + [c], ids + [id];
    forall o <- next ensures o in ids' || (o in t && !Claimed(t, lo, hi, ks', o) && next[o] == t[o]) {
      if o == id {
        assert ids'[|ids|] == o;
      } else {
        ClaimedSnoc(t, lo, hi, ks, c, o);
        if o in ids { var i :| 0 <= i < |ids| && ids[i] == o; assert ids'[i] == o; }
      }
    }
    forall o <- t | !Claimed(t, lo, hi, ks', o) ensures o in next && next[o] == t[o] {
      ClaimedSnoc(t, lo, hi, ks, c, o);
      HeirClaimed(t, lo, hi, c, id, o);
    }
    forall i | 0 <= i < |ids'| ensures ids'[i] in next && next[ids'[i]] == RowFor(ks'[i]) {
      if i < |ids| {
        var o := ids[i];
        assert ids'[i] == o && o != id && o in cur && !Superseded(t, lo, hi, c, id, o);
        assert o in next && o != id;
        assert ks'[i] == ks[i];
      }
    }
    forall i | 0 <= i < |ids'|
      ensures if HasHeir(t, lo, hi, ks'[i]) then Heir(t, lo, hi, ks'[i], ids'[i]) else ids'[i] !in t
    {
      if i < |ids| { assert ids'[i] == ids[i] && ks'[i] == ks[i]; }
    }
    forall i, j | 0 <= i < j < |ids'| ensures ids'[i] != ids'[j] {
      assert ids'[i] == ids[i] && (j < |ids| ==> ids'[j] == ids[j]);
    }
  }

  lemma HeirClaimed(t: Table, lo: int, hi: int, c: Computed, id: Id, o: Id)
    requires o in t && !(Owned(t[o], lo, hi) && InSpan(t[o], c))
    requires if HasHeir(t, lo, hi, c) then Heir(t, lo, hi, c, id) else id !in t
    ensures o != id && !Superseded(t, lo, hi, c, id, o)
  {
  }

  /** Deleting the owned rows no storm claimed completes the refresh. */
  lemma MidwayDone(t: Table, cur: Table, next: Table, ks: seq<Computed>, lo: int, hi: int, ids: seq<Id>)
    requires Midway(t, cur, ks, lo, hi, ids)
    requires forall o :: o in next <==> o in cur && !(o in t && Owned(t[o], lo, hi) && !MatchedAny(t[o], ks))
    requires forall o <- next :: next[o] == cur[o]
    ensures Refreshed(t, next, ks, lo, hi, ids)
  {
    hide Owned, RowFor, InSpan;
    forall i | 0 <= i < |ids| ensures ids[i] in next {
      var o := ids[i];
      if o in t {
        assert Heir(t, lo, hi, ks[i], o);
        assert MatchedAny(t[o], ks);
      }
    }
  }

  // ----- the stored rows --------------------------------------------------------------------------------

  /** Rows one storm covers: the first unused one is its match, later ones are deleted as merged. */
  method MatchRows(t: Table, lo: int, hi: int, owned: seq<Id>, used: seq<bool>, cur: Table, c: Computed)
    returns (chosen: int, cur': Table, used': seq<bool>, deleted: nat)
    requires Listing(t, lo, hi, owned) && |used| == |owned|
    requires forall j :: 0 <= j < |owned| && InSpan(t[owned[j]], c) ==> !used[j] && owned[j] in cur
    ensures -1 <= chosen < |owned| && |used'| == |used|
    ensures chosen == -1 ==> forall j :: 0 <= j < |owned| ==> !InSpan(t[owned[j]], c)
    ensures chosen >= 0 ==> InSpan(t[owned[chosen]], c) && forall j :: 0 <= j < chosen ==> !InSpan(t[owned[j]], c)
    ensures forall j :: 0 <= j < |used| ==> used'[j] == (used[j] || InSpan(t[owned[j]], c))
    ensures forall o :: o in cur' <==> o in cur && !Dropped(t, owned, c, chosen, |owned|, o)
    ensures forall o <- cur' :: cur'[o] == cur[o]
    ensures deleted == 0 ==> cur' == cur
    ensures deleted > 0 ==> exists j :: 0 <= j < |owned| && j != chosen && owned[j] in cur && owned[j] !in cur'
  {
    ListedIn(t, lo, hi, owned);
    ghost var hit := Hits(t, owned, c);
    HitsAt(t, owned, c);
    hide InSpan, Listing, Hits, FirstOf, Later, Dropped;
    chosen, cur', used', deleted := ScanMatches(t, owned, used, cur, c, hit);
    FirstOfMeaning(hit);
    MatchedRows(t, owned, c, hit, cur, chosen);
  }

  ghost function Hits(t: Table, owned: seq<Id>, c: Computed): seq<bool>
    requires forall j :: 0 <= j < |owned| ==> owned[j] in t
  {
    seq(|owned|, j requires 0 <= j < |owned| => InSpan(t[owned[j]], c))
  }

  lemma HitsAt(t: Table, owned: seq<Id>, c: Computed)
    requires forall j :: 0 <= j < |owned| ==> owned[j] in t
    ensures |Hits(t, owned, c)| == |owned|
    ensures forall j :: 0 <= j < |owned| ==> Hits(t, owned, c)[j] == InSpan(t[owned[j]], c)
  {
  }

  method ScanMatches(t: Table, owned: seq<Id>, used: seq<bool>, cur: Table, c: Computed, ghost hit: seq<bool>)
      returns (chosen: int, cur': Table, used': seq<bool>, deleted: nat)
    requires |hit| == |used| == |owned|
    requires forall j :: 0 <= j < |owned| ==> owned[j] in t && hit[j] == InSpan(t[owned[j]], c) && (hit[j] ==> !used[j])
    ensures chosen == FirstOf(hit) && |used'| == |used|
    ensures forall i :: 0 <= i < |used| ==> used'[i] == (used[i] || hit[i])
    ensures cur' == cur - Later(owned, hit, |owned|) && (deleted == 0 <==> Later(owned, hit, |owned|) == {})
  {
    hide InSpan;
    chosen, cur', used', deleted := -1, cur, used, 0;
    assert cur - {} == cur;
    for j := 0 to |owned|
      invariant chosen == FirstOf(hit[..j]) && |used'| == |used|
      invariant forall i :: 0 <= i < |used| ==> used'[i] == (used[i] || (i < j && hit[i]))
      invariant cur' == cur - Later(owned, hit, j) && (deleted == 0 <==> Later(owned, hit, j) == {})
    {
      assert hit[..j + 1][..j] == hit[..j];
      if !used[j] && InSpan(t[owned[j]], c) {
        used' := used'[j := true];
        if chosen < 0 {
          chosen := j;
        } else {
          cur' := cur' - {owned[j]};
          deleted := deleted + 1;
        }
      }
    }
    assert hit[..|owned|] == hit;
  }

  lemma ListedIn(t: Table, lo: int, hi: int, owned: seq<Id>)
    requires Listing(t, lo, hi, owned)
    ensures forall j :: 0 <= j < |owned| ==> owned[j] in t
  {
  }

  /** The first index that holds, or -1. */
  ghost function FirstOf(hit: seq<bool>): int {
    if hit == [] then -1 else
    var n := |hit| - 1;
    var p := FirstOf(hit[..n]);
    if p >= 0 then p else if hit[n] then n else -1
  }

  lemma {:induction false} FirstOfMeaning(hit: seq<bool>)
    ensures var p := FirstOf(hit);
            && -1 <= p < |hit| && (p >= 0 ==> hit[p]) && (forall i :: 0 <= i < |hit| && (p == -1 || i < p) ==> !hit[i])
  {
    if hit != [] { FirstOfMeaning(hit[..|hit| - 1]); }
  }

  /** The covered rows after the first, among the first `j`. */
  ghost function Later(owned: seq<Id>, hit: seq<bool>, j: nat): set<Id>
    requires j <= |owned| == |hit|
  {
    if j == 0 then {}
    else Later(owned, hit, j - 1) + (if hit[j - 1] && FirstOf(hit[..j - 1]) >= 0 then {owned[j - 1]} else {})
  }

  lemma {:induction false} LaterMeaning(owned: seq<Id>, hit: seq<bool>, j: nat, o: Id)
    requires j <= |owned| == |hit|
    ensures o in Later(owned, hit, j) <==> exists i :: 0 <= i < j && hit[i] && i != FirstOf(hit[..j]) && owned[i] == o
  {
    if j > 0 {
      LaterMeaning(owned, hit, j - 1, o);
      FirstOfMeaning(hit[..j - 1]);
      assert hit[..j][..j - 1] == hit[..j - 1];
      assert forall i :: 0 <= i < j - 1 ==> hit[..j - 1][i] == hit[i];
      hide Later;
    }
  }

  lemma MatchedRows(t: Table, owned: seq<Id>, c: Computed, hit: seq<bool>, cur: Table, chosen: int)
    requires |hit| == |owned| && forall j :: 0 <= j < |owned| ==> owned[j] in t && hit[j] == InSpan(t[owned[j]], c)
    requires chosen == FirstOf(hit) && forall j :: 0 <= j < |owned| && hit[j] ==> owned[j] in cur
    ensures forall o :: o in Later(owned, hit, |owned|) <==> Dropped(t, owned, c, chosen, |owned|, o)
    ensures Later(owned, hit, |owned|) != {} ==>
              exists j :: 0 <= j < |owned| && j != chosen && owned[j] in cur && owned[j] in Later(owned, hit, |owned|)
  {
    hide InSpan, FirstOf, Later;
    var gone := Later(owned, hit, |owned|);
    assert hit[..|owned|] == hit;
    forall o ensures o in gone <==> Dropped(t, owned, c, chosen, |owned|, o) { LaterMeaning(owned, hit, |owned|, o); }
    if gone != {} {
      var o :| o in gone;
      LaterMeaning(owned, hit, |owned|, o);
      var i :| 0 <= i < |owned| && hit[i] && i != chosen && owned[i] == o;
    }
  }

  /** Row `o` is among the first n listed, covered by the storm, and not its match. */
  ghost predicate Dropped(t: Table, owned: seq<Id>, c: Computed, chosen: int, n: int, o: Id) {
    exists i :: 0 <= i < n <= |owned| && i != chosen && owned[i] == o && o in t && InSpan(t[o], c)
  }

  ghost predicate SortedIds(t: Table, owned: seq<Id>) {
    && (forall j :: 0 <= j < |owned| ==> owned[j] in t)
    && (forall i, j :: 0 <= i < j < |owned| ==> Earlier(t, owned[i], owned[j]))
  }

  /** Inserts an id at its place in the order. */
  function InsertId(t: Table, owned: seq<Id>, id: Id): seq<Id>
    requires id in t && forall j :: 0 <= j < |owned| ==> owned[j] in t
  {
    if owned == [] then [id]
    else if Earlier(t, owned[|owned| - 1], id) then owned + [id]
    else InsertId(t, owned[..|owned| - 1], id) + [owned[|owned| - 1]]
  }

  lemma {:induction false} InsertIdMember(t: Table, owned: seq<Id>, id: Id, x: Id)
    requires id in t && forall j :: 0 <= j < |owned| ==> owned[j] in t
    ensures x in InsertId(t, owned, id) <==> x in owned || x == id
  {
    if owned != [] {
      var rest := owned[..|owned| - 1];
      assert owned == rest + [owned[|owned| - 1]];
      InsertIdMember(t, rest, id, x);
    }
  }

  lemma {:induction false} InsertIdSorted(t: Table, owned: seq<Id>, id: Id)
    requires SortedIds(t, owned) && id in t && id !in owned
    ensures SortedIds(t, InsertId(t, owned, id))
  {
    if owned != [] {
      var n := |owned| - 1;
      var rest, last := owned[..n], owned[n];
      if Earlier(t, last, id) {
        forall i | 0 <= i < n ensures Earlier(t, owned[i], id) { assert Earlier(t, owned[i], last); }
      } else {
        assert last in owned && Earlier(t, id, last);
        assert id !in rest;
        InsertIdSorted(t, rest, id);
        var r := InsertId(t, rest, id);
        forall i | 0 <= i < |r| ensures r[i] in t && Earlier(t, r[i], last) {
          InsertIdMember(t, rest, id, r[i]);
          assert r[i] in r;
          if r[i] != id { var j :| 0 <= j < n && rest[j] == r[i]; assert Earlier(t, owned[j], last); }
        }
        hide Earlier;
      }
    }
  }

  /** The overlap query followed by the filter on the start: the window's rows in order. */
  method ListOwned(t: Table, lo: int, hi: int) returns (owned: seq<Id>)
    ensures Listing(t, lo, hi, owned)
  {
    hide Earlier, Owned, InsertId;
    owned := [];
    var todo := t.Keys;
    while todo != {}
      invariant todo <= t.Keys && SortedIds(t, owned)
      invariant forall x :: x in owned <==> x in t && x !in todo && Owned(t[x], lo, hi)
      decreases todo
    {
      var id :| id in todo;
      assert id !in owned;
      todo := todo - {id};
      if Owned(t[id], lo, hi) {
        InsertIdSorted(t, owned, id);
        forall x ensures x in InsertId(t, owned, id) <==> x in owned || x == id { InsertIdMember(t, owned, id, x); }
        owned := InsertId(t, owned, id);
      }
    }
    forall j | 0 <= j < |owned| ensures owned[j] in t && Owned(t[owned[j]], lo, hi) {
      var x := owned[j];
      assert x in owned;
    }
  }

  /** The chosen row is the earliest one in the storm, if there is one. */
  lemma ChosenIsHeir(t: Table, lo: int, hi: int, owned: seq<Id>, c: Computed, chosen: int)
    requires Listing(t, lo, hi, owned) && -1 <= chosen < |owned|
    requires chosen == -1 ==> forall j :: 0 <= j < |owned| ==> !InSpan(t[owned[j]], c)
    requires chosen >= 0 ==> InSpan(t[owned[chosen]], c) && forall j :: 0 <= j < chosen ==> !InSpan(t[owned[j]], c)
    ensures HasHeir(t, lo, hi, c) <==> chosen >= 0
    ensures chosen >= 0 ==> Heir(t, lo, hi, c, owned[chosen])
  {
    hide Owned, InSpan;
    if HasHeir(t, lo, hi, c) {
      var o :| o in t && Owned(t[o], lo, hi) && InSpan(t[o], c);
      var j :| 0 <= j < |owned| && owned[j] == o;
    }
    if chosen >= 0 {
      var id := owned[chosen];
      forall o <- t | Owned(t[o], lo, hi) && InSpan(t[o], c) && o != id ensures Earlier(t, id, o) {
        var j :| 0 <= j < |owned| && owned[j] == o;
        assert chosen < j;
      }
    }
  }

  /** Something a refresh did that shows in the table and is never undone. */
  ghost predicate Changed(t: Table, lo: int, hi: int, ks: seq<Computed>, ids: seq<Id>)
    requires |ids| == |ks|
  {
    || (exists i :: 0 <= i < |ids| && !(ids[i] in t && t[ids[i]] == RowFor(ks[i])))
    || (exists o :: Claimed(t, lo, hi, ks, o) && o !in ids)
  }

  lemma ChangedShows(t: Table, cur: Table, lo: int, hi: int, ks: seq<Computed>, ids: seq<Id>)
    requires Midway(t, cur, ks, lo, hi, ids)
    ensures Changed(t, lo, hi, ks, ids) <==> cur != t
  {
    hide RowFor, Heir, HasHeir, Claimed;
    if !Changed(t, lo, hi, ks, ids) {
      forall o ensures o in cur <==> o in t {
        if o in cur && o in ids { var i :| 0 <= i < |ids| && ids[i] == o; assert ids[i] in t; }
      }
      forall o <- cur ensures o in t && cur[o] == t[o] {
        if o in ids { var i :| 0 <= i < |ids| && ids[i] == o; }
      }
      assert cur.Keys == t.Keys;
      assert cur == t;
    } else {
      if i :| 0 <= i < |ids| && !(ids[i] in t && t[ids[i]] == RowFor(ks[i])) {
        var o := ids[i];
        assert o in cur && cur[o] == RowFor(ks[i]);
      } else {
        var o :| Claimed(t, lo, hi, ks, o) && o !in ids;
        ClaimedGone(t, cur, lo, hi, ks, ids, o);
      }
    }
  }

  lemma ClaimedGone(t: Table, cur: Table, lo: int, hi: int, ks: seq<Computed>, ids: seq<Id>, o: Id)
    requires Midway(t, cur, ks, lo, hi, ids) && Claimed(t, lo, hi, ks, o) && o !in ids
    ensures o in t && o !in cur
  {
  }

  /** The listed rows inside the next storm's span are unused and still there. */
  lemma StillFree(t: Table, cur: Table, lo: int, hi: int, owned: seq<Id>, used: seq<bool>, c: Computed,
                  ks: seq<Computed>, ids: seq<Id>)
    requires Listing(t, lo, hi, owned) && |used| == |owned|
    requires Midway(t, cur, ks, lo, hi, ids) && Spaced(ks + [c])
    requires forall j :: 0 <= j < |owned| ==> (used[j] <==> MatchedAny(t[owned[j]], ks))
    ensures forall j :: 0 <= j < |owned| && InSpan(t[owned[j]], c) ==> !used[j] && owned[j] in cur
  {
    hide InSpan, RowFor, Heir, HasHeir, Spaced, Claimed;
    forall j | 0 <= j < |owned| && InSpan(t[owned[j]], c) ensures !used[j] && owned[j] in cur {
      NotBefore(t, lo, hi, ks, c, owned[j]);
      UnclaimedRow(t, lo, hi, ks, owned[j]);
      var o := owned[j];
      assert o in t;
    }
  }

  /** The rows other services see, and the next id an insert gets. */
  class StormTable {
    var rows: Table
    var nextId: int

    ghost predicate Valid() reads this { forall id <- rows :: id.rank < nextId }

    /** One computed storm: match, merge, then insert or update. */
    method RefreshOne(t: Table, lo: int, hi: int, owned: seq<Id>, used: seq<bool>, c: Computed,
                      ghost ks: seq<Computed>, ghost ids: seq<Id>)
      returns (id: Id, used': seq<bool>, changes: nat)
      requires Valid() && Listing(t, lo, hi, owned) && |used| == |owned| && forall o <- t :: o.rank < nextId
      requires Midway(t, rows, ks, lo, hi, ids) && Spaced(ks + [c])
      requires forall j :: 0 <= j < |owned| ==> (used[j] <==> MatchedAny(t[owned[j]], ks))
      modifies this
      ensures Valid() && nextId >= old(nextId)
      ensures Midway(t, rows, ks + [c], lo, hi, ids + [id])
      ensures |used'| == |owned| && forall j :: 0 <= j < |owned| ==> (used'[j] <==> MatchedAny(t[owned[j]], ks + [c]))
      ensures changes == 0 <==> rows == old(rows)
    {
      hide Owned, InSpan, Earlier, RowFor, Heir, HasHeir, Spaced, Claimed, Midway, MatchedAny;
      ghost var was := rows;
      StillFree(t, rows, lo, hi, owned, used, c, ks, ids);
      var chosen: int, cur: Table, deleted: nat;
      chosen, cur, used', deleted := MatchRows(t, lo, hi, owned, used, rows, c);
      ChosenIsHeir(t, lo, hi, owned, c, chosen);
      changes := deleted;
      if chosen < 0 {
        id := Id(nextId);
        rows := cur[id := RowFor(c)];
        nextId := nextId + 1;
        changes := changes + 1;
        assert id !in was && id in rows;
      } else {
        id := owned[chosen];
        rows := cur;
        HeirPresent(t, was, cur, lo, hi, ks, c, ids, owned, chosen);
        if t[id] != RowFor(c) {
          rows := cur[id := RowFor(c)];
          changes := changes + 1;
          assert was[id] == t[id] && rows[id] != was[id];
        }
        assert rows == cur[id := RowFor(c)];
      }
      if deleted > 0 {
        DeletedShows(t, was, cur, lo, hi, owned, chosen, id, RowFor(c));
      }
      DroppedIsSuperseded(t, lo, hi, owned, c, chosen, id);
      AbsorbedBy(t, was, cur, lo, hi, c, id);
      MidwayStep(t, was, rows, ks, c, lo, hi, ids, id);
      forall j | 0 <= j < |owned| ensures used'[j] <==> MatchedAny(t[owned[j]], ks + [c]) {
        MatchedSnoc(t[owned[j]], ks, c);
      }
    }

    /** Reconciles the stored rows with the computed storms of the window. */
    method Refresh(cs: seq<Computed>, lo: int, hi: int) returns (ids: seq<Id>, changes: nat)
      requires Valid() && Spaced(cs)
      modifies this
      ensures Valid()
      ensures Refreshed(old(rows), rows, Kept(cs, lo, hi), lo, hi, ids)
      ensures changes == 0 <==> rows == old(rows)
    {
      hide Owned, InSpan, Earlier, RowFor, Heir, HasHeir, Claimed, Meets, Listing, Changed, Midway, Refreshed, Spaced;
      var t := rows;
      var owned := ListOwned(t, lo, hi);
      var used := seq(|owned|, j => false);
      ids, changes := [], 0;
      ghost var ks: seq<Computed> := [];
      StartMidway(t, lo, hi);
      for i := 0 to |cs|
        invariant Valid() && (forall o <- t :: o.rank < nextId)
        invariant ks == Kept(cs[..i], lo, hi) && Midway(t, rows, ks, lo, hi, ids)
        invariant |used| == |owned| && UsedIsMatched(t, lo, hi, owned, used, ks)
        invariant changes == 0 <==> rows == t
      {
        var c := cs[i];
        assert cs[..i + 1][..i] == cs[..i];
        if Meets(c, lo, hi) {
          KeptSpaced(cs, i, lo, hi);
          ghost var was := rows;
          var id, n: nat;
          id, used, n := RefreshOne(t, lo, hi, owned, used, c, ks, ids);
          ChangedStep(t, was, rows, lo, hi, ks, c, ids, id);
          ids, ks, changes := ids + [id], ks + [c], changes + n;
        }
      }
      assert cs[..|cs|] == cs;
      var n: nat;
      ghost var cur := rows;
      rows, n := DeleteUnused(t, lo, hi, owned, used, rows, ks, ids);
      FinalChange(t, cur, rows, lo, hi, ks, ids);
      changes := changes + n;
    }
  }

  /** The used marks are exactly the rows some storm so far covers. */
  ghost predicate UsedIsMatched(t: Table, lo: int, hi: int, owned: seq<Id>, used: seq<bool>, ks: seq<Computed>)
    requires |used| == |owned|
  {
    Listing(t, lo, hi, owned) && forall j :: 0 <= j < |owned| ==> (used[j] <==> MatchedAny(t[owned[j]], ks))
  }

  lemma StartMidway(t: Table, lo: int, hi: int)
    ensures Midway(t, t, [], lo, hi, [])
  {
  }

  lemma {:induction false} KeptFrom(cs: seq<Computed>, lo: int, hi: int, k: nat) returns (i: nat)
    requires k < |Kept(cs, lo, hi)|
    ensures i < |cs| && cs[i] == Kept(cs, lo, hi)[k]
  {
    var n := |cs| - 1;
    if k < |Kept(cs[..n], lo, hi)| { i := KeptFrom(cs[..n], lo, hi, k); } else { i := n; }
  }

  lemma {:induction false} KeptOrdered(cs: seq<Computed>, lo: int, hi: int)
    requires Spaced(cs)
    ensures Spaced(Kept(cs, lo, hi))
  {
    if cs != [] {
      var n := |cs| - 1;
      KeptOrdered(cs[..n], lo, hi);
      var rest := Kept(cs[..n], lo, hi);
      forall k | 0 <= k < |rest| ensures rest[k].storm.rainEnd < cs[n].storm.firstRain {
        var i := KeptFrom(cs[..n], lo, hi, k);
        assert cs[i] == rest[k];
      }
    }
  }

  lemma KeptSpaced(cs: seq<Computed>, i: nat, lo: int, hi: int)
    requires Spaced(cs) && i < |cs| && Meets(cs[i], lo, hi)
    ensures Kept(cs[..i + 1], lo, hi) == Kept(cs[..i], lo, hi) + [cs[i]]
    ensures Spaced(Kept(cs[..i], lo, hi) + [cs[i]])
  {
    assert cs[..i + 1][..i] == cs[..i];
    KeptOrdered(cs[..i + 1], lo, hi);
  }

  lemma ChangedStep(t: Table, was: Table, cur: Table, lo: int, hi: int, ks: seq<Computed>, c: Computed, ids: seq<Id>,
                    id: Id)
    requires Midway(t, was, ks, lo, hi, ids) && Midway(t, cur, ks + [c], lo, hi, ids + [id]) && Spaced(ks + [c])
    ensures was != t ==> cur != t
  {
    hide RowFor, Owned, InSpan, Spaced, Changed, Claimed, HasHeir, Heir;
    ChangedShows(t, was, lo, hi, ks, ids);
    ChangedShows(t, cur, lo, hi, ks + [c], ids + [id]);
    LastUnclaimed(t, cur, lo, hi, ks, c, ids, id);
    if Changed(t, lo, hi, ks, ids) { StaysChanged(t, lo, hi, ks, c, ids, id); }
  }

  /** The row the newest storm takes was claimed by none before it. */
  lemma LastUnclaimed(t: Table, cur: Table, lo: int, hi: int, ks: seq<Computed>, c: Computed, ids: seq<Id>, id: Id)
    requires Midway(t, cur, ks + [c], lo, hi, ids + [id]) && |ids| == |ks| && Spaced(ks + [c])
    ensures !Claimed(t, lo, hi, ks, id)
  {
    hide RowFor, Owned, InSpan, Spaced, MatchedAny, HasHeir;
    assert (ks + [c])[|ks|] == c && (ids + [id])[|ids|] == id;
    if HasHeir(t, lo, hi, c) { NotBefore(t, lo, hi, ks, c, id); }
  }

  lemma StaysChanged(t: Table, lo: int, hi: int, ks: seq<Computed>, c: Computed, ids: seq<Id>, id: Id)
    requires |ids| == |ks| && Changed(t, lo, hi, ks, ids) && !Claimed(t, lo, hi, ks, id)
    ensures Changed(t, lo, hi, ks + [c], ids + [id])
  {
    hide RowFor, Owned, InSpan, MatchedAny, Claimed;
    var ks', ids' := ks + [c], ids + [id];
    if i :| 0 <= i < |ids| && !(ids[i] in t && t[ids[i]] == RowFor(ks[i])) {
      assert ids'[i] == ids[i] && ks'[i] == ks[i];
    } else {
      var o :| Claimed(t, lo, hi, ks, o) && o !in ids;
      ClaimedSnoc(t, lo, hi, ks, c, o);
      assert o !in ids';
    }
  }

  /** Deletes the listed rows that no storm used. */
  method DeleteUnused(t: Table, lo: int, hi: int, owned: seq<Id>, used: seq<bool>, cur: Table, ghost ks: seq<Computed>,
                      ghost ids: seq<Id>)
    returns (next: Table, deleted: nat)
    requires |used| == |owned| && UsedIsMatched(t, lo, hi, owned, used, ks) && Midway(t, cur, ks, lo, hi, ids)
    ensures next.Keys <= cur.Keys && Refreshed(t, next, ks, lo, hi, ids)
    ensures forall o <- next :: next[o] == cur[o]
    ensures deleted == 0 ==> next == cur
    ensures deleted > 0 ==> exists o :: o in cur && o in t && o !in next
  {
    hide Owned, RowFor, Heir, HasHeir, InSpan, Refreshed, Earlier;
    next, deleted := cur, 0;
    for j := 0 to |owned|
      invariant forall o :: o in next <==> o in cur && !Unused(owned, used, j, o)
      invariant forall o <- next :: next[o] == cur[o]
      invariant deleted == 0 ==> next == cur
      invariant deleted > 0 ==> exists o :: o in cur && o in t && o !in next
    {
      var id := owned[j];
      UnusedStep(owned, used, j);
      if !used[j] {
        assert !Claimed(t, lo, hi, ks, id);
        assert id in t && id in cur;
        ghost var before := next;
        next := next - {id};
        deleted := deleted + 1;
        assert forall o :: o in next <==> o in before && o != id;
        assert id in cur && id in t && id !in next;
      }
    }
    forall o ensures o in next <==> o in cur && !(o in t && Owned(t[o], lo, hi) && !MatchedAny(t[o], ks)) {
      if Unused(owned, used, |owned|, o) { var j :| 0 <= j < |owned| && !used[j] && owned[j] == o; }
      if o in t && Owned(t[o], lo, hi) && !MatchedAny(t[o], ks) {
        var j :| 0 <= j < |owned| && owned[j] == o;
        assert !used[j];
      }
    }
    MidwayDone(t, cur, next, ks, lo, hi, ids);
  }

  ghost predicate Unused(owned: seq<Id>, used: seq<bool>, n: int, o: Id)
    requires |used| == |owned|
  {
    exists j :: 0 <= j < n <= |owned| && !used[j] && owned[j] == o
  }

  lemma UnusedStep(owned: seq<Id>, used: seq<bool>, n: int)
    requires |used| == |owned| && 0 <= n < |owned|
    ensures forall o :: Unused(owned, used, n + 1, o) <==> Unused(owned, used, n, o) || (!used[n] && o == owned[n])
  {
    forall o ensures Unused(owned, used, n + 1, o) <==> Unused(owned, used, n, o) || (!used[n] && o == owned[n]) {
      if Unused(owned, used, n, o) {
        var j :| 0 <= j < n && !used[j] && owned[j] == o;
        assert owned[j] == o;
      }
    }
  }

  lemma FinalChange(t: Table, cur: Table, next: Table, lo: int, hi: int, ks: seq<Computed>, ids: seq<Id>)
    requires Midway(t, cur, ks, lo, hi, ids) && Refreshed(t, next, ks, lo, hi, ids) && next.Keys <= cur.Keys
    ensures cur != t ==> next != t
  {
    hide RowFor, Heir, HasHeir, Owned;
    ChangedShows(t, cur, lo, hi, ks, ids);
    if Changed(t, lo, hi, ks, ids) {
      if i :| 0 <= i < |ids| && !(ids[i] in t && t[ids[i]] == RowFor(ks[i])) {
        var o := ids[i];
        assert o in next && next[o] == RowFor(ks[i]);
      } else {
        var o :| Claimed(t, lo, hi, ks, o) && o !in ids;
        ClaimedGone(t, cur, lo, hi, ks, ids, o);
        assert o !in next;
      }
    }
  }

  // ----- refreshing again ---------------------------------------------------------------------------------

  /** The storm's own row begins in the window, overlaps it, and has its onset in the storm's rain, so that the next
      refresh finds it again. */
  predicate FindsBack(c: Computed, lo: int, hi: int) { Owned(RowFor(c), lo, hi) && InSpan(RowFor(c), c) }

  /** In a refreshed table the window owns exactly the storms' rows. */
  lemma OwnedAfter(t: Table, t': Table, ks: seq<Computed>, lo: int, hi: int, ids: seq<Id>, o: Id)
    requires Refreshed(t, t', ks, lo, hi, ids) && o in t' && Owned(t'[o], lo, hi)
    ensures exists i :: 0 <= i < |ids| && ids[i] == o && t'[o] == RowFor(ks[i])
  {
    hide Owned, RowFor, Heir, HasHeir;
    assert o in ids;
    var i :| 0 <= i < |ids| && ids[i] == o;
  }

  /** Each storm finds its own row again. */
  lemma SameHeir(t: Table, t': Table, ks: seq<Computed>, lo: int, hi: int, ids: seq<Id>, i: nat, id: Id)
    requires Refreshed(t, t', ks, lo, hi, ids) && Spaced(ks) && i < |ks|
    requires forall j :: 0 <= j < |ks| ==> FindsBack(ks[j], lo, hi)
    ensures HasHeir(t', lo, hi, ks[i]) && (Heir(t', lo, hi, ks[i], id) ==> id == ids[i])
  {
    hide Owned, RowFor, InSpan, Spaced, Earlier;
    var o := ids[i];
    assert o in t' && t'[o] == RowFor(ks[i]);
    if Heir(t', lo, hi, ks[i], id) {
      OwnedAfter(t, t', ks, lo, hi, ids, id);
      var j :| 0 <= j < |ids| && ids[j] == id && t'[id] == RowFor(ks[j]);
      OneSpan(ks, i, j, t'[id]);
    }
  }

  /** A row's onset lies in at most one storm. */
  lemma OneSpan(ks: seq<Computed>, i: nat, j: nat, r: Row)
    requires Spaced(ks) && i < |ks| && j < |ks| && InSpan(r, ks[i]) && InSpan(r, ks[j])
    ensures i == j
  {
  }

  /** A second refresh with the same storms leaves the table as it is exactly if every storm finds its row back; then
      every id stays as well. */
  lemma RefreshTwice(t: Table, t': Table, t'': Table, ks: seq<Computed>, lo: int, hi: int, ids: seq<Id>, ids': seq<Id>)
    requires Refreshed(t, t', ks, lo, hi, ids) && Refreshed(t', t'', ks, lo, hi, ids') && Spaced(ks)
    ensures t'' == t' <==> forall i :: 0 <= i < |ks| ==> FindsBack(ks[i], lo, hi)
    ensures t'' == t' ==> ids' == ids
  {
    hide FindsBack, Spaced, Refreshed;
    if t'' == t' {
      forall i | 0 <= i < |ks| ensures FindsBack(ks[i], lo, hi) { MustFindBack(t', ks, lo, hi, ids', i); }
    }
    if forall i :: 0 <= i < |ks| ==> FindsBack(ks[i], lo, hi) { SecondSame(t, t', t'', ks, lo, hi, ids, ids'); }
  }

  /** A refresh that changes nothing took over each storm's own row. */
  lemma MustFindBack(t: Table, ks: seq<Computed>, lo: int, hi: int, ids: seq<Id>, i: nat)
    requires Refreshed(t, t, ks, lo, hi, ids) && i < |ks|
    ensures FindsBack(ks[i], lo, hi)
  {
    hide Owned, InSpan, RowFor, Earlier;
    assert ids[i] in t && t[ids[i]] == RowFor(ks[i]);
    assert HasHeir(t, lo, hi, ks[i]) && Heir(t, lo, hi, ks[i], ids[i]);
  }

  lemma SecondSame(t: Table, t': Table, t'': Table, ks: seq<Computed>, lo: int, hi: int, ids: seq<Id>, ids': seq<Id>)
    requires Refreshed(t, t', ks, lo, hi, ids) && Refreshed(t', t'', ks, lo, hi, ids')
    requires Spaced(ks) && forall i :: 0 <= i < |ks| ==> FindsBack(ks[i], lo, hi)
    ensures t'' == t' && ids' == ids
  {
    hide Owned, RowFor, FindsBack, Spaced, Heir, HasHeir;
    forall i | 0 <= i < |ks| ensures ids'[i] == ids[i] { SameHeir(t, t', ks, lo, hi, ids, i, ids'[i]); }
    assert ids' == ids;
    forall o ensures o in t'' <==> o in t' {
      if o in t' && Owned(t'[o], lo, hi) {
        OwnedAfter(t, t', ks, lo, hi, ids, o);
        var i :| 0 <= i < |ids| && ids[i] == o;
        assert ids'[i] in t'';
      }
      if o in t'' && o in ids { var i :| 0 <= i < |ids| && ids[i] == o; assert ids[i] in t'; }
    }
    assert t''.Keys == t'.Keys;
    forall o <- t'' ensures o in t' && t''[o] == t'[o] {
      if o in ids { var i :| 0 <= i < |ids| && ids[i] == o; }
    }
  }

  /** Among the listed rows, dropped means superseded. */
  lemma DroppedIsSuperseded(t: Table, lo: int, hi: int, owned: seq<Id>, c: Computed, chosen: int, id: Id)
    requires Listing(t, lo, hi, owned) && -1 <= chosen < |owned|
    requires if chosen >= 0 then id == owned[chosen] else id !in t
    ensures forall o :: Dropped(t, owned, c, chosen, |owned|, o) <==> Superseded(t, lo, hi, c, id, o)
  {
    hide Owned, InSpan;
    forall o ensures Dropped(t, owned, c, chosen, |owned|, o) <==> Superseded(t, lo, hi, c, id, o) {
      if Dropped(t, owned, c, chosen, |owned|, o) {
        var i :| 0 <= i < |owned| && i != chosen && owned[i] == o && o in t && InSpan(t[o], c);
        if chosen >= 0 {
          assert i < chosen ==> Earlier(t, owned[i], owned[chosen]);
          assert chosen < i ==> Earlier(t, owned[chosen], owned[i]);
        }
      }
      if Superseded(t, lo, hi, c, id, o) {
        var i :| 0 <= i < |owned| && owned[i] == o;
      }
    }
  }

  lemma AbsorbedBy(t: Table, was: Table, cur: Table, lo: int, hi: int, c: Computed, id: Id)
    requires forall o :: o in cur <==> o in was && !Superseded(t, lo, hi, c, id, o)
    requires forall o <- cur :: cur[o] == was[o]
    ensures Absorbed(t, was, cur[id := RowFor(c)], lo, hi, c, id)
  {
    hide RowFor, Superseded;
  }

  /** The row a storm keeps has not been touched so far. */
  lemma HeirPresent(t: Table, was: Table, cur: Table, lo: int, hi: int, ks: seq<Computed>, c: Computed, ids: seq<Id>,
                    owned: seq<Id>, chosen: int)
    requires Midway(t, was, ks, lo, hi, ids) && Spaced(ks + [c]) && Listing(t, lo, hi, owned)
    requires 0 <= chosen < |owned| && InSpan(t[owned[chosen]], c)
    requires forall o :: o in cur <==> o in was && !Dropped(t, owned, c, chosen, |owned|, o)
    requires forall o <- cur :: cur[o] == was[o]
    ensures var id := owned[chosen]; id in t && id in was && was[id] == t[id] && id in cur && cur[id] == t[id]
  {
    hide Owned, InSpan, RowFor, Heir, HasHeir, Spaced, Claimed;
    var id := owned[chosen];
    NotBefore(t, lo, hi, ks, c, id);
    assert id in t && id in was;
    DroppedIsSuperseded(t, lo, hi, owned, c, chosen, id);
    assert !Superseded(t, lo, hi, c, id, id);
  }

  lemma DeletedShows(t: Table, was: Table, cur: Table, lo: int, hi: int, owned: seq<Id>, chosen: int, id: Id, r: Row)
    requires Listing(t, lo, hi, owned) && -1 <= chosen < |owned|
    requires if chosen >= 0 then id == owned[chosen] else id !in t
    requires exists j :: 0 <= j < |owned| && j != chosen && owned[j] in was && owned[j] !in cur
    ensures cur[id := r] != was
  {
    hide Owned;
    var j :| 0 <= j < |owned| && j != chosen && owned[j] in was && owned[j] !in cur;
    var o := owned[j];
    if chosen >= 0 {
      assert j < chosen ==> Earlier(t, owned[j], owned[chosen]);
      assert chosen < j ==> Earlier(t, owned[chosen], owned[j]);
    }
    assert o != id && o in was && o !in cur[id := r];
  }

  lemma MatchedSnoc(r: Row, ks: seq<Computed>, c: Computed)
    ensures MatchedAny(r, ks + [c]) <==> MatchedAny(r, ks) || InSpan(r, c)
  {
    hide InSpan;
    var all := ks + [c];
    assert all[|ks|] == c;
    if MatchedAny(r, ks) {
      var i :| 0 <= i < |ks| && InSpan(r, ks[i]);
      assert all[i] == ks[i];
    }
  }

  lemma UnclaimedRow(t: Table, lo: int, hi: int, ks: seq<Computed>, o: Id)
    requires o in t && Owned(t[o], lo, hi) && !Claimed(t, lo, hi, ks, o)
    ensures !MatchedAny(t[o], ks)
  {
  }
}
