/** The idempotent bulk insert (internal/store/bulk.go). */
module BulkStore {
  import opened Common

  datatype Key = Key(dev: int, ts: int, fCnt: int)

  datatype Row = Row(key: Key, val: int)

  datatype Result = Result(accepted: nat, duplicates: nat, rejected: nat)

  /** One telemetry table and the devices table (with the time each was last seen). */
  datatype Data = Data(rows: map<Key, int>, devices: map<int, Option<int>>)

  function Later(seen: Option<int>, ts: int): Option<int> {
    Some(if seen.Some? && seen.value > ts then seen.value else ts)
  }

  // ----- one row at a time: what an insert means ------------------------------------------------------------

  predicate Refused(auto: bool, devices: map<int, Option<int>>, r: Row) { !auto && r.key.dev !in devices }

  function Touch(devices: map<int, Option<int>>, r: Row): map<int, Option<int>> {
    devices[r.key.dev := if r.key.dev in devices then Later(devices[r.key.dev], r.key.ts) else Some(r.key.ts)]
  }

  function Put(t: map<Key, int>, r: Row): map<Key, int> { if r.key in t then t else t[r.key := r.val] }

  function PutRow(auto: bool, d: Data, r: Row): Data {
    if Refused(auto, d.devices, r) then d else Data(Put(d.rows, r), Touch(d.devices, r))
  }

  function PutAll(auto: bool, d: Data, rows: seq<Row>): Data {
    if rows == [] then d else PutRow(auto, PutAll(auto, d, rows[..|rows| - 1]), rows[|rows| - 1])
  }

  /** What happens to one row: it is refused, new, or there already. */
  function CountRow(auto: bool, d: Data, r: Row): Result {
    if Refused(auto, d.devices, r) then Result(0, 0, 1) else if r.key in d.rows then Result(0, 1, 0)
    else Result(1, 0, 0)
  }

  function Plus(a: Result, b: Result): Result {
    Result(a.accepted + b.accepted, a.duplicates + b.duplicates, a.rejected + b.rejected)
  }

  function CountAll(auto: bool, d: Data, rows: seq<Row>): Result {
    if rows == [] then Result(0, 0, 0) else
    var n := |rows| - 1;
    Plus(CountAll(auto, d, rows[..n]), CountRow(auto, PutAll(auto, d, rows[..n]), rows[n]))
  }

  /** Cutting a list of rows into batches changes neither the stored data nor the totals. */
  lemma {:induction false} BatchingIrrelevant(auto: bool, d: Data, a: seq<Row>, b: seq<Row>)
    ensures PutAll(auto, d, a + b) == PutAll(auto, PutAll(auto, d, a), b)
    ensures CountAll(auto, d, a + b) == Plus(CountAll(auto, d, a), CountAll(auto, PutAll(auto, d, a), b))
  {
    hide PutRow, CountRow;
    if b == [] {
      assert a + b == a;
    } else {
      var n := |b| - 1;
      BatchingIrrelevant(auto, d, a, b[..n]);
      assert (a + b)[..|a| + n] == a + b[..n];
    }
  }

  /** Every row is accounted for once; a new row adds one key, and nothing else does. */
  lemma {:induction false} CountsAddUp(auto: bool, d: Data, rows: seq<Row>)
    ensures var c := CountAll(auto, d, rows);
            && c.accepted + c.duplicates + c.rejected == |rows|
            && |PutAll(auto, d, rows).rows| == |d.rows| + c.accepted
  {
    if rows != [] {
      var n := |rows| - 1;
      CountsAddUp(auto, d, rows[..n]);
      PutSize(PutAll(auto, d, rows[..n]).rows, rows[n]);
    }
  }

  lemma PutSize(t: map<Key, int>, r: Row)
    ensures |Put(t, r)| == if r.key in t then |t| else |t| + 1
  {
    if r.key !in t {
      assert Put(t, r).Keys == t.Keys + {r.key};
      assert |Put(t, r)| == |Put(t, r).Keys| && |t| == |t.Keys|;
    }
  }

  /** A stored row is never changed. */
  lemma {:induction false} StoredStays(auto: bool, d: Data, rows: seq<Row>, k: Key)
    requires k in d.rows
    ensures k in PutAll(auto, d, rows).rows && PutAll(auto, d, rows).rows[k] == d.rows[k]
  {
    if rows != [] { StoredStays(auto, d, rows[..|rows| - 1], k); }
  }

  /** The row is stored under its key, or its device is unknown and senders are not registered. */
  predicate Landed(auto: bool, d: Data, r: Row) { r.key in d.rows || Refused(auto, d.devices, r) }

  /** Inserts never register or forget a device unless they are told to register. */
  lemma {:induction false} DevicesKept(auto: bool, d: Data, rows: seq<Row>)
    ensures var e := PutAll(auto, d, rows).devices;
            (forall x :: x in d.devices ==> x in e) && (!auto ==> forall x :: x in e ==> x in d.devices)
  {
    if rows != [] { DevicesKept(auto, d, rows[..|rows| - 1]); }
  }

  lemma LandedStays(auto: bool, d: Data, rows: seq<Row>, r: Row)
    requires Landed(auto, d, r)
    ensures Landed(auto, PutAll(auto, d, rows), r)
  {
    DevicesKept(auto, d, rows);
    if r.key in d.rows { StoredStays(auto, d, rows, r.key); }
  }

  lemma PutLands(auto: bool, d: Data, r: Row, x: Row)
    ensures Landed(auto, PutRow(auto, d, r), r)
    ensures Landed(auto, d, x) ==> Landed(auto, PutRow(auto, d, r), x)
  {
  }

  /** After an insert every row of the batch has landed. */
  lemma {:induction false} LandsAt(auto: bool, d: Data, rows: seq<Row>, i: nat)
    requires i < |rows|
    ensures Landed(auto, PutAll(auto, d, rows), rows[i])
  {
    hide Landed, PutRow;
    var n := |rows| - 1;
    PutLands(auto, PutAll(auto, d, rows[..n]), rows[n], rows[i]);
    if i < n { LandsAt(auto, d, rows[..n], i); }
  }

  lemma AllLand(auto: bool, d: Data, rows: seq<Row>)
    ensures forall r <- rows :: Landed(auto, PutAll(auto, d, rows), r)
  {
    hide Landed, PutAll;
    forall r <- rows ensures Landed(auto, PutAll(auto, d, rows), r) {
      var i :| 0 <= i < |rows| && rows[i] == r;
      LandsAt(auto, d, rows, i);
    }
  }

  /** A stored value was there before or came with the first row of its key. */
  lemma {:induction false} FirstWins(auto: bool, d: Data, rows: seq<Row>, k: Key)
    requires k in PutAll(auto, d, rows).rows && k !in d.rows
    ensures exists i ::
              0 <= i < |rows| && rows[i] == Row(k, PutAll(auto, d, rows).rows[k])
              && k !in PutAll(auto, d, rows[..i]).rows
  {
    var n := |rows| - 1;
    if k in PutAll(auto, d, rows[..n]).rows {
      FirstWins(auto, d, rows[..n], k);
      var i :| 0 <= i < n && rows[..n][i] == Row(k, PutAll(auto, d, rows[..n]).rows[k])
        && k !in PutAll(auto, d, rows[..n][..i]).rows;
      assert rows[..n][..i] == rows[..i];
      assert rows[i] == rows[..n][i];
    } else {
      assert rows[n].key == k;
    }
  }

  /** Inserting rows that have all landed changes no row and accepts none. */
  lemma {:induction false} AgainNothing(auto: bool, d: Data, rows: seq<Row>)
    requires forall r <- rows :: Landed(auto, d, r)
    ensures PutAll(auto, d, rows).rows == d.rows && CountAll(auto, d, rows).accepted == 0
  {
    if rows != [] {
      var n := |rows| - 1;
      AgainNothing(auto, d, rows[..n]);
      DevicesKept(auto, d, rows[..n]);
      assert rows[n] in rows;
    }
  }

  // ----- what an insert leaves -------------------------------------------------------------------------------------

  /** The store takes rows of this device: it knows it, or registers whoever sends. */
  predicate Takes(auto: bool, d: Data, dev: int) { auto || dev in d.devices }

  /** Exactly the rows of taken devices are stored, unless their key already was. */
  lemma {:induction false} StoredExactly(auto: bool, d: Data, rows: seq<Row>, k: Key)
    ensures k in PutAll(auto, d, rows).rows <==>
            k in d.rows || (Takes(auto, d, k.dev) && exists i :: 0 <= i < |rows| && rows[i].key == k)
  {
    if rows != [] {
      hide PutAll;
      var n := |rows| - 1;
      StoredExactly(auto, d, rows[..n], k);
      PutLast(auto, d, rows);
      DevicesKept(auto, d, rows[..n]);
      hide Touch;
      if i :| 0 <= i < |rows| && rows[i].key == k { if i < n { assert rows[..n][i].key == k; } }
      if i :| 0 <= i < n && rows[..n][i].key == k { assert rows[i].key == k; }
    }
  }

  lemma PutLast(auto: bool, d: Data, rows: seq<Row>)
    requires rows != []
    ensures PutAll(auto, d, rows) == PutRow(auto, PutAll(auto, d, rows[..|rows| - 1]), rows[|rows| - 1])
  {
  }

  /** How many rows come from devices that are not taken. */
  function Strangers(auto: bool, d: Data, rows: seq<Row>): nat {
    if rows == [] then 0 else
    Strangers(auto, d, rows[..|rows| - 1]) + if Takes(auto, d, rows[|rows| - 1].key.dev) then 0 else 1
  }

  lemma {:induction false} RejectedExactly(auto: bool, d: Data, rows: seq<Row>)
    ensures CountAll(auto, d, rows).rejected == Strangers(auto, d, rows)
  {
    if rows != [] {
      RejectedExactly(auto, d, rows[..|rows| - 1]);
      DevicesKept(auto, d, rows[..|rows| - 1]);
    }
  }

  /** When a device was last seen, before or by one of its rows. */
  ghost predicate SeenAt(d: Data, rows: seq<Row>, dev: int, t: int) {
    (dev in d.devices && d.devices[dev] == Some(t)) || exists i :: 0 <= i < |rows| && FromAt(rows[i], dev, t)
  }

  predicate FromAt(r: Row, dev: int, t: int) { r.key.dev == dev && r.key.ts == t }

  /** Senders are registered if they may be, and every taken device's last-seen time is the latest of what it was and of
      its rows' times; others stay as they were. */
  lemma {:induction false} DevicesExactly(auto: bool, d: Data, rows: seq<Row>, dev: int)
    ensures var e := PutAll(auto, d, rows).devices;
            && (dev in e <==> dev in d.devices || (auto && exists t :: SeenAt(d, rows, dev, t)))
            && (dev in e ==> (e[dev] == None <==> !exists t :: SeenAt(d, rows, dev, t)))
            && (dev in e && e[dev].Some? ==>
                  SeenAt(d, rows, dev, e[dev].value) && forall t :: SeenAt(d, rows, dev, t) ==> t <= e[dev].value)
  {
    if rows == [] {
      if dev in d.devices && d.devices[dev].Some? { assert SeenAt(d, rows, dev, d.devices[dev].value); }
    } else {
      hide PutAll, SeenAt;
      var n := |rows| - 1;
      DevicesExactly(auto, d, rows[..n], dev);
      PutLast(auto, d, rows);
      DevicesKept(auto, d, rows[..n]);
      forall t ensures SeenAt(d, rows, dev, t) <==> SeenAt(d, rows[..n], dev, t) || FromAt(rows[n], dev, t) {
        SeenLast(d, rows, dev, t);
      }
      if rows[n].key.dev == dev { assert FromAt(rows[n], dev, rows[n].key.ts); }
      if t :| SeenAt(d, rows[..n], dev, t) { assert SeenAt(d, rows, dev, t); }
      hide Put, FromAt;
    }
  }

  lemma SeenLast(d: Data, rows: seq<Row>, dev: int, t: int)
    requires rows != []
    ensures SeenAt(d, rows, dev, t) <==> SeenAt(d, rows[..|rows| - 1], dev, t) || FromAt(rows[|rows| - 1], dev, t)
  {
    var n := |rows| - 1;
    hide FromAt;
    if i :| 0 <= i < |rows| && FromAt(rows[i], dev, t) { if i < n { assert FromAt(rows[..n][i], dev, t); } }
    if i :| 0 <= i < n && FromAt(rows[..n][i], dev, t) { assert FromAt(rows[i], dev, t); }
  }

  // ----- whole statements: what the transaction does -----------------------------------------------------------

  /** The staged rows left after those of unknown devices are deleted. */
  function Staged(auto: bool, devices: map<int, Option<int>>, rows: seq<Row>): seq<Row> {
    if rows == [] then [] else
    var n := |rows| - 1;
    Staged(auto, devices, rows[..n]) + (if Refused(auto, devices, rows[n]) then [] else [rows[n]])
  }

  function TouchAll(devices: map<int, Option<int>>, rows: seq<Row>): map<int, Option<int>> {
    if rows == [] then devices else Touch(TouchAll(devices, rows[..|rows| - 1]), rows[|rows| - 1])
  }

  function MergeAll(t: map<Key, int>, rows: seq<Row>): map<Key, int> {
    if rows == [] then t else Put(MergeAll(t, rows[..|rows| - 1]), rows[|rows| - 1])
  }

  /** Statement by statement and row by row come to the same. */
  lemma {:induction false} StatementsAgree(auto: bool, d: Data, rows: seq<Row>)
    ensures var s := Staged(auto, d.devices, rows);
            && PutAll(auto, d, rows) == Data(MergeAll(d.rows, s), TouchAll(d.devices, s))
            && CountAll(auto, d, rows).rejected == |rows| - |s|
  {
    if rows != [] {
      var n := |rows| - 1;
      StatementsAgree(auto, d, rows[..n]);
      DevicesKept(auto, d, rows[..n]);
      var s := Staged(auto, d.devices, rows[..n]);
      var e := PutAll(auto, d, rows[..n]);
      assert Refused(auto, e.devices, rows[n]) <==> Refused(auto, d.devices, rows[n]);
      hide Touch, Put, Refused;
      if Refused(auto, d.devices, rows[n]) {
        assert Staged(auto, d.devices, rows) == s;
      } else {
        assert Staged(auto, d.devices, rows) == s + [rows[n]];
        MergeSnoc(d.rows, s, rows[n]);
        TouchSnoc(d.devices, s, rows[n]);
      }
    }
  }

  lemma MergeSnoc(t: map<Key, int>, s: seq<Row>, r: Row)
    ensures MergeAll(t, s + [r]) == Put(MergeAll(t, s), r)
  {
    assert (s + [r])[..|s|] == s;
  }

  lemma TouchSnoc(devices: map<int, Option<int>>, s: seq<Row>, r: Row)
    ensures TouchAll(devices, s + [r]) == Touch(TouchAll(devices, s), r)
  {
    assert (s + [r])[..|s|] == s;
  }

  /** The transaction's counts, worked out from how many rows it staged and added. */
  lemma StatementCounts(auto: bool, d: Data, rows: seq<Row>)
    ensures var s := Staged(auto, d.devices, rows);
            var accepted, rejected := |MergeAll(d.rows, s)| - |d.rows|, |rows| - |s|;
            && accepted >= 0 && rejected >= 0 && |rows| - accepted - rejected >= 0
            && CountAll(auto, d, rows) == Result(accepted, |rows| - accepted - rejected, rejected)
            && PutAll(auto, d, rows) == Data(MergeAll(d.rows, s), TouchAll(d.devices, s))
  {
    StatementsAgree(auto, d, rows);
    CountsAddUp(auto, d, rows);
    hide *;
  }

  lemma EmptyInsert(auto: bool, d: Data)
    ensures PutAll(auto, d, []) == d && CountAll(auto, d, []) == Result(0, 0, 0)
  {
  }

  class Store {
    const autoRegister: bool
    var data: Data

    constructor (auto: bool, devices: map<int, Option<int>>)
      ensures autoRegister == auto && data == Data(map[], devices)
    {
      autoRegister, data := auto, Data(map[], devices);
    }

    /** One transaction; `fails` if any of its statements or the commit does. */
    method Insert(rows: seq<Row>, fails: bool) returns (res: Option<Result>)
      modifies this
      ensures fails && rows != [] ==> res == None && data == old(data)
      ensures !fails || rows == [] ==>
                data == PutAll(autoRegister, old(data), rows) && res == Some(CountAll(autoRegister, old(data), rows))
    {
      hide *;
      ghost var d := data;
      if rows == [] {
        EmptyInsert(autoRegister, d);
        return Some(Result(0, 0, 0));
      }
      if fails { return None; }
      StatementCounts(autoRegister, d, rows);
      var staged := Stage(rows);
      var devices := TouchDevices(staged);
      var merged := MergeRows(staged);
      var rejected, accepted := |rows| - |staged|, |merged| - |data.rows|;
      data := Data(merged, devices);
      return Some(Result(accepted, |rows| - accepted - rejected, rejected));
    }

    method Stage(rows: seq<Row>) returns (staged: seq<Row>)
      ensures staged == Staged(autoRegister, data.devices, rows)
    {
      staged := [];
      for i := 0 to |rows|
        invariant staged == Staged(autoRegister, data.devices, rows[..i])
      {
        assert rows[..i + 1][..i] == rows[..i];
        if !Refused(autoRegister, data.devices, rows[i]) { staged := staged + [rows[i]]; }
      }
      assert rows[..|rows|] == rows;
    }

    /** Registers new senders and moves known devices' last-seen times forward. */
    method TouchDevices(staged: seq<Row>) returns (devices: map<int, Option<int>>)
      ensures devices == TouchAll(data.devices, staged)
    {
      devices := data.devices;
      for i := 0 to |staged|
        invariant devices == TouchAll(data.devices, staged[..i])
      {
        assert staged[..i + 1][..i] == staged[..i];
        devices := Touch(devices, staged[i]);
      }
      assert staged[..|staged|] == staged;
    }

    /** Adds each staged row whose key is not there. */
    method MergeRows(staged: seq<Row>) returns (t: map<Key, int>)
      ensures t == MergeAll(data.rows, staged)
    {
      t := data.rows;
      for i := 0 to |staged|
        invariant t == MergeAll(data.rows, staged[..i])
      {
        assert staged[..i + 1][..i] == staged[..i];
        if staged[i].key !in t { t := t[staged[i].key := staged[i].val]; }
      }
      assert staged[..|staged|] == staged;
    }
  }
}
