/** Rain gauge uplinks turned into rainfall rows (internal/weather/gauge.go), and the reconciler
    that rewrites only the stretch of rows a batch of late uplinks touches.

    Times are nanoseconds. The uplink table of one gauge is kept in its key order (ts, f_cnt);
    its rainfall rows are a map keyed by their start. */
module GaugeRainfall {
  import opened Common

  const SECOND := 1_000_000_000
  const TIP_WINDOW := 300 * SECOND
  const LOSS_SLACK := 30 * SECOND
  const MAX_INT32 := 0x7fff_ffff

  datatype Uplink = Uplink(at: int, fCnt: int, tipCount: int, mmPerTip: real, intervalS: int,
                           counterReset: bool, sensorFault: bool)

  datatype Row = Row(start: int, intervalS: int, mm: real)

  type Table = map<int, Row>

  // ----- derivation --------------------------------------------------------------------------

  function Seconds(d: int): int
    requires d >= 0
  {
    var s := d / SECOND;
    if s < MAX_INT32 then s else MAX_INT32
  }

  function NodeStart(u: Uplink): int { u.at - u.intervalS * SECOND }

  /** The rows one uplink contributes, given the uplink stored just before it. */
  function DeriveOne(p: Option<Uplink>, u: Uplink): (rows: seq<Row>)
    ensures forall r <- rows :: OwnedFrom(p, u) <= r.start < u.at
    ensures |rows| <= 2 && (|rows| == 2 ==> rows[0].start < rows[1].start)
    ensures p.None? ==> (rows != [] <==> Boots(u))
    ensures u.sensorFault ==> rows == []
  {
    if p.None? && !u.counterReset then []
    else
      var nodeStart := NodeStart(u);
      var rebase := p.None? || u.counterReset || u.tipCount < p.value.tipCount;
      var tips := if rebase then u.tipCount else u.tipCount - p.value.tipCount;
      var start := if p.None? then nodeStart
                   else if rebase && nodeStart >= p.value.at then nodeStart
                   else p.value.at;
      var lost := !rebase && nodeStart - p.value.at > LOSS_SLACK;
      var total := u.at - start;
      if total < SECOND || u.sensorFault then []
      else
        var mm := tips as real * u.mmPerTip;
        if tips > 0 && !lost && total > TIP_WINDOW then
          var wet := u.at - TIP_WINDOW;
          [Row(start, Seconds(wet - start), 0.0), Row(wet, Seconds(TIP_WINDOW), mm)]
        else
          [Row(start, Seconds(total), mm)]
  }

  /** A first-ever uplink that yields rows: it reports a boot and a usable interval since it. */
  predicate Boots(u: Uplink) { u.counterReset && !u.sensorFault && u.intervalS >= 1 }

  /** Where the stretch of time that belongs to `u` begins; it ends at `u.at`. */
  function OwnedFrom(p: Option<Uplink>, u: Uplink): int {
    match p
    case Some(q) => q.at
    case None => if Boots(u) then NodeStart(u) else u.at
  }

  /** Rows of consecutive uplinks; `prev` only provides the counter baseline. */
  function Derive(prev: Option<Uplink>, ups: seq<Uplink>): seq<Row> {
    if ups == [] then []
    else Derive(prev, ups[..|ups| - 1]) + DeriveOne(Pred(prev, ups, |ups| - 1), ups[|ups| - 1])
  }

  function Pred(prev: Option<Uplink>, ups: seq<Uplink>, i: nat): Option<Uplink>
    requires i < |ups|
  {
    if i == 0 then prev else Some(ups[i - 1])
  }

  method DeriveGaugeRainfall(prev: Option<Uplink>, ups: seq<Uplink>) returns (out: seq<Row>)
    ensures out == Derive(prev, ups)
  {
    hide DeriveOne;
    out := [];
    var p := prev;
    for i := 0 to |ups|
      invariant out == Derive(prev, ups[..i])
      invariant p == if i == 0 then prev else Some(ups[i - 1])
    {
      var one := DeriveOne(p, ups[i]);
      assert ups[..i + 1][..i] == ups[..i];
      assert Pred(prev, ups[..i + 1], i) == p;
      out := out + one;
      p := Some(ups[i]);
    }
    assert ups[..|ups|] == ups;
  }

  // ----- the uplink table --------------------------------------------------------------------

  predicate KeyLess(a: Uplink, b: Uplink) { a.at < b.at || (a.at == b.at && a.fCnt < b.fCnt) }

  predicate SameKey(a: Uplink, b: Uplink) { a.at == b.at && a.fCnt == b.fCnt }

  predicate Sorted(h: seq<Uplink>) { forall i, j :: 0 <= i < j < |h| ==> KeyLess(h[i], h[j]) }

  /** How many stored uplinks lie strictly before time `t`; they are a prefix of the table. */
  function CountBefore(h: seq<Uplink>, t: int): (k: nat)
    requires Sorted(h)
    ensures k <= |h|
    ensures forall i :: 0 <= i < |h| ==> (i < k <==> h[i].at < t)
  {
    if h == [] then 0
    else
      var n := |h| - 1;
      if h[n].at < t then |h| else CountBefore(h[..n], t)
  }

  /** How many stored uplinks have a smaller key than `u`. */
  function KeyPos(h: seq<Uplink>, u: Uplink): (k: nat)
    requires Sorted(h)
    ensures k <= |h|
    ensures forall i :: 0 <= i < |h| ==> (i < k <==> KeyLess(h[i], u))
  {
    if h == [] then 0
    else
      var n := |h| - 1;
      if KeyLess(h[n], u) then |h| else KeyPos(h[..n], u)
  }

  /** Idempotent insert under the primary key (device, ts, f_cnt). */
  function Insert(h: seq<Uplink>, u: Uplink): (h': seq<Uplink>)
    requires Sorted(h)
    ensures Sorted(h')
  {
    var k := KeyPos(h, u);
    if k < |h| && SameKey(h[k], u) then h else h[..k] + [u] + h[k..]
  }

  // ----- the rainfall table ------------------------------------------------------------------

  /** The last row of `rows` with this start: what a sequence of upserts leaves behind. */
  function Find(rows: seq<Row>, s: int): (r: Option<Row>)
    ensures r.Some? ==> r.value in rows && r.value.start == s
    ensures r.None? ==> forall x <- rows :: x.start != s
  {
    if rows == [] then None
    else if rows[|rows| - 1].start == s then Some(rows[|rows| - 1])
    else Find(rows[..|rows| - 1], s)
  }

  function Lookup(t: Table, s: int): Option<Row> { if s in t then Some(t[s]) else None }

  function Starts(rows: seq<Row>): set<int> { set r <- rows :: r.start }

  /** DELETE of the rows in [lo, hi) whose start the new derivation does not produce. */
  function DeleteExcept(t: Table, lo: int, hi: int, keep: set<int>): Table {
    map s | s in t && !(lo <= s < hi && s !in keep) :: t[s]
  }

  function Upsert(t: Table, r: Row): Table { t[r.start := r] }

  function Upserts(t: Table, rows: seq<Row>): (t': Table)
    ensures forall s :: Lookup(t', s) == if Find(rows, s).Some? then Find(rows, s) else Lookup(t, s)
  {
    if rows == [] then t
    else Upsert(Upserts(t, rows[..|rows| - 1]), rows[|rows| - 1])
  }

  /** The rainfall rows of a whole history, derived from scratch. */
  function Scratch(h: seq<Uplink>): Table { Upserts(map[], Derive(None, h)) }

  // ----- one reconciliation ------------------------------------------------------------------

  /** Uplinks [first, last) of the table are re-derived: those in [from, to] and the one after. */
  function FirstIndex(h: seq<Uplink>, from: int): nat requires Sorted(h) { CountBefore(h, from) }

  function EndIndex(h: seq<Uplink>, to: int): nat requires Sorted(h) {
    var k := CountBefore(h, to + 1);
    if k < |h| then k + 1 else k
  }

  function PredAt(h: seq<Uplink>, i: nat): Option<Uplink> requires i < |h| { Pred(None, h, i) }

  predicate Touches(h: seq<Uplink>, from: int, to: int) { exists u <- h :: from <= u.at <= to }

  lemma TouchedRange(h: seq<Uplink>, from: int, to: int)
    requires Sorted(h) && Touches(h, from, to)
    ensures FirstIndex(h, from) < EndIndex(h, to) <= |h|
  {
    var u :| u in h && from <= u.at <= to;
    var i :| 0 <= i < |h| && h[i] == u;
  }

  /** Replaces the rows in [lo, hi) by `rows`. */
  function Rewrite(t: Table, lo: int, hi: int, rows: seq<Row>): Table {
    Upserts(DeleteExcept(t, lo, hi, Starts(rows)), rows)
  }

  lemma RewriteMeaning(t: Table, lo: int, hi: int, rows: seq<Row>, s: int)
    requires forall r <- rows :: lo <= r.start < hi
    ensures Lookup(Rewrite(t, lo, hi, rows), s) == if lo <= s < hi then Find(rows, s) else Lookup(t, s)
  {
    hide Find;
    if Find(rows, s).None? && s in Starts(rows) {
      assert false;
    }
  }

  /** What one reconciliation does to the rainfall table. */
  function Reconciled(h: seq<Uplink>, t: Table, from: int, to: int): Table
    requires Sorted(h) && Touches(h, from, to)
  {
    TouchedRange(h, from, to);
    var i, k := FirstIndex(h, from), EndIndex(h, to);
    Rewrite(t, OwnedFrom(PredAt(h, i), h[i]), h[k - 1].at, Derive(PredAt(h, i), h[i..k]))
  }

  /** Every derived row lies between the start of the first stretch and the last uplink. */
  lemma {:induction false} DeriveBounds(prev: Option<Uplink>, ups: seq<Uplink>, n: nat)
    requires 0 < |ups| && n <= |ups|
    requires Sorted(ups) && (prev.Some? ==> KeyLess(prev.value, ups[0]))
    ensures n > 0 ==> forall r <- Derive(prev, ups[..n]) :: OwnedFrom(prev, ups[0]) <= r.start < ups[n - 1].at
    ensures n == 0 ==> Derive(prev, ups[..n]) == []
  {
    if n > 0 {
      DeriveBounds(prev, ups, n - 1);
      assert ups[..n][..n - 1] == ups[..n - 1];
      if n > 1 {
        assert KeyLess(ups[0], ups[n - 1]) && KeyLess(ups[n - 2], ups[n - 1]);
        assert OwnedFrom(prev, ups[0]) <= ups[0].at;
        assert n - 2 == 0 || KeyLess(ups[0], ups[n - 2]);
      }
    }
  }

  /** Inside the stretch of its i-th uplink a derivation agrees with that uplink's own rows. */
  lemma {:induction false} DeriveAt(prev: Option<Uplink>, ups: seq<Uplink>, i: nat, n: nat, s: int)
    requires i < n <= |ups|
    requires Sorted(ups) && (prev.Some? ==> KeyLess(prev.value, ups[0]))
    requires OwnedFrom(Pred(prev, ups, i), ups[i]) <= s < ups[i].at
    ensures Find(Derive(prev, ups[..n]), s) == Find(DeriveOne(Pred(prev, ups, i), ups[i]), s)
    decreases n
  {
    hide DeriveOne, Find;
    var a, b := Derive(prev, ups[..n - 1]), DeriveOne(Pred(prev, ups, n - 1), ups[n - 1]);
    assert ups[..n][..n - 1] == ups[..n - 1];
    assert Derive(prev, ups[..n]) == a + b;
    FindConcat(a, b, s);
    if i < n - 1 {
      assert s < ups[n - 2].at by { assert i == n - 2 || KeyLess(ups[i], ups[n - 2]); }
      assert Find(b, s).None? by { assert forall r <- b :: ups[n - 2].at <= r.start; }
      DeriveAt(prev, ups, i, n - 1, s);
    } else if i > 0 {
      assert Find(a, s).None? by { DeriveBounds(prev, ups, n - 1); }
    } else {
      assert ups[..n - 1] == [];
      assert Find(a, s).None?;
    }
  }

  lemma {:induction false} FindConcat(a: seq<Row>, b: seq<Row>, s: int)
    ensures Find(a + b, s) == if Find(b, s).Some? then Find(b, s) else Find(a, s)
  {
    if b == [] {
      assert a + b == a;
    } else {
      assert (a + b)[..|a + b| - 1] == a + b[..|b| - 1];
      FindConcat(a, b[..|b| - 1], s);
    }
  }

  /** The table holds exactly the rows of `u` in the stretch that belongs to it. */
  ghost predicate Clean(t: Table, p: Option<Uplink>, u: Uplink) {
    forall s :: OwnedFrom(p, u) <= s < u.at ==> Lookup(t, s) == Find(DeriveOne(p, u), s)
  }

  /** Derived rows of one contiguous part of the table clean every stretch in it. */
  lemma RewriteCleans(h: seq<Uplink>, t: Table, i: nat, k: nat, j: nat)
    requires Sorted(h) && i <= j < k <= |h|
    ensures Clean(Rewrite(t, OwnedFrom(PredAt(h, i), h[i]), h[k - 1].at, Derive(PredAt(h, i), h[i..k])),
                  PredAt(h, j), h[j])
  {
    hide DeriveOne, Derive, Find, Rewrite;
    var prev, ups := PredAt(h, i), h[i..k];
    var lo, hi, rows := OwnedFrom(prev, h[i]), h[k - 1].at, Derive(prev, ups);
    assert ups[..|ups|] == ups;
    DeriveBounds(prev, ups, |ups|);
    assert PredAt(h, j) == Pred(prev, ups, j - i);
    assert h[j].at <= hi by { assert j == k - 1 || KeyLess(h[j], h[k - 1]); }
    assert lo <= OwnedFrom(PredAt(h, j), h[j]) by {
      assert j <= i + 1 || KeyLess(h[i], h[j - 1]);
    }
    forall s | OwnedFrom(PredAt(h, j), h[j]) <= s < h[j].at
      ensures Lookup(Rewrite(t, lo, hi, rows), s) == Find(DeriveOne(PredAt(h, j), h[j]), s)
    {
      DeriveAt(prev, ups, j - i, |ups|, s);
      RewriteMeaning(t, lo, hi, rows, s);
    }
  }

  /** A reconciliation cleans every stretch it re-derives and leaves all other times alone. */
  lemma ReconciledMeaning(h: seq<Uplink>, t: Table, from: int, to: int)
    requires Sorted(h) && Touches(h, from, to)
    ensures FirstIndex(h, from) < EndIndex(h, to) <= |h|
    ensures forall j :: FirstIndex(h, from) <= j < EndIndex(h, to) ==>
                          Clean(Reconciled(h, t, from, to), PredAt(h, j), h[j])
    ensures var i, k := FirstIndex(h, from), EndIndex(h, to);
            forall s :: !(OwnedFrom(PredAt(h, i), h[i]) <= s < h[k - 1].at) ==>
                          Lookup(Reconciled(h, t, from, to), s) == Lookup(t, s)
  {
    hide DeriveOne, Derive, Find, Rewrite, Clean, FirstIndex, EndIndex, Touches, Lookup;
    TouchedRange(h, from, to);
    var i, k := FirstIndex(h, from), EndIndex(h, to);
    var prev, ups := PredAt(h, i), h[i..k];
    var lo, hi, rows := OwnedFrom(prev, h[i]), h[k - 1].at, Derive(prev, ups);
    forall j | i <= j < k ensures Clean(Reconciled(h, t, from, to), PredAt(h, j), h[j]) {
      RewriteCleans(h, t, i, k, j);
    }
    assert forall r <- rows :: lo <= r.start < hi by {
      assert ups[..|ups|] == ups;
      DeriveBounds(prev, ups, |ups|);
    }
    var t' := Reconciled(h, t, from, to);
    assert t' == Rewrite(t, lo, hi, rows);
    forall s | !(lo <= s < hi) ensures Lookup(t', s) == Lookup(t, s) {
      RewriteMeaning(t, lo, hi, rows, s);
    }
  }

  // ----- the handler over the tables ---------------------------------------------------------

  /** One gauge's uplink and rainfall tables, as the watermark handler sees them. */
  class GaugeStore {
    var uplinks: seq<Uplink>
    var rain: Table

    ghost predicate Valid() reads this { Sorted(uplinks) }

    constructor ()
      ensures Valid() && uplinks == [] && rain == map[]
    {
      uplinks, rain := [], map[];
    }

    /** Ingest: stores one uplink, ignoring a redelivered key. */
    method Ingest(u: Uplink)
      requires Valid()
      modifies this`uplinks
      ensures Valid() && uplinks == Insert(old(uplinks), u)
    {
      uplinks := Insert(uplinks, u);
    }

    /** One poll's uplinks of this gauge: reconciles the span they cover. */
    method Handle(rows: seq<Uplink>) returns (changes: nat)
      requires Valid() && rows != [] && forall u <- rows :: u in uplinks
      modifies this`rain
      ensures rain == Reconciled(uplinks, old(rain), MinAt(rows), MaxAt(rows))
      ensures changes == |Differing(old(rain), rain)|
    {
      hide Reconciled, MinAt, MaxAt;
      var from, to := TimeRange(rows);
      RangeMeaning(rows);
      changes, from, to := Reconcile(from, to);
    }

    /** Re-derives the rainfall between the uplinks around [from, to]. */
    method Reconcile(from: int, to: int) returns (changes: nat, lo: int, hi: int)
      requires Valid() && Touches(uplinks, from, to)
      modifies this`rain
      ensures rain == Reconciled(uplinks, old(rain), from, to)
      ensures changes == |Differing(old(rain), rain)|
      ensures forall s :: !(lo <= s < hi) ==> Lookup(rain, s) == Lookup(old(rain), s)
      ensures var i, k := FirstIndex(uplinks, from), EndIndex(uplinks, to);
              i < k <= |uplinks| && lo == OwnedFrom(PredAt(uplinks, i), uplinks[i]) && hi == uplinks[k - 1].at
    {
      hide DeriveOne, Derive, Find, Upserts, Lookup, DeleteExcept, Clean, FirstIndex, EndIndex;
      hide Differing, Fresh, Distinct;
      TouchedRange(uplinks, from, to);
      ReconciledMeaning(uplinks, rain, from, to);
      var i, k := FirstIndex(uplinks, from), EndIndex(uplinks, to);
      var prev := PredAt(uplinks, i);
      var ups := uplinks[i..k];
      var derived := DeriveGaugeRainfall(prev, ups);
      var keep: set<int>;
      lo, keep := ScanStarts(if prev.Some? then prev.value.at else ups[0].at, derived);
      hi := ups[|ups| - 1].at;
      LowestStart(prev, ups, lo);
      var kept := DeleteExcept(rain, lo, hi, keep);
      KeysShrink(rain, lo, hi, keep);
      var deleted := |rain.Keys| - |kept.Keys|;
      RowsDistinct(prev, ups);
      ChangesAre(rain, lo, hi, derived);
      var written;
      rain, written := UpsertRows(kept, derived);
      changes := written + deleted;
    }
  }

  /** The first and last event time of a poll's uplinks. */
  method TimeRange(rows: seq<Uplink>) returns (from: int, to: int)
    requires rows != []
    ensures from == MinAt(rows) && to == MaxAt(rows)
  {
    hide MinAt, MaxAt;
    from, to := rows[0].at, rows[0].at;
    RangeOne(rows[0]);
    assert rows[..1] == [rows[0]];
    for i := 1 to |rows|
      invariant from == MinAt(rows[..i]) && to == MaxAt(rows[..i])
    {
      RangeSnoc(rows[..i], rows[i]);
      assert rows[..i + 1] == rows[..i] + [rows[i]];
      if rows[i].at < from { from := rows[i].at; }
      if rows[i].at > to { to := rows[i].at; }
    }
    assert rows[..|rows|] == rows;
  }

  lemma RangeOne(u: Uplink)
    ensures MinAt([u]) == u.at == MaxAt([u])
  {
  }

  lemma RangeSnoc(rows: seq<Uplink>, u: Uplink)
    requires rows != []
    ensures MinAt(rows + [u]) == if u.at < MinAt(rows) then u.at else MinAt(rows)
    ensures MaxAt(rows + [u]) == if u.at > MaxAt(rows) then u.at else MaxAt(rows)
  {
    assert (rows + [u])[..|rows|] == rows;
  }

  function MinAt(rows: seq<Uplink>): int
    requires rows != []
  {
    var n := |rows| - 1;
    if n == 0 || rows[n].at < MinAt(rows[..n]) then rows[n].at else MinAt(rows[..n])
  }

  function MaxAt(rows: seq<Uplink>): int
    requires rows != []
  {
    var n := |rows| - 1;
    if n == 0 || rows[n].at > MaxAt(rows[..n]) then rows[n].at else MaxAt(rows[..n])
  }

  lemma {:induction false} RangeAt(rows: seq<Uplink>, i: nat)
    requires i < |rows|
    ensures MinAt(rows) <= rows[i].at <= MaxAt(rows)
  {
    var n := |rows| - 1;
    if i < n { RangeAt(rows[..n], i); }
  }

  lemma {:induction false} RangeHit(rows: seq<Uplink>) returns (a: nat, b: nat)
    requires rows != []
    ensures a < |rows| && b < |rows| && rows[a].at == MinAt(rows) && rows[b].at == MaxAt(rows)
  {
    var n := |rows| - 1;
    a, b := n, n;
    if n > 0 {
      var a0, b0 := RangeHit(rows[..n]);
      if MinAt(rows) != rows[n].at { a := a0; }
      if MaxAt(rows) != rows[n].at { b := b0; }
    }
  }

  lemma RangeMeaning(rows: seq<Uplink>)
    requires rows != []
    ensures forall u <- rows :: MinAt(rows) <= u.at <= MaxAt(rows)
    ensures (exists u <- rows :: u.at == MinAt(rows)) && (exists u <- rows :: u.at == MaxAt(rows))
  {
    hide MinAt, MaxAt;
    var a, b := RangeHit(rows);
    assert rows[a] in rows && rows[b] in rows;
    forall u <- rows ensures MinAt(rows) <= u.at <= MaxAt(rows) {
      var i :| 0 <= i < |rows| && rows[i] == u;
      RangeAt(rows, i);
    }
  }

  /** The earliest of `first` and the rows' starts, and the set of those starts. */
  method ScanStarts(first: int, rows: seq<Row>) returns (lo: int, keep: set<int>)
    ensures keep == Starts(rows)
    ensures lo <= first && (forall r <- rows :: lo <= r.start)
    ensures lo == first || exists r <- rows :: r.start == lo
  {
    lo, keep := first, {};
    for j := 0 to |rows|
      invariant keep == Starts(rows[..j])
      invariant lo <= first && (forall r <- rows[..j] :: lo <= r.start)
      invariant lo == first || exists r <- rows[..j] :: r.start == lo
    {
      assert rows[..j + 1] == rows[..j] + [rows[j]];
      keep := keep + {rows[j].start};
      if rows[j].start < lo { lo := rows[j].start; }
    }
    assert rows[..|rows|] == rows;
  }

  predicate Distinct(rows: seq<Row>) { forall j, m :: 0 <= j < m < |rows| ==> rows[j].start != rows[m].start }

  /** One upsert per row, counting those that insert or really change a row. */
  method UpsertRows(t: Table, rows: seq<Row>) returns (t': Table, written: nat)
    requires Distinct(rows)
    ensures t' == Upserts(t, rows)
    ensures written == |Fresh(t, rows)|
  {
    hide Find, Lookup, Distinct, Holds, Upserts, Fresh;
    t', written := t, 0;
    UpsertNone(t, rows);
    for j := 0 to |rows|
      invariant t' == Upserts(t, rows[..j]) && written == |Fresh(t, rows[..j])|
    {
      UpsertNext(t, rows, j);
      FreshNext(t, rows, j);
      if !Holds(t', rows[j]) {
        written := written + 1;
      }
      t' := Upsert(t', rows[j]);
    }
    assert rows[..|rows|] == rows;
  }

  lemma UpsertNone(t: Table, rows: seq<Row>)
    ensures Upserts(t, rows[..0]) == t && Fresh(t, rows[..0]) == {}
  {
  }

  lemma UpsertNext(t: Table, rows: seq<Row>, j: nat)
    requires j < |rows| && Distinct(rows)
    ensures Upserts(t, rows[..j + 1]) == Upsert(Upserts(t, rows[..j]), rows[j])
    ensures Holds(Upserts(t, rows[..j]), rows[j]) <==> Holds(t, rows[j])
  {
    hide Find;
    assert rows[..j + 1][..j] == rows[..j];
    assert Find(rows[..j], rows[j].start).None?;
    assert Lookup(Upserts(t, rows[..j]), rows[j].start) == Lookup(t, rows[j].start);
  }

  /** The starts of the rows that a table does not hold. */
  function Fresh(t: Table, rows: seq<Row>): set<int> { set r <- rows | !Holds(t, r) :: r.start }

  lemma FreshNext(t: Table, rows: seq<Row>, j: nat)
    requires j < |rows| && Distinct(rows)
    ensures |Fresh(t, rows[..j + 1])| == |Fresh(t, rows[..j])| + if Holds(t, rows[j]) then 0 else 1
  {
    hide Holds;
    var old_, s := Fresh(t, rows[..j]), rows[j].start;
    assert rows[..j + 1] == rows[..j] + [rows[j]];
    assert Fresh(t, rows[..j + 1]) == if Holds(t, rows[j]) then old_ else old_ + {s};
    assert forall r <- rows[..j] :: r.start != s;
    assert s !in old_;
  }

  /** The starts at which two tables differ. */
  ghost function Differing(a: Table, b: Table): set<int> {
    set s | s in a.Keys + b.Keys && Lookup(a, s) != Lookup(b, s)
  }

  /** What is deleted, and what is inserted or really changed after it, is what differs in the end. */
  lemma ChangesAre(before: Table, lo: int, hi: int, rows: seq<Row>)
    requires Distinct(rows)
    ensures var kept := DeleteExcept(before, lo, hi, Starts(rows));
            |Differing(before, Upserts(kept, rows))| == |before.Keys| - |kept.Keys| + |Fresh(kept, rows)|
  {
    hide DeleteExcept, Upserts, Find, Starts, Distinct, Lookup, Differing, Fresh;
    var kept := DeleteExcept(before, lo, hi, Starts(rows));
    forall s
      ensures s in kept ==> s in before
      ensures s in Differing(before, Upserts(kept, rows)) <==> (s in before && s !in kept) || s in Fresh(kept, rows)
      ensures s in before && s in Fresh(kept, rows) ==> s in kept
    {
      DiffersAt(before, lo, hi, rows, s);
    }
    SplitCount(before.Keys, kept.Keys, Differing(before, Upserts(kept, rows)), Fresh(kept, rows));
  }

  lemma SplitCount<T>(all: set<T>, kept: set<T>, diff: set<T>, fresh_: set<T>)
    requires forall s <- kept :: s in all
    requires forall s :: s in diff <==> (s in all && s !in kept) || s in fresh_
    requires forall s <- all :: s in fresh_ ==> s in kept
    ensures |diff| == |all| - |kept| + |fresh_|
  {
    assert kept <= all;
    SplitSets(all, kept, diff, fresh_);
    assert all == kept + (all - kept);
  }

  lemma SplitSets<T>(all: set<T>, kept: set<T>, diff: set<T>, fresh_: set<T>)
    requires forall s :: s in diff <==> (s in all && s !in kept) || s in fresh_
    ensures diff == (all - kept) + fresh_
  {
  }

  lemma DiffersAt(before: Table, lo: int, hi: int, rows: seq<Row>, s: int)
    requires Distinct(rows)
    ensures var kept := DeleteExcept(before, lo, hi, Starts(rows));
            && (s in kept ==> s in before)
            && (s in Differing(before, Upserts(kept, rows)) <==> (s in before && s !in kept) || s in Fresh(kept, rows))
            && (s in before && s in Fresh(kept, rows) ==> s in kept)
  {
    hide Find, DeleteExcept, Distinct;
    var kept := DeleteExcept(before, lo, hi, Starts(rows));
    KeptAt(before, lo, hi, Starts(rows), s);
    if Find(rows, s).Some? {
      var r := Find(rows, s).value;
      assert r in rows && s in Starts(rows);
      forall x <- rows | x.start == s ensures x == r { OnlyOne(rows, x, r); }
      assert s in Fresh(kept, rows) <==> !Holds(kept, r);
    } else {
      assert s !in Fresh(kept, rows) && s !in Starts(rows);
    }
  }

  lemma KeptAt(t: Table, lo: int, hi: int, keep: set<int>, s: int)
    ensures var kept := DeleteExcept(t, lo, hi, keep);
            (s in kept <==> s in t && (lo <= s < hi ==> s in keep)) && (s in kept ==> kept[s] == t[s])
  {
  }

  lemma OnlyOne(rows: seq<Row>, x: Row, y: Row)
    requires Distinct(rows) && x in rows && y in rows && x.start == y.start
    ensures x == y
  {
    var i :| 0 <= i < |rows| && rows[i] == x;
    var j :| 0 <= j < |rows| && rows[j] == y;
  }

  predicate Holds(t: Table, r: Row) { r.start in t && t[r.start] == r }

  lemma KeysShrink(t: Table, lo: int, hi: int, keep: set<int>)
    ensures var t' := DeleteExcept(t, lo, hi, keep);
            |t'.Keys| <= |t.Keys|
  {
    var t' := DeleteExcept(t, lo, hi, keep);
    var gone := t.Keys - t'.Keys;
    assert t.Keys == t'.Keys + gone;
    assert |t.Keys| == |t'.Keys| + |gone|;
  }

  /** The scan for the earliest derived start finds where the first stretch begins. */
  lemma LowestStart(prev: Option<Uplink>, ups: seq<Uplink>, lo: int)
    requires 0 < |ups| && Sorted(ups) && (prev.Some? ==> KeyLess(prev.value, ups[0]))
    requires forall r <- Derive(prev, ups) :: lo <= r.start
    requires lo <= if prev.Some? then prev.value.at else ups[0].at
    requires lo == (if prev.Some? then prev.value.at else ups[0].at)
             || (exists r <- Derive(prev, ups) :: r.start == lo)
    ensures lo == OwnedFrom(prev, ups[0])
  {
    assert ups[..|ups|] == ups;
    DeriveBounds(prev, ups, |ups|);
    if prev.None? && Boots(ups[0]) {
      var s := NodeStart(ups[0]);
      DeriveAt(prev, ups, 0, |ups|, s);
      var one := DeriveOne(prev, ups[0]);
      assert one[0].start == s;
      assert Find(one, s).Some?;
    }
  }

  lemma {:induction false} DistinctStarts(prev: Option<Uplink>, ups: seq<Uplink>, j: nat, m: nat)
    requires 0 < |ups| && Sorted(ups) && (prev.Some? ==> KeyLess(prev.value, ups[0]))
    requires j < m < |Derive(prev, ups)|
    ensures Derive(prev, ups)[j].start != Derive(prev, ups)[m].start
    decreases |ups|
  {
    hide DeriveOne;
    var n := |ups| - 1;
    var a, b := Derive(prev, ups[..n]), DeriveOne(Pred(prev, ups, n), ups[n]);
    DeriveBounds(prev, ups, n);
    if m < |a| {
      DistinctStarts(prev, ups[..n], j, m);
    } else if j < |a| {
      assert a[j].start < OwnedFrom(Pred(prev, ups, n), ups[n]) <= b[m - |a|].start;
    }
  }

  lemma RowsDistinct(prev: Option<Uplink>, ups: seq<Uplink>)
    requires 0 < |ups| && Sorted(ups) && (prev.Some? ==> KeyLess(prev.value, ups[0]))
    ensures Distinct(Derive(prev, ups))
  {
    hide Derive;
    var rows := Derive(prev, ups);
    forall j, m | 0 <= j < m < |rows| ensures rows[j].start != rows[m].start { DistinctStarts(prev, ups, j, m); }
  }
}
