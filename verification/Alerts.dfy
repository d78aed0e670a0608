/** Alert episodes (internal/alerts/engine.go, internal/alerts/rules.go, internal/store/sqlcgen/alerts.sql.go). */
module Alerts {
  import opened Common

  datatype Code =
    | FloatHigh | MainsLost | DryRun | ContinuousRun | SensorFault | ShortCycling | OutageRisk | LowBattery | Offline

  datatype Alert = Alert(dev: int, code: Code, raisedAt: int, lastSeenAt: int, occurrences: nat,
                         resolvedAt: Option<int>)

  predicate IsOpen(a: Alert, dev: int, code: Code) { a.dev == dev && a.code == code && a.resolvedAt == None }

  /** At most one open alert per device and code. */
  ghost predicate OneOpen(rows: seq<Alert>) {
    forall i, j :: 0 <= i < j < |rows| && rows[i].resolvedAt == None && rows[j].resolvedAt == None ==>
      rows[i].dev != rows[j].dev || rows[i].code != rows[j].code
  }

  /** An episode is raised no later than it is last seen or resolved. */
  ghost predicate Timed(rows: seq<Alert>) {
    forall i :: 0 <= i < |rows| ==>
        rows[i].raisedAt <= rows[i].lastSeenAt
        && (rows[i].resolvedAt.Some? ==> rows[i].raisedAt <= rows[i].resolvedAt.value)
  }

  ghost predicate Sound(rows: seq<Alert>) { OneOpen(rows) && Timed(rows) }

  /** The open alert of a device and code, by row number. */
  function FindOpen(rows: seq<Alert>, dev: int, code: Code): Option<nat> {
    if rows == [] then None
    else if IsOpen(rows[|rows| - 1], dev, code) then Some(|rows| - 1)
    else FindOpen(rows[..|rows| - 1], dev, code)
  }

  lemma {:induction false} FindOpenMeaning(rows: seq<Alert>, dev: int, code: Code)
    ensures var f := FindOpen(rows, dev, code);
            && (f.Some? ==> f.value < |rows| && IsOpen(rows[f.value], dev, code))
            && (f.None? ==> forall i :: 0 <= i < |rows| ==> !IsOpen(rows[i], dev, code))
  {
    if rows != [] {
      var n := |rows| - 1;
      FindOpenMeaning(rows[..n], dev, code);
    }
  }

  /** The open alert itself. */
  function Opened(rows: seq<Alert>, dev: int, code: Code): Option<Alert> {
    FindOpenMeaning(rows, dev, code);
    match FindOpen(rows, dev, code) case Some(i) => Some(rows[i]) case None => None
  }

  function Touched(a: Alert, at: int): Alert {
    a.(raisedAt := if at < a.raisedAt then at else a.raisedAt,
       lastSeenAt := if at > a.lastSeenAt then at else a.lastSeenAt,
       occurrences := a.occurrences + 1)
  }

  function Raised(rows: seq<Alert>, dev: int, code: Code, at: int): seq<Alert> {
    FindOpenMeaning(rows, dev, code);
    match FindOpen(rows, dev, code)
    case Some(i) => rows[i := Touched(rows[i], at)]
    case None => rows + [Alert(dev, code, at, at, 1, None)]
  }

  /** A row older than the episode cannot resolve it. */
  function Resolved(rows: seq<Alert>, dev: int, code: Code, at: int): seq<Alert> {
    FindOpenMeaning(rows, dev, code);
    match FindOpen(rows, dev, code)
    case Some(i) => if rows[i].raisedAt <= at then rows[i := rows[i].(resolvedAt := Some(at))] else rows
    case None => rows
  }

  /** With one open alert each, `Opened` is determined by any open row. */
  lemma OpenedIs(rows: seq<Alert>, i: nat)
    requires OneOpen(rows) && i < |rows| && rows[i].resolvedAt == None
    ensures Opened(rows, rows[i].dev, rows[i].code) == Some(rows[i])
  {
    FindOpenMeaning(rows, rows[i].dev, rows[i].code);
    hide FindOpen;
  }

  lemma OpenedNone(rows: seq<Alert>, dev: int, code: Code)
    requires forall i :: 0 <= i < |rows| ==> !IsOpen(rows[i], dev, code)
    ensures Opened(rows, dev, code) == None
  {
    FindOpenMeaning(rows, dev, code);
    hide FindOpen;
  }

  /** What raising does: one episode is opened or extended, every other stays as it was. */
  lemma RaisedMeaning(rows: seq<Alert>, dev: int, code: Code, at: int)
    requires Sound(rows)
    ensures var r := Raised(rows, dev, code, at);
            && Sound(r) && |r| >= |rows|
            && Opened(r, dev, code) ==
                 Some(if Opened(rows, dev, code).Some? then Touched(Opened(rows, dev, code).value, at)
                      else Alert(dev, code, at, at, 1, None))
    ensures forall d, c :: d != dev || c != code ==> Opened(Raised(rows, dev, code, at), d, c) == Opened(rows, d, c)
  {
    FindOpenMeaning(rows, dev, code);
    hide FindOpen, Opened;
    var r := Raised(rows, dev, code, at);
    var k := if FindOpen(rows, dev, code).Some? then FindOpen(rows, dev, code).value else |rows|;
    OpenedIs(r, k);
    if k < |rows| { OpenedIs(rows, k); } else { OpenedNone(rows, dev, code); }
    forall d, c | d != dev || c != code ensures Opened(r, d, c) == Opened(rows, d, c) {
      OpenedOther(rows, r, k, d, c);
    }
  }

  /** Changing or adding one row matters only to its own device and code. */
  lemma OpenedOther(rows: seq<Alert>, r: seq<Alert>, k: nat, d: int, c: Code)
    requires OneOpen(rows) && OneOpen(r) && k < |r| && |rows| <= |r| <= k + 1 + |rows| && |r| <= |rows| + 1
             && (|r| > |rows| ==> k == |rows|)
    requires (forall i :: 0 <= i < |r| && i != k ==> i < |rows| && r[i] == rows[i]) && !IsOpen(r[k], d, c)
             && (k < |rows| ==> !IsOpen(rows[k], d, c))
    ensures Opened(r, d, c) == Opened(rows, d, c)
  {
    hide Opened;
    if i :| 0 <= i < |rows| && IsOpen(rows[i], d, c) {
      OpenedIs(rows, i);
      assert r[i] == rows[i];
      OpenedIs(r, i);
    } else {
      OpenedNone(rows, d, c);
      OpenedNone(r, d, c);
    }
  }

  lemma ResolvedMeaning(rows: seq<Alert>, dev: int, code: Code, at: int)
    requires Sound(rows)
    ensures var r := Resolved(rows, dev, code, at);
            && Sound(r) && |r| == |rows|
            && Opened(r, dev, code) ==
                 (if Opened(rows, dev, code).Some? && Opened(rows, dev, code).value.raisedAt > at
                  then Opened(rows, dev, code) else None)
    ensures forall d, c :: d != dev || c != code ==> Opened(Resolved(rows, dev, code, at), d, c) == Opened(rows, d, c)
  {
    FindOpenMeaning(rows, dev, code);
    hide FindOpen, Opened;
    var r := Resolved(rows, dev, code, at);
    if FindOpen(rows, dev, code).Some? {
      var k := FindOpen(rows, dev, code).value;
      OpenedIs(rows, k);
      if rows[k].raisedAt <= at {
        OpenedNone(r, dev, code);
        forall d, c | d != dev || c != code ensures Opened(r, d, c) == Opened(rows, d, c) {
          OpenedOther(rows, r, k, d, c);
        }
      }
    } else {
      OpenedNone(rows, dev, code);
    }
  }
}
