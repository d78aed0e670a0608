/** Areas of traced rings (signedArea and the corner filter of traceRing in internal/site/geom.go). */
module Shoelace {
  import opened Grid
  import opened Boundary

  function Det(p: Pt, q: Pt): int { p.x * q.y - q.x * p.y }

  function Cross(a: Pt, b: Pt, c: Pt): int { (b.x - a.x) * (c.y - a.y) - (b.y - a.y) * (c.x - a.x) }

  /** The open sum along a walk. */
  ghost function Along(v: seq<Pt>): int {
    if |v| < 2 then 0 else Along(v[..|v| - 1]) + Det(v[|v| - 2], v[|v| - 1])
  }

  /** Twice the signed area of a closed ring. */
  ghost function Twice(v: seq<Pt>): int { if v == [] then 0 else Along(v) + Det(v[|v| - 1], v[0]) }

  lemma AlongSnoc(v: seq<Pt>, p: Pt)
    ensures Along(v + [p]) == if v == [] then 0 else Along(v) + Det(v[|v| - 1], p)
  {
    assert (v + [p])[..|v|] == v;
  }

  // ----- the boundary of a region encloses its cells ---------------------------------------------------

  function Weight(e: Side): int { Det(From(e), To(e)) }

  ghost function Total(s: set<Side>): int {
    if s == {} then 0 else var e :| e in s; Weight(e) + Total(s - {e})
  }

  lemma {:induction false} TotalTake(s: set<Side>, e: Side)
    requires e in s
    ensures Total(s) == Weight(e) + Total(s - {e})
    decreases s
  {
    hide Weight;
    var f :| f in s && Total(s) == Weight(f) + Total(s - {f});
    if f != e {
      TotalTake(s - {f}, e);
      TotalTake(s - {e}, f);
      assert s - {f} - {e} == s - {e} - {f};
    }
  }

  lemma TotalAdd(s: set<Side>, e: Side)
    requires e !in s
    ensures Total(s + {e}) == Total(s) + Weight(e)
  {
    TotalTake(s + {e}, e);
    assert s + {e} - {e} == s;
  }

  lemma ReverseWeight(e: Side)
    requires 0 <= e.d < 4
    ensures Weight(Reverse(e)) == -Weight(e)
  {
    SideEnds(e);
  }

  /** The sides of `c` from `d` on do not count yet; those before it do. */
  ghost function Partly(k: Region, c: Cell, d: int): set<Side> {
    (set e <- Sides(k - {c}) | !(Across(e) == c && Reverse(e).d < d && e.c in k))
      + (set f | 0 <= f < d && Across(Side(c, f)) !in k :: Side(c, f))
  }

  lemma PartlyMeaning(k: Region, c: Cell, d: int, e: Side)
    requires c in k && 0 <= d <= 4
    ensures e in Partly(k, c, d) <==>
            || (Bounds(k - {c}, e) && !(Across(e) == c && Reverse(e).d < d))
            || (e.c == c && 0 <= e.d < d && Across(e) !in k)
  {
    SidesMeaning(k - {c}, e);
    hide Sides;
    if e.c == c && 0 <= e.d < d && Across(e) !in k { assert e == Side(c, e.d); }
  }

  /** Counting one more side of the cell changes the total by that side's weight. */
  lemma PartlyStep(k: Region, c: Cell, d: int)
    requires c in k && 0 <= d < 4
    ensures Total(Partly(k, c, d + 1)) == Total(Partly(k, c, d)) + Weight(Side(c, d))
  {
    hide Total, Weight, Partly;
    var e := Side(c, d);
    var r := Reverse(e);
    SideEnds(e);
    var s, t := Partly(k, c, d), Partly(k, c, d + 1);
    if Across(e) in k {
      ReverseWeight(e);
      forall x ensures x in t <==> x in s && x != r { StepAway(k, c, d, x); }
      PartlyMeaning(k, c, d, r);
      TotalTake(s, r);
      assert t == s - {r};
    } else {
      forall x ensures x in t <==> x in s || x == e { StepIn(k, c, d, x); }
      PartlyMeaning(k, c, d, e);
      TotalAdd(s, e);
      assert t == s + {e};
    }
  }

  lemma StepAway(k: Region, c: Cell, d: int, x: Side)
    requires c in k && 0 <= d < 4 && Across(Side(c, d)) in k
    ensures x in Partly(k, c, d + 1) <==> x in Partly(k, c, d) && x != Reverse(Side(c, d))
  {
    PartlyMeaning(k, c, d, x);
    PartlyMeaning(k, c, d + 1, x);
    hide Partly;
  }

  lemma StepIn(k: Region, c: Cell, d: int, x: Side)
    requires c in k && 0 <= d < 4 && Across(Side(c, d)) !in k
    ensures x in Partly(k, c, d + 1) <==> x in Partly(k, c, d) || x == Side(c, d)
  {
    PartlyMeaning(k, c, d, x);
    PartlyMeaning(k, c, d + 1, x);
    hide Partly;
  }

  lemma PartlyEnds(k: Region, c: Cell)
    requires c in k
    ensures Partly(k, c, 0) == Sides(k - {c}) && Partly(k, c, 4) == Sides(k)
  {
    hide Sides, Partly;
    forall x ensures x in Partly(k, c, 0) <==> x in Sides(k - {c}) {
      PartlyMeaning(k, c, 0, x);
      SidesMeaning(k - {c}, x);
      if Bounds(k - {c}, x) { SideEnds(x); }
    }
    forall x ensures x in Partly(k, c, 4) <==> x in Sides(k) {
      PartlyMeaning(k, c, 4, x);
      SidesMeaning(k, x);
    }
  }

  lemma FourSides(c: Cell)
    ensures Weight(Side(c, 0)) + Weight(Side(c, 1)) + Weight(Side(c, 2)) + Weight(Side(c, 3)) == 2
  {
  }

  /** Green's theorem on the raster: the boundary sums to twice the number of cells. */
  lemma {:induction false} BoundaryEncloses(k: Region)
    ensures Total(Sides(k)) == 2 * |k|
    decreases k
  {
    hide Total, Weight, Partly;
    if k == {} {
      assert Sides(k) == {};
      assert Total({}) == 0 by { EmptyTotal(); }
    } else {
      var c :| c in k;
      BoundaryEncloses(k - {c});
      PartlyEnds(k, c);
      PartlyStep(k, c, 0);
      PartlyStep(k, c, 1);
      PartlyStep(k, c, 2);
      PartlyStep(k, c, 3);
      FourSides(c);
    }
  }

  lemma EmptyTotal()
    ensures Total({}) == 0
  {
  }

  // ----- a circuit's area ------------------------------------------------------------------------------

  ghost function Walked(v: seq<Pt>, n: int): set<Side>
    requires 0 <= n <= |v|
  {
    set i | 0 <= i < n :: SideOf(v[i], After(v, i))
  }

  /** A closed walk along boundary edges through distinct vertices. */
  ghost predicate Rounds(k: Region, v: seq<Pt>) {
    Distinct(v) && forall i :: 0 <= i < |v| ==> Arc(k, v[i], After(v, i))
  }

  lemma RoundsAt(k: Region, v: seq<Pt>, i: int)
    requires Rounds(k, v) && 0 <= i < |v|
    ensures Arc(k, v[i], After(v, i)) && SideOf(v[i], After(v, i)) in Sides(k)
    ensures From(SideOf(v[i], After(v, i))) == v[i]
  {
    hide Bounds, SideOf, From, To;
    ArcSide(k, v[i], After(v, i));
    EndsSide(v[i], After(v, i));
  }

  lemma WalkedNext(k: Region, v: seq<Pt>, n: int)
    requires Rounds(k, v) && 0 <= n < |v|
    ensures var e := SideOf(v[n], After(v, n));
            Walked(v, n + 1) == Walked(v, n) + {e} && e !in Walked(v, n) && Weight(e) == Det(v[n], After(v, n))
  {
    hide Bounds, SideOf, From, To, After, Rounds;
    var e := SideOf(v[n], After(v, n));
    RoundsAt(k, v, n);
    EndsSide(v[n], After(v, n));
    forall i | 0 <= i < n ensures SideOf(v[i], After(v, i)) != e {
      RoundsAt(k, v, i);
      assert v[i] != v[n] by { RoundsApart(k, v, i, n); }
    }
  }

  lemma RoundsApart(k: Region, v: seq<Pt>, i: int, j: int)
    requires Rounds(k, v) && 0 <= i < j < |v|
    ensures v[i] != v[j]
  {
    hide Arc;
  }

  /** The shoelace sum over the first `n` steps. */
  ghost function Upto(v: seq<Pt>, n: int): int
    requires 0 <= n <= |v|
  {
    if n == 0 then 0 else Along(v[..n]) + Det(v[n - 1], After(v, n - 1))
  }

  lemma UptoNext(v: seq<Pt>, n: int)
    requires 0 <= n < |v|
    ensures Upto(v, n + 1) == Upto(v, n) + Det(v[n], After(v, n))
  {
    hide Det, Along;
    assert v[..n + 1] == v[..n] + [v[n]];
    AlongSnoc(v[..n], v[n]);
    if n > 0 { assert v[..n][n - 1] == v[n - 1]; }
  }

  /** Index `i` modulo `n`, for the next and the previous vertex of a ring. */
  function Wrap(i: nat, n: nat): nat
    requires i < 2 * n
  {
    if i < n then i else i - n
  }

  /** The shoelace area of a ring, as the source adds it up. */
  method SignedArea(ring: seq<Pt>) returns (a: real)
    ensures a == Twice(ring) as real / 2.0
  {
    hide Upto, Det, Along;
    var sum := 0;
    assert sum == Upto(ring, 0) by { UptoNone(ring); }
    for k := 0 to |ring|
      invariant sum == Upto(ring, k)
    {
      UptoNext(ring, k);
      sum := sum + Det(ring[k], ring[Wrap(k + 1, |ring|)]);
    }
    if ring != [] { LastAfter(ring); } else { UptoNone(ring); }
    a := sum as real / 2.0;
  }

  lemma UptoNone(v: seq<Pt>)
    ensures Upto(v, 0) == 0
  {
  }

  lemma WalkedNone(v: seq<Pt>)
    ensures Walked(v, 0) == {} && Total({}) == 0
  {
    EmptyTotal();
  }

  lemma SizeAdd<T>(s: set<T>, e: T)
    requires e !in s
    ensures |s + {e}| == |s| + 1
  {
  }

  lemma {:induction false} WalkedTotal(k: Region, v: seq<Pt>, n: int)
    requires Rounds(k, v) && 0 <= n <= |v|
    ensures |Walked(v, n)| == n && Total(Walked(v, n)) == Upto(v, n)
  {
    hide *;
    if n == 0 {
      WalkedNone(v);
      UptoNone(v);
    } else {
      var s, e := Walked(v, n - 1), SideOf(v[n - 1], After(v, n - 1));
      WalkedTotal(k, v, n - 1);
      WalkedNext(k, v, n - 1);
      TotalAdd(s, e);
      SizeAdd(s, e);
      UptoNext(v, n - 1);
    }
  }

  /** A circuit encloses exactly its region's cells. */
  lemma CircuitArea(k: Region, v: seq<Pt>)
    requires Circuit(k, v)
    ensures Twice(v) == 2 * |k| && |v| == |Sides(k)|
  {
    assert Rounds(k, v) by { hide Arc; }
    hide *;
    WalkedTotal(k, v, |v|);
    WalkedAll(k, v);
    BoundaryEncloses(k);
    LastAfter(v);
  }

  lemma LastAfter(v: seq<Pt>)
    requires v != []
    ensures Twice(v) == Upto(v, |v|)
  {
    assert v[..|v|] == v;
  }

  lemma WalkedAll(k: Region, v: seq<Pt>)
    requires Circuit(k, v)
    ensures Walked(v, |v|) == Sides(k)
  {
    hide Arc, Sides, Distinct;
    assert Rounds(k, v);
    hide Circuit;
    forall e ensures e in Walked(v, |v|) <==> e in Sides(k) {
      if e in Walked(v, |v|) {
        var i :| 0 <= i < |v| && e == SideOf(v[i], After(v, i));
        RoundsAt(k, v, i);
      }
      if e in Sides(k) { SideWalked(k, v, e); }
    }
  }

  lemma SideWalked(k: Region, v: seq<Pt>, e: Side)
    requires Circuit(k, v) && e in Sides(k)
    ensures e in Walked(v, |v|)
  {
    hide Arc, Distinct;
    SidesMeaning(k, e);
    SideArc(k, e);
    SideEnds(e);
    var i :| 0 <= i < |v| && v[i] == From(e) && After(v, i) == To(e);
  }

  lemma ArcSide(k: Region, p: Pt, q: Pt)
    requires Arc(k, p, q)
    ensures SideOf(p, q) in Sides(k)
  {
    SidesMeaning(k, SideOf(p, q));
  }
}
