/** What several modules share: options, bounds, lists of lists, and positions in a list. */
module Common {

  datatype Option<+T> = None | Some(value: T)

  function Min(a: int, b: int): int { if a < b then a else b }

  function Max(a: int, b: int): int { if a > b then a else b }

  /** The lists joined end to end. */
  function Joined<T>(s: seq<seq<T>>): seq<T> { if s == [] then [] else Joined(s[..|s| - 1]) + s[|s| - 1] }

  lemma JoinedSnoc<T>(s: seq<seq<T>>, b: seq<T>)
    ensures Joined(s + [b]) == Joined(s) + b
  {
    assert (s + [b])[..|s|] == s;
  }

  lemma {:induction false} JoinedFirst<T>(s: seq<seq<T>>)
    requires s != []
    ensures Joined(s) == s[0] + Joined(s[1..])
  {
    var n := |s| - 1;
    if n > 0 {
      JoinedFirst(s[..n]);
      assert s[1..][..n - 1] == s[..n][1..];
    } else {
      assert s[1..] == [];
    }
  }

  /** Positions in a list of length `n`, in order. */
  ghost predicate Rising(at: seq<nat>, n: nat) {
    (forall j :: 0 <= j < |at| ==> at[j] < n) && forall i, j :: 0 <= i < j < |at| ==> at[i] < at[j]
  }

  ghost predicate Picks(at: seq<nat>, i: nat) { exists j :: 0 <= j < |at| && at[j] == i }

  lemma PicksSnoc(at: seq<nat>, n: nat)
    ensures forall i: nat :: Picks(at + [n], i) <==> Picks(at, i) || i == n
  {
    forall i: nat ensures Picks(at + [n], i) <==> Picks(at, i) || i == n {
      if Picks(at, i) {
        var j :| 0 <= j < |at| && at[j] == i;
        assert (at + [n])[j] == i;
      }
      if i == n { assert (at + [n])[|at|] == i; }
    }
  }
}
