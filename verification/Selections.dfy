/** Increasing lists of the positions that satisfy a condition, among the first `n`. */
module Selections {
  ghost predicate Lists(at: seq<int>, n: nat, sel: int -> bool) {
    && (forall j :: 0 <= j < |at| ==> 0 <= at[j] < n && sel(at[j]))
    && (forall i, j :: 0 <= i < j < |at| ==> at[i] < at[j])
    && (forall i :: 0 <= i < n && sel(i) ==> i in at)
  }

  /** Looking further without finding anything keeps the list. */
  lemma ListsKept(at: seq<int>, n: nat, sel: int -> bool, m: nat, more: int -> bool)
    requires n <= m && Lists(at, n, sel)
    requires forall i :: 0 <= i < n ==> (more(i) <==> sel(i))
    requires forall i :: n <= i < m ==> !more(i)
    ensures Lists(at, m, more)
  {
  }

  lemma ListsShrink(at: seq<int>, n: nat, sel: int -> bool)
    requires Lists(at, n + 1, sel) && !sel(n)
    ensures Lists(at, n, sel)
  {
  }

  /** The last position looked at is the only new one. */
  lemma ListsGrow(at: seq<int>, n: nat, sel: int -> bool, m: nat, more: int -> bool)
    requires n < m && Lists(at, n, sel)
    requires forall i :: 0 <= i < n ==> (more(i) <==> sel(i))
    requires forall i :: n <= i < m - 1 ==> !more(i)
    requires more(m - 1)
    ensures Lists(at + [m - 1], m, more)
  {
    var grown := at + [m - 1];
    forall i | 0 <= i < m && more(i)
      ensures i in grown
    {
      if i < n {
        assert i in at;
      } else {
        assert grown[|at|] == i;
      }
    }
  }

  lemma ListsRoom(at: seq<int>, n: nat, sel: int -> bool)
    requires Lists(at, n, sel)
    ensures n == 0 ==> at == []
  {
    if at != [] {
      assert 0 <= at[0] < n;
    }
  }

  /** A list that misses nothing is the list of all positions. */
  lemma {:induction false} ListsAll(at: seq<int>, n: nat, sel: int -> bool)
    requires Lists(at, n, sel)
    requires forall i :: 0 <= i < n ==> sel(i)
    ensures |at| == n && forall j :: 0 <= j < n ==> at[j] == j
  {
    ListsRoom(at, n, sel);
    if n > 0 {
      assert sel(n - 1) && n - 1 in at;
      var last := |at| - 1;
      assert at[last] == n - 1;
      forall i | 0 <= i < n - 1 && sel(i)
        ensures i in at[..last]
      {
        assert i in at;
        var j :| 0 <= j < |at| && at[j] == i;
        assert at[..last][j] == i;
      }
      ListsAll(at[..last], n - 1, sel);
    }
  }
}
