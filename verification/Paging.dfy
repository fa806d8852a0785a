/** Pages of a list that may gain entries at its front while it is read. */
module Paging {

  function Min(a: nat, b: nat): nat {
    if a < b then a else b
  }

  /** Page p, counted from 1, of a list cut into pages of the given size. */
  function Slice<T>(list: seq<T>, p: nat, size: nat): seq<T>
    requires 1 <= p
  {
    SliceBounds(p, size);
    list[Min((p - 1) * size, |list|)..Min(p * size, |list|)]
  }

  lemma SliceBounds(p: nat, size: nat)
    requires 1 <= p
    ensures 0 <= (p - 1) * size && p * size == (p - 1) * size + size
  {
  }

  /** later is earlier with entries added at its front. */
  predicate Tail<T(==)>(earlier: seq<T>, later: seq<T>) {
    |earlier| <= |later| && later[|later| - |earlier|..] == earlier
  }

  /** The list as it is when page p is answered only gains entries at its front from page to page. */
  ghost predicate Grows<T>(list: nat -> seq<T>) {
    forall p: nat :: 1 <= p ==> Tail(list(p), list(p + 1))
  }

  lemma {:induction false} TailOfFirst<T>(list: nat -> seq<T>, p: nat)
    requires 1 <= p && Grows(list)
    ensures Tail(list(1), list(p))
  {
    if p > 1 {
      TailOfFirst(list, p - 1);
      assert Tail(list(p - 1), list(p - 1 + 1));
    }
  }

  /** Pages 1 to n hold every entry of the first list that has not moved behind their end. */
  lemma {:induction false} PagesHold<T>(list: nat -> seq<T>, size: nat, n: nat, d: nat) returns (p: nat)
    requires 1 <= n && Grows(list) && 1 <= d <= |list(1)|
    requires |list(n)| - d < n * size
    ensures 1 <= p <= n && list(1)[|list(1)| - d] in Slice(list(p), p, size)
  {
    TailOfFirst(list, n);
    SliceBounds(n, size);
    var i := |list(n)| - d;
    assert list(n)[i] == list(1)[|list(1)| - d];
    if (n - 1) * size <= i {
      p := n;
      assert Slice(list(n), n, size)[i - (n - 1) * size] == list(n)[i];
    } else {
      TailOfFirst(list, n - 1);
      assert Tail(list(n - 1), list(n - 1 + 1));
      p := PagesHold(list, size, n - 1, d);
    }
  }

  /** Reading on until page n reaches the end of the list misses nothing that was there at the first page. */
  lemma NothingMissed<T>(list: nat -> seq<T>, size: nat, n: nat, x: T) returns (p: nat)
    requires 1 <= n && Grows(list) && x in list(1) && |list(n)| <= n * size
    ensures 1 <= p <= n && x in Slice(list(p), p, size)
  {
    var i :| 0 <= i < |list(1)| && list(1)[i] == x;
    p := PagesHold(list, size, n, |list(1)| - i);
  }

  /** An empty page after the first lies behind the end. */
  lemma EmptySlice<T>(list: seq<T>, p: nat, size: nat)
    requires 1 <= p && size > 0 && Slice(list, p, size) == []
    ensures |list| <= (p - 1) * size
  {
    SliceBounds(p, size);
  }
}
