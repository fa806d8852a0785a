/** Order-preserving sub-lists: the contract between the engine and a target's Push. */
module Lists {

  function Init<T>(s: seq<T>): seq<T>
    requires s != []
  {
    s[..|s| - 1]
  }

  function Last<T>(s: seq<T>): T
    requires s != []
  {
    s[|s| - 1]
  }

  /** a is b with some occurrences left out. */
  ghost predicate Subseq<T>(a: seq<T>, b: seq<T>) {
    a == [] ||
    (b != [] && (Subseq(a, Init(b)) || (Last(a) == Last(b) && Subseq(Init(a), Init(b)))))
  }

  lemma {:induction false} SubseqSelf<T>(a: seq<T>)
    ensures Subseq(a, a)
  {
    if a != [] {
      SubseqSelf(Init(a));
    }
  }

  lemma SubseqSnoc<T>(a: seq<T>, b: seq<T>, x: T)
    requires Subseq(a, b)
    ensures Subseq(a, b + [x]) && Subseq(a + [x], b + [x])
  {
    assert Init(b + [x]) == b && Init(a + [x]) == a;
  }

  lemma {:induction false} SubseqBounds<T>(a: seq<T>, b: seq<T>)
    requires Subseq(a, b)
    ensures |a| <= |b| && multiset(a) <= multiset(b)
    ensures |a| == |b| ==> a == b
  {
    if a != [] {
      assert b == Init(b) + [Last(b)] && a == Init(a) + [Last(a)];
      if Subseq(a, Init(b)) {
        SubseqBounds(a, Init(b));
      } else {
        SubseqBounds(Init(a), Init(b));
      }
    }
  }

  lemma SubseqMember<T>(a: seq<T>, b: seq<T>, x: T)
    requires Subseq(a, b) && x in a
    ensures x in b
  {
    SubseqBounds(a, b);
    assert x in multiset(a);
    assert multiset(a)[x] <= multiset(b)[x];
  }

  lemma {:induction false} SubseqTransitive<T>(a: seq<T>, b: seq<T>, c: seq<T>)
    requires Subseq(a, b) && Subseq(b, c)
    ensures Subseq(a, c)
    decreases |c|
  {
    if a != [] {
      assert b != [];
      if Subseq(b, Init(c)) {
        SubseqTransitive(a, b, Init(c));
      } else if Subseq(a, Init(b)) {
        SubseqTransitive(a, Init(b), Init(c));
      } else {
        SubseqTransitive(Init(a), Init(b), Init(c));
      }
    }
  }

  lemma {:induction false} PrefixSubseq<T>(a: seq<T>, b: seq<T>)
    requires a <= b
    ensures Subseq(a, b)
    decreases |b|
  {
    if |a| == |b| {
      assert a == b;
      SubseqSelf(a);
    } else {
      PrefixSubseq(a, Init(b));
    }
  }

  /** The engine compares lengths only. Against the Push contract that comparison is exact:
      equal lengths mean that every occurrence was delivered, in order. */
  lemma LengthTestExact<T>(delivered: seq<T>, offered: seq<T>)
    requires Subseq(delivered, offered)
    ensures |delivered| == |offered| <==> delivered == offered
    ensures |delivered| == |offered| <==> multiset(delivered) == multiset(offered)
  {
    SubseqBounds(delivered, offered);
    if multiset(delivered) == multiset(offered) {
      assert |multiset(delivered)| == |multiset(offered)|;
    }
  }

  /** The state after a list of steps, first step first. */
  function Fold<S, A>(step: (S, A) -> S, s: S, acts: seq<A>): S {
    if acts == [] then s else step(Fold(step, s, Init(acts)), Last(acts))
  }

  lemma {:induction false} FoldConcat<S, A>(step: (S, A) -> S, s: S, a: seq<A>, b: seq<A>)
    ensures Fold(step, s, a + b) == Fold(step, Fold(step, s, a), b)
  {
    if b == [] {
      assert a + b == a;
    } else {
      FoldConcat(step, s, a, Init(b));
      assert Init(a + b) == a + Init(b);
    }
  }

  /** The state after n steps over an endless input. */
  function Iterate<S, A>(step: (S, A) -> S, s: S, input: nat -> A, n: nat): S {
    if n == 0 then s else step(Iterate(step, s, input, n - 1), input(n - 1))
  }

  lemma {:induction false} IterateKeeps<S(!new), A(!new)>(step: (S, A) -> S, s: S, input: nat -> A, n: nat,
      inv: S -> bool)
    requires inv(s) && forall x, a :: inv(x) ==> inv(step(x, a))
    ensures inv(Iterate(step, s, input, n))
  {
    if n > 0 {
      IterateKeeps(step, s, input, n - 1, inv);
    }
  }

  /** Parts 1 to n in a row. */
  function Concat<T>(part: nat -> seq<T>, n: nat): seq<T> {
    if n == 0 then [] else Concat(part, n - 1) + part(n)
  }

  lemma {:induction false} ConcatMember<T>(part: nat -> seq<T>, n: nat, p: nat, x: T)
    requires 1 <= p <= n && x in part(p)
    ensures x in Concat(part, n)
  {
    if p < n {
      ConcatMember(part, n - 1, p, x);
    }
  }

  lemma {:induction false} ConcatAll<T>(part: nat -> seq<T>, n: nat, good: T -> bool)
    requires forall p: nat, x :: x in part(p) ==> good(x)
    ensures forall x :: x in Concat(part, n) ==> good(x)
  {
    if n > 0 {
      ConcatAll(part, n - 1, good);
    }
  }

  /** What each key stands for, in a row. */
  function Gather<K, T>(keys: seq<K>, part: K -> seq<T>): seq<T> {
    if keys == [] then [] else Gather(Init(keys), part) + part(Last(keys))
  }

  lemma {:induction false} GatherConcat<K, T>(a: seq<K>, b: seq<K>, part: K -> seq<T>)
    ensures Gather(a + b, part) == Gather(a, part) + Gather(b, part)
  {
    if b == [] {
      assert a + b == a;
    } else {
      GatherConcat(a, Init(b), part);
      assert Init(a + b) == a + Init(b) && Last(a + b) == Last(b);
    }
  }

  lemma GatherNext<K, T>(keys: seq<K>, i: nat, part: K -> seq<T>)
    requires i < |keys|
    ensures Gather(keys[..i + 1], part) == Gather(keys[..i], part) + part(keys[i])
  {
    assert Init(keys[..i + 1]) == keys[..i];
  }

  lemma {:induction false} GatherMember<K, T>(keys: seq<K>, part: K -> seq<T>, k: K, x: T)
    requires k in keys && x in part(k)
    ensures x in Gather(keys, part)
  {
    if k != Last(keys) {
      GatherMember(Init(keys), part, k, x);
    }
  }

  lemma {:induction false} GatherAll<K(!new), T>(keys: seq<K>, part: K -> seq<T>, good: T -> bool)
    requires forall k, x :: x in part(k) ==> good(x)
    ensures forall x :: x in Gather(keys, part) ==> good(x)
  {
    if keys != [] {
      GatherAll(Init(keys), part, good);
    }
  }

  /** Induction on a number, for claims whose steps are proved apart. */
  lemma {:induction false} Climb(claim: nat -> bool, n: nat)
    requires claim(0) && forall k: nat :: k < n && claim(k) ==> claim(k + 1)
    ensures claim(n)
  {
    if n > 0 {
      Climb(claim, n - 1);
      assert claim(n - 1 + 1);
    }
  }

  /** The elements that satisfy p, in order. */
  function Select<T>(s: seq<T>, p: T -> bool): seq<T> {
    if s == [] then []
    else
      var earlier := Select(Init(s), p);
      if p(Last(s)) then earlier + [Last(s)] else earlier
  }

  lemma {:induction false} SelectIsSubseq<T>(s: seq<T>, p: T -> bool)
    ensures Subseq(Select(s, p), s)
  {
    if s != [] {
      SelectIsSubseq(Init(s), p);
      SubseqSnoc(Select(Init(s), p), Init(s), Last(s));
      assert Init(s) + [Last(s)] == s;
    }
  }

  lemma {:induction false} SelectMember<T>(s: seq<T>, p: T -> bool, x: T)
    ensures x in Select(s, p) <==> x in s && p(x)
  {
    if s != [] {
      SelectMember(Init(s), p, x);
      assert s == Init(s) + [Last(s)];
    }
  }

  /** Every occurrence is kept or none is. */
  lemma {:induction false} SelectOccurrences<T>(s: seq<T>, p: T -> bool, x: T)
    ensures multiset(Select(s, p))[x] == if p(x) then multiset(s)[x] else 0
  {
    if s != [] {
      SelectOccurrences(Init(s), p, x);
      assert s == Init(s) + [Last(s)];
    }
  }

  lemma {:induction false} GatherSource<K, T>(keys: seq<K>, part: K -> seq<T>, x: T) returns (k: K)
    requires x in Gather(keys, part)
    ensures k in keys && x in part(k)
  {
    if x in part(Last(keys)) {
      k := Last(keys);
    } else {
      k := GatherSource(Init(keys), part, x);
    }
  }

  lemma {:induction false} ConcatSource<T>(part: nat -> seq<T>, n: nat, x: T) returns (p: nat)
    requires x in Concat(part, n)
    ensures 1 <= p <= n && x in part(p)
  {
    if x in part(n) {
      p := n;
    } else {
      p := ConcatSource(part, n - 1, x);
    }
  }

  lemma {:induction false} SelectConcat<T>(a: seq<T>, b: seq<T>, p: T -> bool)
    ensures Select(a + b, p) == Select(a, p) + Select(b, p)
  {
    if b == [] {
      assert a + b == a;
    } else {
      SelectConcat(a, Init(b), p);
      assert Init(a + b) == a + Init(b) && Last(a + b) == Last(b);
    }
  }

  lemma {:induction false} SelectSame<T>(s: seq<T>, p: T -> bool, q: T -> bool)
    requires forall x :: x in s ==> p(x) == q(x)
    ensures Select(s, p) == Select(s, q)
  {
    if s != [] {
      assert s == Init(s) + [Last(s)];
      SelectSame(Init(s), p, q);
    }
  }

  /** A selection that takes each key's part as d does or not at all selects the keys. */
  lemma {:induction false} SelectGather<K, T>(keys: seq<K>, part: K -> seq<T>, keep: K -> bool, q: T -> bool,
      d: T -> bool)
    requires forall k :: k in keys ==> Select(part(k), q) == if keep(k) then Select(part(k), d) else []
    ensures Select(Gather(keys, part), q) == Select(Gather(Select(keys, keep), part), d)
  {
    if keys != [] {
      var init, k := Init(keys), Last(keys);
      assert keys == init + [k];
      var kept := Select(init, keep);
      SelectGather(init, part, keep, q, d);
      SelectConcat(Gather(init, part), part(k), q);
      if keep(k) {
        GatherSnoc(kept, k, part);
        SelectConcat(Gather(kept, part), part(k), d);
      }
    }
  }

  lemma GatherSnoc<K, T>(keys: seq<K>, k: K, part: K -> seq<T>)
    ensures Gather(keys + [k], part) == Gather(keys, part) + part(k)
  {
    assert Init(keys + [k]) == keys;
  }

  lemma SelectNext<T>(s: seq<T>, i: nat, p: T -> bool)
    requires i < |s|
    ensures Select(s[..i + 1], p) == if p(s[i]) then Select(s[..i], p) + [s[i]] else Select(s[..i], p)
  {
    assert Init(s[..i + 1]) == s[..i];
  }

  lemma {:induction false} SelectBoth<T(!new)>(s: seq<T>, p: T -> bool, q: T -> bool, both: T -> bool)
    requires forall x :: both(x) <==> p(x) && q(x)
    ensures Select(Select(s, p), q) == Select(s, both)
  {
    if s != [] {
      SelectBoth(Init(s), p, q, both);
      var earlier := Select(Init(s), p);
      assert Init(earlier + [Last(s)]) == earlier;
    }
  }

  lemma {:induction false} SelectTwice<T(!new)>(items: seq<T>, p: T -> bool, q: T -> bool)
    requires forall it :: q(it) ==> p(it)
    ensures Select(Select(items, p), q) == Select(items, q)
  {
    if items != [] {
      SelectTwice(Init(items), p, q);
      var earlier := Select(Init(items), p);
      assert Init(earlier + [Last(items)]) == earlier;
    }
  }
}
