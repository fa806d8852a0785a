/** Windows of a ledger: how the sources' partial answers fit the engine's hypothesis. */
module Windows {
  import opened Calendar
  import opened Model
  import opened Lists
  import opened Protocol

  lemma {:induction false} WindowSelf(ledger: seq<WatchItem>, since: Instant)
    ensures Window(ledger, ledger, since)
  {
    if ledger != [] {
      WindowSelf(Init(ledger), since);
    }
  }

  lemma {:induction false} SelectIsWindow(ledger: seq<WatchItem>, p: WatchItem -> bool, since: Instant)
    requires forall it :: it in ledger && !p(it) ==> Before(it, since)
    ensures Window(Select(ledger, p), ledger, since)
  {
    if ledger != [] {
      assert Last(ledger) in ledger && forall it :: it in Init(ledger) ==> it in ledger;
      SelectIsWindow(Init(ledger), p, since);
      var earlier := Select(Init(ledger), p);
      assert Init(earlier + [Last(ledger)]) == earlier;
    }
  }

  lemma {:induction false} WindowConcat(a: seq<WatchItem>, l: seq<WatchItem>, b: seq<WatchItem>, m: seq<WatchItem>,
      since: Instant)
    requires Window(a, l, since) && Window(b, m, since)
    ensures Window(a + b, l + m, since)
  {
    if m == [] {
      assert a + b == a && l + m == l;
    } else {
      assert Init(l + m) == l + Init(m);
      if b != [] && Last(b) == Last(m) && Window(Init(b), Init(m), since) {
        WindowConcat(a, l, Init(b), Init(m), since);
        assert Init(a + b) == a + Init(b);
      } else {
        WindowConcat(a, l, b, Init(m), since);
      }
    }
  }

  lemma {:induction false} WindowNone(ledger: seq<WatchItem>, since: Instant)
    requires forall it :: it in ledger ==> Before(it, since)
    ensures Window([], ledger, since)
  {
    if ledger != [] {
      assert Last(ledger) in ledger && forall it :: it in Init(ledger) ==> it in ledger;
      WindowNone(Init(ledger), since);
    }
  }

  lemma {:induction false} WindowIsSubseq(items: seq<WatchItem>, ledger: seq<WatchItem>, since: Instant)
    requires Window(items, ledger, since)
    ensures Subseq(items, ledger)
  {
    if ledger != [] {
      if items != [] && Last(items) == Last(ledger) && Window(Init(items), Init(ledger), since) {
        WindowIsSubseq(Init(items), Init(ledger), since);
      } else {
        WindowIsSubseq(items, Init(ledger), since);
      }
    }
  }

  /** A window keeps every occurrence of an entry that is not dated before the cursor. */
  lemma {:induction false} WindowCounts(items: seq<WatchItem>, ledger: seq<WatchItem>, since: Instant, it: WatchItem)
    requires Window(items, ledger, since) && !Before(it, since)
    ensures multiset(items)[it] == multiset(ledger)[it]
  {
    if ledger != [] {
      assert ledger == Init(ledger) + [Last(ledger)];
      if items != [] && Last(items) == Last(ledger) && Window(Init(items), Init(ledger), since) {
        assert items == Init(items) + [Last(items)];
        WindowCounts(Init(items), Init(ledger), since, it);
      } else {
        WindowCounts(items, Init(ledger), since, it);
      }
    }
  }

  lemma {:induction false} SelectWindow(items: seq<WatchItem>, ledger: seq<WatchItem>, p: WatchItem -> bool,
      since: Instant)
    requires Window(items, ledger, since)
    ensures Window(Select(items, p), Select(ledger, p), since)
  {
    if ledger != [] {
      var kept := Select(Init(ledger), p);
      assert Init(kept + [Last(ledger)]) == kept;
      if items != [] && Last(items) == Last(ledger) && Window(Init(items), Init(ledger), since) {
        SelectWindow(Init(items), Init(ledger), p, since);
        var earlier := Select(Init(items), p);
        assert Init(earlier + [Last(items)]) == earlier;
      } else {
        SelectWindow(items, Init(ledger), p, since);
      }
    }
  }
}
