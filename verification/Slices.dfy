/** One sync's share of the store: its cursor and its rows. */
module Slices {
  import opened Model
  import opened Lists
  import opened StoreModel
  import opened Engine
  import opened Laws

  ghost predicate SameSlice(a: Db, b: Db, sync: string) {
    && (sync in a.cursors <==> sync in b.cursors)
    && (sync in a.cursors ==> a.cursors[sync] == b.cursors[sync])
    && forall k: RowKey :: k.sync == sync ==>
         (k in a.rows <==> k in b.rows) && (k in a.rows ==> a.rows[k] == b.rows[k])
  }

  lemma SliceTransitive(a: Db, b: Db, d: Db, sync: string)
    requires SameSlice(a, b, sync) && SameSlice(b, d, sync)
    ensures SameSlice(a, d, sync)
  {
  }

  lemma SliceGivesLane(a: Db, b: Db, lane: Lane)
    requires SameSlice(a, b, lane.sync)
    ensures SameLane(a, b, lane)
  {
    assert LaneRows(a, lane).Keys == LaneRows(b, lane).Keys;
  }

  lemma {:induction false} MarkAllSlice(a: Db, b: Db, lane: Lane, i: nat, delivered: seq<WatchItem>, mark: (nat,
      nat) -> WriteAnswer)
    requires SameSlice(a, b, lane.sync)
    ensures SameSlice(MarkAll(a, lane, i, delivered, mark), MarkAll(b, lane, i, delivered, mark), lane.sync)
  {
    if delivered != [] {
      MarkAllSlice(a, b, lane, i, delivered[..|delivered| - 1], mark);
    }
  }

  /** Two fan-outs have gone the same way, on stores that agree on the sync's slice. */
  ghost predicate SameCourse(f: Fan, g: Fan, sync: string) {
    && SameSlice(f.db, g.db, sync)
    && f.errs == g.errs && f.log == g.log
    && f.anyFresh == g.anyFresh && f.allOK == g.allOK && f.aborted == g.aborted
  }

  lemma ServeSlice(env: Env, lane: Lane, i: nat, items: seq<WatchItem>, p: Fan, q: Fan)
    requires SameCourse(p, q, lane.sync)
    ensures SameCourse(ServeTarget(env, lane, i, items, p), ServeTarget(env, lane, i, items, q), lane.sync)
  {
    SliceGivesLane(p.db, q.db, lane);
    SameLaneSameFresh(p.db, q.db, lane, items);
    MarkAllSlice(p.db, q.db, lane, i, env.push(i, Fresh(p.db, lane, items)).delivered, env.mark);
  }

  ghost predicate SliceClaim(sync: string, env: Env, targets: seq<string>, items: seq<WatchItem>, a: Db, b: Db, n: nat) {
    n <= |targets| ==>
      SameCourse(FanOut(sync, env, targets, items, a, n), FanOut(sync, env, targets, items, b, n), sync)
  }

  lemma SliceStep(sync: string, env: Env, targets: seq<string>, items: seq<WatchItem>, a: Db, b: Db, k: nat)
    requires k < |targets| && SliceClaim(sync, env, targets, items, a, b, k)
    ensures SliceClaim(sync, env, targets, items, a, b, k + 1)
  {
    var p, q := FanOut(sync, env, targets, items, a, k), FanOut(sync, env, targets, items, b, k);
    FanOutNext(sync, env, targets, items, a, k);
    FanOutNext(sync, env, targets, items, b, k);
    if !p.aborted {
      ServeSlice(env, LaneOf(sync, env, targets, k), k, items, p, q);
    }
  }

  ghost function SliceClaims(sync: string, env: Env, targets: seq<string>, items: seq<WatchItem>, a: Db,
      b: Db): nat -> bool {
    (k: nat) => SliceClaim(sync, env, targets, items, a, b, k)
  }

  lemma SliceSteps(sync: string, env: Env, targets: seq<string>, items: seq<WatchItem>, a: Db, b: Db,
      claim: nat -> bool, k: nat)
    requires claim == SliceClaims(sync, env, targets, items, a, b) && k < |targets|
    ensures claim(k) ==> claim(k + 1)
  {
    if claim(k) {
      SliceStep(sync, env, targets, items, a, b, k);
    }
  }

  lemma FanOutSlice(sync: string, env: Env, targets: seq<string>, items: seq<WatchItem>, a: Db, b: Db, n: nat)
    requires n <= |targets| && SameSlice(a, b, sync)
    ensures SliceClaim(sync, env, targets, items, a, b, n)
  {
    var claim := SliceClaims(sync, env, targets, items, a, b);
    forall k: nat | k < n ensures claim(k) ==> claim(k + 1) {
      SliceSteps(sync, env, targets, items, a, b, claim, k);
    }
    Climb(claim, n);
  }

  /** A run depends on nothing but its own slice of the store. */
  lemma RunDependsOnSlice(sync: string, env: Env, targets: seq<string>, a: Db, b: Db)
    requires SameSlice(a, b, sync)
    ensures var r, q := SyncRun(sync, env, targets, a), SyncRun(sync, env, targets, b);
            SameSlice(r.db, q.db, sync) && r.errs == q.errs && r.log == q.log
  {
    assert CursorOf(a, sync) == CursorOf(b, sync);
    if env.cursorUp && env.history(CursorOf(a, sync)).Ok? {
      FanOutSlice(sync, env, targets, env.history(CursorOf(a, sync)).value, a, b, |targets|);
    }
  }

  lemma {:induction false} FanOutElsewhere(sync: string, env: Env, targets: seq<string>, items: seq<WatchItem>,
      db: Db, n: nat, other: string)
    requires n <= |targets| && other != sync
    ensures SameSlice(FanOut(sync, env, targets, items, db, n).db, db, other)
  {
    if n > 0 {
      FanOutElsewhere(sync, env, targets, items, db, n - 1, other);
      var p := FanOut(sync, env, targets, items, db, n - 1);
      var lane := LaneOf(sync, env, targets, n - 1);
      MarkAllGrows(p.db, lane, n - 1, env.push(n - 1, Fresh(p.db, lane, items)).delivered, env.mark);
    }
  }

  /** A run changes nothing outside its own slice. */
  lemma RunKeepsOtherSlices(sync: string, env: Env, targets: seq<string>, db: Db, other: string)
    requires other != sync
    ensures SameSlice(SyncRun(sync, env, targets, db).db, db, other)
  {
    if env.cursorUp && env.history(CursorOf(db, sync)).Ok? {
      FanOutElsewhere(sync, env, targets, env.history(CursorOf(db, sync)).value, db, |targets|, other);
    }
  }

  // ---------- many syncs in a row ----------

  function Counter(): nat -> nat {
    (k: nat) => k
  }

  /** Steps that all leave a slice alone leave it alone together. */
  lemma {:induction false} OthersKept(step: (Db, nat) -> Db, db: Db, n: nat, name: string)
    requires forall d, k: nat :: k < n ==> SameSlice(step(d, k), d, name)
    ensures SameSlice(Iterate(step, db, Counter(), n), db, name)
  {
    if n > 0 {
      OthersKept(step, db, n - 1, name);
      var before := Iterate(step, db, Counter(), n - 1);
      SliceTransitive(step(before, n - 1), before, db, name);
    }
  }

  /** If only step i touches a slice, and depends on nothing else, the slice ends as after step i alone. */
  lemma {:induction false} OnlyOneCounts(step: (Db, nat) -> Db, db: Db, n: nat, i: nat, name: string)
    requires i < n && forall d, k: nat :: k < n && k != i ==> SameSlice(step(d, k), d, name)
    requires forall a, b :: SameSlice(a, b, name) ==> SameSlice(step(a, i), step(b, i), name)
    ensures SameSlice(Iterate(step, db, Counter(), n), step(db, i), name)
  {
    var before := Iterate(step, db, Counter(), n - 1);
    if i == n - 1 {
      OthersKept(step, db, i, name);
    } else {
      OnlyOneCounts(step, db, n - 1, i, name);
      SliceTransitive(step(before, n - 1), before, step(db, i), name);
    }
  }
}
