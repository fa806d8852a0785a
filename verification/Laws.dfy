/** Laws of a single run of Sync, for targets with distinct names. */
module Laws {
  import opened Calendar
  import opened Model
  import opened Lists
  import opened StoreModel
  import opened Engine

  ghost predicate Distinct(targets: seq<string>) {
    forall i, j :: 0 <= i < j < |targets| ==> targets[i] != targets[j]
  }

  /** The rows of one target under one sync. */
  ghost function LaneRows(db: Db, lane: Lane): map<RowKey, Instant> {
    map k | k in db.rows && k.sync == lane.sync && k.target == lane.target :: db.rows[k]
  }

  ghost predicate SameLane(a: Db, b: Db, lane: Lane) {
    LaneRows(a, lane) == LaneRows(b, lane)
  }

  lemma {:induction false} SameLaneSameFresh(a: Db, b: Db, lane: Lane, items: seq<WatchItem>)
    requires SameLane(a, b, lane)
    ensures Fresh(a, lane, items) == Fresh(b, lane, items)
  {
    if items != [] {
      SameLaneSameFresh(a, b, lane, Init(items));
      var k := lane.RowOf(Last(items));
      assert k in a.rows <==> k in LaneRows(a, lane);
      assert k in b.rows <==> k in LaneRows(b, lane);
    }
  }

  // ---------- what marking does ----------

  /** Marking delivered items adds rows for some of them, in their own lane, and changes nothing else. */
  ghost predicate Grows(a: Db, b: Db, lane: Lane, delivered: seq<WatchItem>) {
    && a.cursors == b.cursors
    && (forall k :: k in a.rows ==> k in b.rows && b.rows[k] == a.rows[k])
    && (forall k :: k in b.rows ==> k in a.rows || exists it :: it in delivered && k == lane.RowOf(it))
  }

  lemma {:induction false} MarkAllGrows(db: Db, lane: Lane, i: nat, delivered: seq<WatchItem>, mark: (nat,
      nat) -> WriteAnswer)
    ensures Grows(db, MarkAll(db, lane, i, delivered, mark), lane, delivered)
  {
    if delivered != [] {
      var n := |delivered| - 1;
      MarkAllGrows(db, lane, i, delivered[..n], mark);
      assert delivered[n] in delivered;
      assert forall it :: it in delivered[..n] ==> it in delivered;
    }
  }

  lemma GrowsElsewhere(a: Db, b: Db, lane: Lane, delivered: seq<WatchItem>, other: Lane)
    requires Grows(a, b, lane, delivered)
    requires other.sync != lane.sync || other.target != lane.target
    ensures SameLane(a, b, other)
  {
    assert LaneRows(a, other).Keys == LaneRows(b, other).Keys;
  }

  lemma {:induction false} MarkAllSameLane(a: Db, b: Db, lane: Lane, i: nat, j: nat, delivered: seq<WatchItem>,
                                           ma: (nat, nat) -> WriteAnswer, mb: (nat, nat) -> WriteAnswer)
    requires SameLane(a, b, lane) && forall k: nat :: ma(i, k) == mb(j, k)
    ensures SameLane(MarkAll(a, lane, i, delivered, ma), MarkAll(b, lane, j, delivered, mb), lane)
  {
    if delivered != [] {
      var n := |delivered| - 1;
      MarkAllSameLane(a, b, lane, i, j, delivered[..n], ma, mb);
      WithRowSameLane(MarkAll(a, lane, i, delivered[..n], ma), MarkAll(b, lane, j, delivered[..n], mb),
                      lane, delivered[n], ma(i, n));
    }
  }

  lemma WithRowSameLane(a: Db, b: Db, lane: Lane, it: WatchItem, w: WriteAnswer)
    requires SameLane(a, b, lane)
    ensures SameLane(WithRow(a, lane.RowOf(it), it.watchedAt, w), WithRow(b, lane.RowOf(it), it.watchedAt, w), lane)
  {
    WithRowLane(a, lane, it, w);
    WithRowLane(b, lane, it, w);
  }

  lemma WithRowLane(db: Db, lane: Lane, it: WatchItem, w: WriteAnswer)
    ensures var k, rows := lane.RowOf(it), LaneRows(db, lane);
            LaneRows(WithRow(db, k, it.watchedAt, w), lane)
            == if w.ErrDropped? || k in rows then rows else rows[k := it.watchedAt]
  {
    var k := lane.RowOf(it);
    assert k in db.rows <==> k in LaneRows(db, lane);
    if !w.ErrDropped? && k !in db.rows {
      assert LaneRows(WithRow(db, k, it.watchedAt, w), lane) == LaneRows(db, lane)[k := it.watchedAt];
    }
  }

  /** An item is marked afterwards exactly when it was before, or a delivered item with its hash had its write applied. */
  lemma {:induction false} MarkedAfter(db: Db, lane: Lane, i: nat, delivered: seq<WatchItem>, mark: (nat,
      nat) -> WriteAnswer, it: WatchItem)
    ensures Marked(MarkAll(db, lane, i, delivered, mark), lane, it)
            <==> Marked(db, lane, it)
                 || exists k: nat :: k < |delivered| && lane.hash(delivered[k]) == lane.hash(it) && !mark(i, k).ErrDropped?
  {
    if delivered != [] {
      var n := |delivered| - 1;
      var init := delivered[..n];
      MarkedAfter(db, lane, i, init, mark, it);
      assert forall k: nat :: k < n ==> init[k] == delivered[k];
    }
  }

  // ---------- each target on its own ----------

  /** The store after one target alone was served. */
  ghost function ServedAlone(db: Db, env: Env, lane: Lane, i: nat, items: seq<WatchItem>): Db {
    var missing := Fresh(db, lane, items);
    if missing == [] then db else MarkAll(db, lane, i, env.push(i, missing).delivered, env.mark)
  }

  /** The offers of a run, each computed from the store as it was when the run began. */
  ghost function Offers(sync: string, env: Env, targets: seq<string>, items: seq<WatchItem>, db: Db,
      n: nat): seq<PushEvent>
    requires n <= |targets|
  {
    if n == 0 then []
    else
      var missing := Fresh(db, LaneOf(sync, env, targets, n - 1), items);
      var earlier := Offers(sync, env, targets, items, db, n - 1);
      if missing == [] then earlier else earlier + [PushEvent(n - 1, missing)]
  }

  ghost predicate Complete(env: Env, i: nat, missing: seq<WatchItem>) {
    var reply := env.push(i, missing);
    !reply.failed && |reply.delivered| == |missing| && AllAcked(i, |reply.delivered|, env.mark)
  }

  /** Target i has nothing to be offered, or takes everything and all its marks are acknowledged. */
  ghost predicate Done(sync: string, env: Env, targets: seq<string>, items: seq<WatchItem>, db: Db, i: nat)
    requires i < |targets|
  {
    var missing := Fresh(db, LaneOf(sync, env, targets, i), items);
    missing == [] || Complete(env, i, missing)
  }

  ghost predicate AllDone(sync: string, env: Env, targets: seq<string>, items: seq<WatchItem>, db: Db, n: nat)
    requires n <= |targets|
  {
    forall i :: 0 <= i < n ==> Done(sync, env, targets, items, db, i)
  }

  lemma AllDoneNext(sync: string, env: Env, targets: seq<string>, items: seq<WatchItem>, db: Db, n: nat)
    requires n < |targets|
    ensures AllDone(sync, env, targets, items, db, n + 1)
            <==> AllDone(sync, env, targets, items, db, n) && Done(sync, env, targets, items, db, n)
  {
  }

  ghost predicate LanesAfter(sync: string, env: Env, targets: seq<string>, items: seq<WatchItem>, db: Db, after: Db,
      n: nat)
    requires n <= |targets|
  {
    forall i :: 0 <= i < |targets| ==>
      var lane := LaneOf(sync, env, targets, i);
      SameLane(after, if i < n then ServedAlone(db, env, lane, i, items) else db, lane)
  }

  lemma ServeLane(sync: string, env: Env, targets: seq<string>, items: seq<WatchItem>, db: Db, p: Fan, n: nat)
    requires n < |targets| && Distinct(targets) && AllSeenUp(env, n, |items|)
    requires LanesAfter(sync, env, targets, items, db, p.db, n)
    ensures var f := ServeTarget(env, LaneOf(sync, env, targets, n), n, items, p);
            LanesAfter(sync, env, targets, items, db, f.db, n + 1) && f.db.cursors == p.db.cursors
    ensures Fresh(p.db, LaneOf(sync, env, targets, n), items) == Fresh(db, LaneOf(sync, env, targets, n), items)
  {
    var lane := LaneOf(sync, env, targets, n);
    var f := ServeTarget(env, lane, n, items, p);
    assert SameLane(p.db, db, lane);
    SameLaneSameFresh(p.db, db, lane, items);
    var missing := Fresh(db, lane, items);
    if missing != [] {
      var delivered := env.push(n, missing).delivered;
      MarkAllGrows(p.db, lane, n, delivered, env.mark);
      MarkAllSameLane(p.db, db, lane, n, n, delivered, env.mark, env.mark);
      forall i | 0 <= i < |targets| && i != n
        ensures SameLane(p.db, f.db, LaneOf(sync, env, targets, i))
      {
        GrowsElsewhere(p.db, f.db, lane, delivered, LaneOf(sync, env, targets, i));
      }
    }
  }

  ghost predicate LanesClaim(sync: string, env: Env, targets: seq<string>, items: seq<WatchItem>, db: Db, n: nat) {
    n <= |targets| ==>
      var f := FanOut(sync, env, targets, items, db, n);
      !f.aborted ==> LanesAfter(sync, env, targets, items, db, f.db, n) && f.db.cursors == db.cursors
  }

  lemma LanesBase(sync: string, env: Env, targets: seq<string>, items: seq<WatchItem>, db: Db)
    ensures LanesClaim(sync, env, targets, items, db, 0)
  {
  }

  lemma LanesStep(sync: string, env: Env, targets: seq<string>, items: seq<WatchItem>, db: Db, k: nat)
    requires k < |targets| && Distinct(targets) && LanesClaim(sync, env, targets, items, db, k)
    ensures LanesClaim(sync, env, targets, items, db, k + 1)
  {
    var p := FanOut(sync, env, targets, items, db, k);
    FanOutNext(sync, env, targets, items, db, k);
    if !p.aborted && AllSeenUp(env, k, |items|) {
      ServeLane(sync, env, targets, items, db, p, k);
    }
  }

  ghost function LanesClaims(sync: string, env: Env, targets: seq<string>, items: seq<WatchItem>, db: Db): nat -> bool {
    (k: nat) => LanesClaim(sync, env, targets, items, db, k)
  }

  lemma LanesSteps(sync: string, env: Env, targets: seq<string>, items: seq<WatchItem>, db: Db, claim: nat -> bool,
      k: nat)
    requires claim == LanesClaims(sync, env, targets, items, db) && k < |targets| && Distinct(targets)
    ensures claim(k) ==> claim(k + 1)
  {
    if claim(k) {
      LanesStep(sync, env, targets, items, db, k);
    }
  }

  /** Every target gets the rows it would get if it were served alone from the store the run began with. */
  lemma FanOutLanes(sync: string, env: Env, targets: seq<string>, items: seq<WatchItem>, db: Db, n: nat)
    requires n <= |targets| && Distinct(targets)
    ensures LanesClaim(sync, env, targets, items, db, n)
  {
    var claim := LanesClaims(sync, env, targets, items, db);
    LanesBase(sync, env, targets, items, db);
    forall k: nat | k < n ensures claim(k) ==> claim(k + 1) {
      LanesSteps(sync, env, targets, items, db, claim, k);
    }
    Climb(claim, n);
  }

  /** What serving a target that misses exactly its diff adds to the log and the flags. */
  lemma ServeOffers(env: Env, lane: Lane, i: nat, items: seq<WatchItem>, db: Db, p: Fan)
    requires AllSeenUp(env, i, |items|) && Fresh(p.db, lane, items) == Fresh(db, lane, items)
    ensures var f, missing := ServeTarget(env, lane, i, items, p), Fresh(db, lane, items);
      && f.log == (if missing == [] then p.log else p.log + [PushEvent(i, missing)])
      && (f.anyFresh <==> p.anyFresh || missing != [])
      && (f.allOK <==> p.allOK && (missing == [] || Complete(env, i, missing)))
  {
  }

  /** Every target is offered its own diff of the window against the rows it had when the run began, whatever
      happened to the targets before it. */
  lemma {:induction false} FanOutOffers(sync: string, env: Env, targets: seq<string>, items: seq<WatchItem>, db: Db,
      n: nat)
    requires n <= |targets| && Distinct(targets)
    requires !FanOut(sync, env, targets, items, db, n).aborted
    ensures var f := FanOut(sync, env, targets, items, db, n);
      f.log == Offers(sync, env, targets, items, db, n) && (f.anyFresh <==> f.log != [])
  {
    if n > 0 {
      FanOutOffers(sync, env, targets, items, db, n - 1);
      FanOutLanes(sync, env, targets, items, db, n - 1);
      var p := FanOut(sync, env, targets, items, db, n - 1);
      ServeLane(sync, env, targets, items, db, p, n - 1);
      ServeOffers(env, LaneOf(sync, env, targets, n - 1), n - 1, items, db, p);
    }
  }

  ghost predicate DoneClaim(sync: string, env: Env, targets: seq<string>, items: seq<WatchItem>, db: Db, n: nat) {
    n <= |targets| ==>
      var f := FanOut(sync, env, targets, items, db, n);
      !f.aborted ==> (f.allOK <==> AllDone(sync, env, targets, items, db, n))
  }

  lemma DoneStep(sync: string, env: Env, targets: seq<string>, items: seq<WatchItem>, db: Db, k: nat)
    requires k < |targets| && Distinct(targets) && DoneClaim(sync, env, targets, items, db, k)
    ensures DoneClaim(sync, env, targets, items, db, k + 1)
  {
    var p, lane := FanOut(sync, env, targets, items, db, k), LaneOf(sync, env, targets, k);
    FanOutNext(sync, env, targets, items, db, k);
    if !p.aborted && AllSeenUp(env, k, |items|) {
      FanOutLanes(sync, env, targets, items, db, k);
      ServeLane(sync, env, targets, items, db, p, k);
      ServeOffers(env, lane, k, items, db, p);
      AllDoneNext(sync, env, targets, items, db, k);
    }
  }

  ghost function DoneClaims(sync: string, env: Env, targets: seq<string>, items: seq<WatchItem>, db: Db): nat -> bool {
    (k: nat) => DoneClaim(sync, env, targets, items, db, k)
  }

  lemma DoneSteps(sync: string, env: Env, targets: seq<string>, items: seq<WatchItem>, db: Db, claim: nat -> bool, k: nat)
    requires claim == DoneClaims(sync, env, targets, items, db) && k < |targets| && Distinct(targets)
    ensures claim(k) ==> claim(k + 1)
  {
    if claim(k) {
      DoneStep(sync, env, targets, items, db, k);
    }
  }

  /** The success flag says exactly whether every target took all it was offered with all its marks acknowledged. */
  lemma FanOutDone(sync: string, env: Env, targets: seq<string>, items: seq<WatchItem>, db: Db, n: nat)
    requires n <= |targets| && Distinct(targets)
    ensures DoneClaim(sync, env, targets, items, db, n)
  {
    var claim := DoneClaims(sync, env, targets, items, db);
    forall k: nat | k < n ensures claim(k) ==> claim(k + 1) {
      DoneSteps(sync, env, targets, items, db, claim, k);
    }
    Climb(claim, n);
  }
}
