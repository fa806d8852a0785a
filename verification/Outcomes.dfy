/** What one run, and a rerun, does to cursors, rows and targets. */
module Outcomes {
  import opened Calendar
  import opened Model
  import opened Lists
  import opened StoreModel
  import opened Engine
  import opened Protocol
  import opened Laws

  /** The run reads its cursor and its window. */
  ghost predicate Reads(sync: string, env: Env, db: Db, items: seq<WatchItem>) {
    env.cursorUp && env.history(CursorOf(db, sync)) == Ok(items)
  }

  ghost predicate AllUp(env: Env, n: nat, items: seq<WatchItem>) {
    forall i: nat :: i < n ==> AllSeenUp(env, i, |items|)
  }

  lemma {:induction false} AbortsExactly(sync: string, env: Env, targets: seq<string>, items: seq<WatchItem>,
      db: Db, n: nat)
    requires n <= |targets|
    ensures FanOut(sync, env, targets, items, db, n).aborted <==> !AllUp(env, n, items)
  {
    if n > 0 {
      AbortsExactly(sync, env, targets, items, db, n - 1);
    }
  }

  // ---------- offers, target by target ----------

  ghost function OfferedTo(log: seq<PushEvent>, i: nat): seq<WatchItem> {
    if log == [] then []
    else
      var earlier := OfferedTo(Init(log), i);
      if Last(log).target == i then earlier + Last(log).items else earlier
  }

  lemma OffersToStep(sync: string, env: Env, targets: seq<string>, items: seq<WatchItem>, db: Db, k: nat, i: nat)
    requires k < |targets| && i < |targets|
    ensures var missing := Fresh(db, LaneOf(sync, env, targets, k), items);
            var before, after := Offers(sync, env, targets, items, db, k), Offers(sync, env, targets, items, db, k + 1);
            OfferedTo(after, i) == if k == i then OfferedTo(before, i) + missing else OfferedTo(before, i)
  {
    var missing := Fresh(db, LaneOf(sync, env, targets, k), items);
    var before := Offers(sync, env, targets, items, db, k);
    OfferedToSnoc(before, PushEvent(k, missing), i);
    if missing == [] {
      assert OfferedTo(before, i) + missing == OfferedTo(before, i);
    }
  }

  ghost predicate OffersClaim(sync: string, env: Env, targets: seq<string>, items: seq<WatchItem>, db: Db, i: nat, n: nat)
    requires i < |targets|
  {
    n <= |targets| ==>
      OfferedTo(Offers(sync, env, targets, items, db, n), i)
      == if i < n then Fresh(db, LaneOf(sync, env, targets, i), items) else []
  }

  lemma OffersClaimStep(sync: string, env: Env, targets: seq<string>, items: seq<WatchItem>, db: Db, i: nat, k: nat)
    requires k < |targets| && i < |targets| && OffersClaim(sync, env, targets, items, db, i, k)
    ensures OffersClaim(sync, env, targets, items, db, i, k + 1)
  {
    OffersToStep(sync, env, targets, items, db, k, i);
    var missing := Fresh(db, LaneOf(sync, env, targets, i), items);
    assert [] + missing == missing;
  }

  lemma OffersClaimBase(sync: string, env: Env, targets: seq<string>, items: seq<WatchItem>, db: Db, i: nat)
    requires i < |targets|
    ensures OffersClaim(sync, env, targets, items, db, i, 0)
  {
  }

  ghost function OffersClaims(sync: string, env: Env, targets: seq<string>, items: seq<WatchItem>, db: Db, i: nat)
    : nat -> bool
    requires i < |targets|
  {
    (k: nat) => OffersClaim(sync, env, targets, items, db, i, k)
  }

  lemma OffersClaimsStep(sync: string, env: Env, targets: seq<string>, items: seq<WatchItem>, db: Db, i: nat,
      claim: nat -> bool, k: nat)
    requires k < |targets| && i < |targets| && claim == OffersClaims(sync, env, targets, items, db, i)
    ensures claim(k) ==> claim(k + 1)
  {
    if claim(k) {
      OffersClaimStep(sync, env, targets, items, db, i, k);
    }
  }

  lemma OffersTo(sync: string, env: Env, targets: seq<string>, items: seq<WatchItem>, db: Db, n: nat, i: nat)
    requires n <= |targets| && i < |targets|
    ensures OffersClaim(sync, env, targets, items, db, i, n)
  {
    var claim := OffersClaims(sync, env, targets, items, db, i);
    OffersClaimBase(sync, env, targets, items, db, i);
    forall k: nat | k < n ensures claim(k) ==> claim(k + 1) {
      OffersClaimsStep(sync, env, targets, items, db, i, claim, k);
    }
    Climb(claim, n);
  }

  lemma OfferedToSnoc(log: seq<PushEvent>, e: PushEvent, i: nat)
    ensures OfferedTo(log + [e], i) == if e.target == i then OfferedTo(log, i) + e.items else OfferedTo(log, i)
  {
    assert Init(log + [e]) == log;
  }

  /** Between two states of the fan-out target i is offered nothing and keeps its rows. */
  ghost predicate Untouched(f: Fan, g: Fan, lane: Lane, i: nat) {
    OfferedTo(g.log, i) == OfferedTo(f.log, i) && SameLane(g.db, f.db, lane)
  }

  lemma ServeElsewhere(env: Env, lane: Lane, k: nat, items: seq<WatchItem>, p: Fan, other: Lane, i: nat)
    requires i != k && other.sync == lane.sync && other.target != lane.target
    ensures Untouched(p, ServeTarget(env, lane, k, items, p), other, i)
  {
    var missing := Fresh(p.db, lane, items);
    if AllSeenUp(env, k, |items|) && missing != [] {
      var delivered := env.push(k, missing).delivered;
      OfferedToSnoc(p.log, PushEvent(k, missing), i);
      MarkAllGrows(p.db, lane, k, delivered, env.mark);
      GrowsElsewhere(p.db, MarkAll(p.db, lane, k, delivered, env.mark), lane, delivered, other);
    }
  }

  lemma {:induction false} UntouchedChain(state: nat -> Fan, a: nat, n: nat, lane: Lane, i: nat)
    requires a <= n && forall k: nat :: a <= k < n ==> Untouched(state(k), state(k + 1), lane, i)
    ensures Untouched(state(a), state(n), lane, i)
    decreases n - a
  {
    if a < n {
      UntouchedChain(state, a, n - 1, lane, i);
      assert Untouched(state(n - 1), state(n - 1 + 1), lane, i);
    }
  }

  /** A stretch of the fan-out that does not serve target i leaves it alone. */
  lemma FanOutSpan(sync: string, env: Env, targets: seq<string>, items: seq<WatchItem>, db: Db, a: nat, n: nat, i: nat)
    requires a <= n <= |targets| && i < |targets| && Distinct(targets) && (n <= i || i < a)
    ensures Untouched(FanOut(sync, env, targets, items, db, a), FanOut(sync, env, targets, items, db, n),
                      LaneOf(sync, env, targets, i), i)
  {
    var state := (k: nat) => FanOut(sync, env, targets, items, db, if k <= n then k else n);
    forall k: nat | a <= k < n ensures Untouched(state(k), state(k + 1), LaneOf(sync, env, targets, i), i) {
      SpanStep(sync, env, targets, items, db, k, i);
    }
    UntouchedChain(state, a, n, LaneOf(sync, env, targets, i), i);
  }

  lemma SpanStep(sync: string, env: Env, targets: seq<string>, items: seq<WatchItem>, db: Db, k: nat, i: nat)
    requires k < |targets| && i < |targets| && Distinct(targets) && k != i
    ensures Untouched(FanOut(sync, env, targets, items, db, k), FanOut(sync, env, targets, items, db, k + 1),
                      LaneOf(sync, env, targets, i), i)
  {
    var p, other := FanOut(sync, env, targets, items, db, k), LaneOf(sync, env, targets, i);
    FanOutNext(sync, env, targets, items, db, k);
    if !p.aborted {
      ServeElsewhere(env, LaneOf(sync, env, targets, k), k, items, p, other, i);
    }
  }

  /** A run gets as far as target i: it reads its cursor and its window, and no Seen lookup fails up to there. */
  ghost predicate Reaches(sync: string, env: Env, db: Db, i: nat) {
    env.cursorUp && match env.history(CursorOf(db, sync)) case Err => false case Ok(items) => AllUp(env, i + 1, items)
  }

  /** A target's share of a run: what it is offered and what rows it ends with, whatever happens after it. */
  lemma TargetOutcome(sync: string, env: Env, targets: seq<string>, db: Db, items: seq<WatchItem>, i: nat)
    requires Reads(sync, env, db, items) && AllUp(env, i + 1, items) && Distinct(targets) && i < |targets|
    ensures var lane, run := LaneOf(sync, env, targets, i), SyncRun(sync, env, targets, db);
            OfferedTo(run.log, i) == Fresh(db, lane, items)
            && SameLane(run.db, ServedAlone(db, env, lane, i, items), lane)
  {
    var lane := LaneOf(sync, env, targets, i);
    AbortsExactly(sync, env, targets, items, db, i + 1);
    FanOutOffers(sync, env, targets, items, db, i + 1);
    FanOutLanes(sync, env, targets, items, db, i + 1);
    OffersTo(sync, env, targets, items, db, i + 1, i);
    FanOutSpan(sync, env, targets, items, db, i + 1, |targets|, i);
    ConcludeKeepsRows(sync, env, FanOut(sync, env, targets, items, db, |targets|), lane);
  }

  lemma ConcludeKeepsRows(sync: string, env: Env, f: Fan, lane: Lane)
    ensures Conclude(sync, env, f).log == f.log && SameLane(Conclude(sync, env, f).db, f.db, lane)
  {
    assert Conclude(sync, env, f).db.rows == f.db.rows;
  }

  /** A target that a run does not reach is offered nothing and keeps its rows. */
  lemma TargetUntouched(sync: string, env: Env, targets: seq<string>, db: Db, i: nat)
    requires !Reaches(sync, env, db, i) && Distinct(targets) && i < |targets|
    ensures var run := SyncRun(sync, env, targets, db);
            OfferedTo(run.log, i) == [] && SameLane(run.db, db, LaneOf(sync, env, targets, i))
  {
    if env.cursorUp && env.history(CursorOf(db, sync)).Ok? {
      var items := env.history(CursorOf(db, sync)).value;
      var n := |targets|;
      AbortsExactly(sync, env, targets, items, db, i + 1);
      AbortPropagates(sync, env, targets, items, db, i + 1, n);
      FanOutSpan(sync, env, targets, items, db, 0, i, i);
      FanOutNext(sync, env, targets, items, db, i);
      ConcludeKeepsRows(sync, env, FanOut(sync, env, targets, items, db, n), LaneOf(sync, env, targets, i));
    }
  }

  /** Isolation: in two runs a target is offered the same items and ends with the same rows as soon as both get
      that far, it started with the same rows, misses the same items and answers alike, whatever the other
      targets are and do, whatever rows they hold and wherever the cursors stand. */
  lemma TargetsIsolated(sync: string,
                        e1: Env, targets1: seq<string>, db1: Db, items1: seq<WatchItem>, i: nat,
                        e2: Env, targets2: seq<string>, db2: Db, items2: seq<WatchItem>, j: nat)
    requires Reads(sync, e1, db1, items1) && AllUp(e1, i + 1, items1) && Distinct(targets1) && i < |targets1|
    requires Reads(sync, e2, db2, items2) && AllUp(e2, j + 1, items2) && Distinct(targets2) && j < |targets2|
    requires targets1[i] == targets2[j] && e1.hash == e2.hash
    requires forall x :: e1.push(i, x) == e2.push(j, x)
    requires forall k: nat :: e1.mark(i, k) == e2.mark(j, k)
    requires SameLane(db1, db2, LaneOf(sync, e1, targets1, i))
    requires Fresh(db1, LaneOf(sync, e1, targets1, i), items1) == Fresh(db2, LaneOf(sync, e1, targets1, i), items2)
    ensures var r1, r2 := SyncRun(sync, e1, targets1, db1), SyncRun(sync, e2, targets2, db2);
            OfferedTo(r1.log, i) == OfferedTo(r2.log, j) && SameLane(r1.db, r2.db, LaneOf(sync, e1, targets1, i))
  {
    TargetOutcome(sync, e1, targets1, db1, items1, i);
    TargetOutcome(sync, e2, targets2, db2, items2, j);
    var lane := LaneOf(sync, e1, targets1, i);
    var missing := Fresh(db1, lane, items1);
    MarkAllSameLane(db1, db2, lane, i, j, e1.push(i, missing).delivered, e1.mark, e2.mark);
  }

  // ---------- the cursor ----------

  ghost predicate FullSuccess(sync: string, env: Env, targets: seq<string>, items: seq<WatchItem>, db: Db) {
    && AllUp(env, |targets|, items)
    && (exists i :: 0 <= i < |targets| && Fresh(db, LaneOf(sync, env, targets, i), items) != [])
    && AllDone(sync, env, targets, items, db, |targets|)
  }

  lemma {:induction false} OffersNonempty(sync: string, env: Env, targets: seq<string>, items: seq<WatchItem>,
      db: Db, n: nat)
    requires n <= |targets|
    ensures Offers(sync, env, targets, items, db, n) != []
            <==> exists i :: 0 <= i < n && Fresh(db, LaneOf(sync, env, targets, i), items) != []
  {
    if n > 0 {
      OffersNonempty(sync, env, targets, items, db, n - 1);
      assert Offers(sync, env, targets, items, db, n) != []
        <==> Offers(sync, env, targets, items, db, n - 1) != [] || Fresh(db, LaneOf(sync, env, targets, n - 1), items) != [];
    }
  }

  /** The cursor is written, with the clock read before History, exactly when some target missed something and
      every target that did took all of it and acknowledged all its marks; no other cursor is ever written. */
  lemma CursorMovesExactly(sync: string, env: Env, targets: seq<string>, db: Db, items: seq<WatchItem>)
    requires Reads(sync, env, db, items) && Distinct(targets)
    ensures SyncRun(sync, env, targets, db).db.cursors
            == if FullSuccess(sync, env, targets, items, db) && env.cursorWrite != ErrDropped
               then db.cursors[sync := env.now] else db.cursors
  {
    var n := |targets|;
    AbortsExactly(sync, env, targets, items, db, n);
    var f := FanOut(sync, env, targets, items, db, n);
    if !f.aborted {
      FanOutOffers(sync, env, targets, items, db, n);
      FanOutDone(sync, env, targets, items, db, n);
      FanOutLanes(sync, env, targets, items, db, n);
      OffersNonempty(sync, env, targets, items, db, n);
    } else {
      CursorsKept(sync, env, targets, items, db, n);
    }
  }

  lemma {:induction false} CursorsKept(sync: string, env: Env, targets: seq<string>, items: seq<WatchItem>, db: Db,
      n: nat)
    requires n <= |targets|
    ensures FanOut(sync, env, targets, items, db, n).db.cursors == db.cursors
  {
    if n > 0 {
      CursorsKept(sync, env, targets, items, db, n - 1);
      var p := FanOut(sync, env, targets, items, db, n - 1);
      var lane := LaneOf(sync, env, targets, n - 1);
      MarkAllGrows(p.db, lane, n - 1, env.push(n - 1, Fresh(p.db, lane, items)).delivered, env.mark);
    }
  }

  /** Against the Push contract, being done means having been delivered every missing occurrence. */
  lemma CompleteExactly(env: Env, i: nat, missing: seq<WatchItem>)
    requires PushContract(env)
    ensures Complete(env, i, missing)
            <==> env.push(i, missing) == PushReply(missing, false) && AllAcked(i, |missing|, env.mark)
  {
    LengthTestExact(env.push(i, missing).delivered, missing);
  }

  // ---------- convergence ----------

  /** When nothing is missing anywhere a run pushes nothing, writes nothing and reports no error. */
  lemma NothingMissing(sync: string, env: Env, targets: seq<string>, db: Db, items: seq<WatchItem>)
    requires Reads(sync, env, db, items) && AllUp(env, |targets|, items)
    requires forall i, it :: 0 <= i < |targets| && it in items ==> Marked(db, LaneOf(sync, env, targets, i), it)
    ensures SyncRun(sync, env, targets, db) == SyncResult(db, [], [])
  {
    FanOutIdle(sync, env, targets, items, db, |targets|);
  }

  lemma {:induction false} FanOutIdle(sync: string, env: Env, targets: seq<string>, items: seq<WatchItem>, db: Db, n: nat)
    requires n <= |targets| && AllUp(env, n, items)
    requires forall i, it :: 0 <= i < n && it in items ==> Marked(db, LaneOf(sync, env, targets, i), it)
    ensures FanOut(sync, env, targets, items, db, n) == Fan(db, [], false, true, false, [])
  {
    if n > 0 {
      FanOutIdle(sync, env, targets, items, db, n - 1);
      var missing := Fresh(db, LaneOf(sync, env, targets, n - 1), items);
      if missing != [] {
        FreshMember(db, LaneOf(sync, env, targets, n - 1), items, missing[0]);
      }
    }
  }

  lemma MarkedAfterRun(sync: string, env: Env, targets: seq<string>, db: Db, items: seq<WatchItem>, i: nat, it: WatchItem)
    requires Reads(sync, env, db, items) && AllUp(env, i + 1, items) && Distinct(targets) && i < |targets|
    ensures var lane := LaneOf(sync, env, targets, i);
            Marked(SyncRun(sync, env, targets, db).db, lane, it)
            <==> Marked(ServedAlone(db, env, lane, i, items), lane, it)
  {
    TargetOutcome(sync, env, targets, db, items, i);
    var lane := LaneOf(sync, env, targets, i);
    var a, b := SyncRun(sync, env, targets, db).db, ServedAlone(db, env, lane, i, items);
    assert lane.RowOf(it) in LaneRows(a, lane) <==> lane.RowOf(it) in LaneRows(b, lane);
  }

  /** The exact remainder: the next run over the same window offers each target precisely the items it missed
      before, less those it reported delivered and whose mark was applied (acknowledged or not). */
  lemma RerunOffersRemainder(sync: string, env: Env, again: Env, targets: seq<string>, db: Db,
      items: seq<WatchItem>, i: nat, it: WatchItem)
    requires Reads(sync, env, db, items) && AllUp(env, i + 1, items) && Distinct(targets) && i < |targets|
    requires var db' := SyncRun(sync, env, targets, db).db; Reads(sync, again, db', items)
    requires AllUp(again, i + 1, items) && again.hash == env.hash
    ensures var lane := LaneOf(sync, env, targets, i);
            var run, rerun := SyncRun(sync, env, targets, db), SyncRun(sync, again, targets, SyncRun(sync, env, targets, db).db);
            var delivered := env.push(i, OfferedTo(run.log, i)).delivered;
            it in OfferedTo(rerun.log, i)
            <==> it in OfferedTo(run.log, i)
                 && !(exists k: nat :: k < |delivered| && env.hash(delivered[k]) == env.hash(it) && !env.mark(i, k).ErrDropped?)
  {
    var lane := LaneOf(sync, env, targets, i);
    var db' := SyncRun(sync, env, targets, db).db;
    TargetOutcome(sync, env, targets, db, items, i);
    TargetOutcome(sync, again, targets, db', items, i);
    FreshMember(db', lane, items, it);
    FreshMember(db, lane, items, it);
    MarkedAfterRun(sync, env, targets, db, items, i, it);
    var missing := Fresh(db, lane, items);
    MarkedAfter(db, lane, i, env.push(i, missing).delivered, env.mark, it);
  }

  ghost predicate FaultFree(env: Env) {
    && (forall i: nat, j: nat :: env.seenUp(i, j))
    && (forall i: nat, k: nat :: env.mark(i, k).Ack?)
    && (forall i: nat, x :: env.push(i, x) == PushReply(x, false))
    && env.cursorWrite.Ack?
  }

  /** One fault-free run with something missing catches every target up and moves the cursor to the clock
      reading taken before History; the next run over a window without new entries touches nothing. */
  lemma OneGoodRunConverges(sync: string, env: Env, next: Env, targets: seq<string>, db: Db, items: seq<WatchItem>,
      later: seq<WatchItem>)
    requires Reads(sync, env, db, items) && FaultFree(env) && Distinct(targets)
    requires exists i :: 0 <= i < |targets| && Fresh(db, LaneOf(sync, env, targets, i), items) != []
    requires next.hash == env.hash && next.cursorUp && next.history(env.now) == Ok(later)
    requires AllUp(next, |targets|, later) && forall it :: it in later ==> it in items
    ensures var run := SyncRun(sync, env, targets, db);
            run.errs == [] && CursorOf(run.db, sync) == env.now
            && SyncRun(sync, next, targets, run.db) == SyncResult(run.db, [], [])
  {
    var run := SyncRun(sync, env, targets, db);
    CursorMovesExactly(sync, env, targets, db, items);
    NoErrors(sync, env, targets, items, db, |targets|);
    AbortsExactly(sync, env, targets, items, db, |targets|);
    forall i, it | 0 <= i < |targets| && it in items ensures Marked(run.db, LaneOf(sync, env, targets, i), it) {
      CaughtUpTarget(sync, env, targets, db, items, i, it);
    }
    forall i | 0 <= i < |targets| ensures LaneOf(sync, next, targets, i) == LaneOf(sync, env, targets, i) {}
    NothingMissing(sync, next, targets, run.db, later);
  }

  lemma {:induction false} NoErrors(sync: string, env: Env, targets: seq<string>, items: seq<WatchItem>, db: Db, n: nat)
    requires n <= |targets| && FaultFree(env)
    ensures FanOut(sync, env, targets, items, db, n).errs == []
  {
    if n > 0 {
      NoErrors(sync, env, targets, items, db, n - 1);
      var p := FanOut(sync, env, targets, items, db, n - 1);
      NoMarkErrors(n - 1, |Fresh(p.db, LaneOf(sync, env, targets, n - 1), items)|, env.mark);
    }
  }

  /** A target that is done misses nothing of the window any more. */
  lemma CaughtUpTarget(sync: string, env: Env, targets: seq<string>, db: Db, items: seq<WatchItem>, i: nat, it: WatchItem)
    requires Reads(sync, env, db, items) && AllUp(env, i + 1, items) && Distinct(targets) && i < |targets|
    requires PushContract(env) || FaultFree(env)
    requires Done(sync, env, targets, items, db, i) && it in items
    ensures Marked(SyncRun(sync, env, targets, db).db, LaneOf(sync, env, targets, i), it)
  {
    var lane := LaneOf(sync, env, targets, i);
    var missing := Fresh(db, lane, items);
    MarkedAfterRun(sync, env, targets, db, items, i, it);
    FreshMember(db, lane, items, it);
    var delivered := env.push(i, missing).delivered;
    MarkedAfter(db, lane, i, delivered, env.mark, it);
    if it in missing {
      if PushContract(env) {
        CompleteExactly(env, i, missing);
      }
      assert delivered == missing;
      var k :| 0 <= k < |missing| && missing[k] == it;
      assert !env.mark(i, k).ErrDropped?;
    }
  }

  // ---------- conservation ----------

  /** Every row a run over this window may add. */
  ghost function Pairs(sync: string, env: Env, targets: seq<string>, items: seq<WatchItem>): set<RowKey> {
    set t, it | t in targets && it in items :: Lane(sync, t, env.hash).RowOf(it)
  }

  ghost predicate AddsOnly(a: Db, b: Db, allowed: set<RowKey>) {
    (forall k :: k in a.rows ==> k in b.rows && b.rows[k] == a.rows[k]) && b.rows.Keys - a.rows.Keys <= allowed
  }

  ghost predicate AddsClaim(sync: string, env: Env, targets: seq<string>, items: seq<WatchItem>, db: Db, n: nat) {
    n <= |targets| ==> AddsOnly(db, FanOut(sync, env, targets, items, db, n).db, Pairs(sync, env, targets, items))
  }

  lemma ServeAddsOnly(sync: string, env: Env, targets: seq<string>, items: seq<WatchItem>, db: Db, p: Fan, k: nat)
    requires k < |targets| && PushContract(env) && AddsOnly(db, p.db, Pairs(sync, env, targets, items))
    ensures AddsOnly(db, ServeTarget(env, LaneOf(sync, env, targets, k), k, items, p).db, Pairs(sync, env, targets, items))
  {
    var lane := LaneOf(sync, env, targets, k);
    var missing := Fresh(p.db, lane, items);
    var delivered := env.push(k, missing).delivered;
    MarkAllGrows(p.db, lane, k, delivered, env.mark);
    forall it | it in delivered ensures it in items {
      SubseqMember(delivered, missing, it);
      FreshMember(p.db, lane, items, it);
    }
  }

  lemma AddsStep(sync: string, env: Env, targets: seq<string>, items: seq<WatchItem>, db: Db, k: nat)
    requires k < |targets| && PushContract(env) && AddsClaim(sync, env, targets, items, db, k)
    ensures AddsClaim(sync, env, targets, items, db, k + 1)
  {
    var p := FanOut(sync, env, targets, items, db, k);
    FanOutNext(sync, env, targets, items, db, k);
    ServeAddsOnly(sync, env, targets, items, db, p, k);
  }

  ghost function AddsClaims(sync: string, env: Env, targets: seq<string>, items: seq<WatchItem>, db: Db): nat -> bool {
    (k: nat) => AddsClaim(sync, env, targets, items, db, k)
  }

  lemma AddsSteps(sync: string, env: Env, targets: seq<string>, items: seq<WatchItem>, db: Db, claim: nat -> bool, k: nat)
    requires claim == AddsClaims(sync, env, targets, items, db) && k < |targets| && PushContract(env)
    ensures claim(k) ==> claim(k + 1)
  {
    if claim(k) {
      AddsStep(sync, env, targets, items, db, k);
    }
  }

  lemma FanOutAddsOnly(sync: string, env: Env, targets: seq<string>, items: seq<WatchItem>, db: Db, n: nat)
    requires n <= |targets| && PushContract(env)
    ensures AddsClaim(sync, env, targets, items, db, n)
  {
    var claim := AddsClaims(sync, env, targets, items, db);
    forall k: nat | k < n ensures claim(k) ==> claim(k + 1) {
      AddsSteps(sync, env, targets, items, db, claim, k);
    }
    Climb(claim, n);
  }

  /** Conservation: the (target, hash) pairs of the window still unmarked, plus the rows stored, stay the same
      in number: a run never raises the remainder and each new row lowers it by one. */
  lemma RemainderPlusRowsConstant(sync: string, env: Env, targets: seq<string>, db: Db, items: seq<WatchItem>)
    requires Reads(sync, env, db, items) && PushContract(env)
    ensures var pairs, db' := Pairs(sync, env, targets, items), SyncRun(sync, env, targets, db).db;
            |pairs - db'.rows.Keys| + |db'.rows| == |pairs - db.rows.Keys| + |db.rows|
            && db.rows.Keys <= db'.rows.Keys
  {
    FanOutAddsOnly(sync, env, targets, items, db, |targets|);
    var db' := SyncRun(sync, env, targets, db).db;
    assert db'.rows == FanOut(sync, env, targets, items, db, |targets|).db.rows;
    assert |db'.rows.Keys| == |db'.rows| && |db.rows.Keys| == |db.rows|;
    SetCount(Pairs(sync, env, targets, items), db.rows.Keys, db'.rows.Keys);
  }

  lemma SetCount<T>(pairs: set<T>, before: set<T>, after: set<T>)
    requires before <= after && after - before <= pairs
    ensures |pairs - after| + |after| == |pairs - before| + |before|
  {
    var added := after - before;
    assert after == before + added && pairs - before == (pairs - after) + added;
  }
}
