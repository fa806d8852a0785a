/** Whole histories of runs: what a target receives does not depend on its companions, and what a gap
    in the source's answer costs. */
module Fleets {
  import opened Calendar
  import opened Model
  import opened Lists
  import opened StoreModel
  import opened Engine
  import opened Protocol
  import opened Safety
  import opened Runs
  import opened Laws
  import opened Outcomes

  /** A run keeps the store caught up, from any floor on, with whatever the source held. */
  lemma RunKeepsCaughtUp(sync: string, env: Env, targets: seq<string>, db: Db, ledger: seq<WatchItem>, floor: Instant)
    requires PushContract(env) && Honest(env, ledger, CursorOf(db, sync)) && CursorOf(db, sync) <= env.now
    requires CaughtUp(ConfOf(sync, env, targets), db, ledger, floor)
    ensures var db' := SyncRun(sync, env, targets, db).db;
            CaughtUp(ConfOf(sync, env, targets), db', ledger, floor) && CursorOf(db', sync) <= env.now
  {
    var c := ConfOf(sync, env, targets);
    var s := Sys(ledger, env.now, db, {}, Idle);
    var acts := SyncIsExecution(sync, env, targets, s);
    ExecKeepsInv(c, s, acts);
    ExecKeepsCaughtUp(c, s, acts, floor);
  }

  /** One sync served run after run. */
  ghost function After(sync: string, targets: seq<string>, envs: seq<Env>, db: Db): Db {
    if envs == [] then db
    else SyncRun(sync, Last(envs), targets, After(sync, targets, Init(envs), db)).db
  }

  ghost predicate Extends(earlier: seq<WatchItem>, later: seq<WatchItem>, now: Instant) {
    forall it :: it in later ==> it in earlier || now <= it.watchedAt
  }

  /** A history of runs: each may fail in any way, but its source is honest for the cursor the run starts from, and
      answers in order if that is asked for; between runs the clock moves on and the source only gains entries
      dated no earlier than it. */
  ghost predicate Timeline(sync: string, targets: seq<string>, ledgers: seq<seq<WatchItem>>, envs: seq<Env>, db: Db,
      ordered: bool) {
    && |ledgers| == |envs|
    && if envs == [] then true else
         var earlier, env, ledger := Init(envs), Last(envs), Last(ledgers);
         var since := CursorOf(After(sync, targets, earlier, db), sync);
         && Timeline(sync, targets, Init(ledgers), earlier, db, ordered)
         && PushContract(env) && (if ordered then Ordered(env, ledger, since) else Honest(env, ledger, since))
         && (earlier != [] ==> Last(earlier).now <= env.now && Last(earlier).hash == env.hash
                               && Extends(Last(Init(ledgers)), ledger, Last(earlier).now))
  }

  /** A further run that continues a history whose source need only be honest. */
  ghost predicate NextRun(sync: string, targets: seq<string>, ledgers: seq<seq<WatchItem>>, envs: seq<Env>, db: Db,
      ledger: seq<WatchItem>, env: Env) {
    && |ledgers| == |envs| && PushContract(env)
    && Honest(env, ledger, CursorOf(After(sync, targets, envs, db), sync))
    && (envs != [] ==> Last(envs).now <= env.now && Last(envs).hash == env.hash
                       && Extends(Last(ledgers), ledger, Last(envs).now))
  }

  lemma TimelineSnoc(sync: string, targets: seq<string>, ledgers: seq<seq<WatchItem>>, envs: seq<Env>, db: Db,
      ledger: seq<WatchItem>, env: Env)
    requires Timeline(sync, targets, ledgers, envs, db, false)
    requires NextRun(sync, targets, ledgers, envs, db, ledger, env)
    ensures Timeline(sync, targets, ledgers + [ledger], envs + [env], db, false)
  {
    assert Init(envs + [env]) == envs && Init(ledgers + [ledger]) == ledgers;
  }

  lemma {:induction false} TimelineCaughtUp(sync: string, targets: seq<string>, ledgers: seq<seq<WatchItem>>,
      envs: seq<Env>, db: Db,
      ordered: bool, floor: Instant)
    requires Timeline(sync, targets, ledgers, envs, db, ordered) && envs != []
    requires CursorOf(db, sync) <= envs[0].now && CaughtUp(ConfOf(sync, envs[0], targets), db, ledgers[0], floor)
    ensures var before := After(sync, targets, Init(envs), db);
            && CursorOf(before, sync) <= Last(envs).now
            && Honest(Last(envs), Last(ledgers), CursorOf(before, sync))
            && CaughtUp(ConfOf(sync, Last(envs), targets), before, Last(ledgers), floor)
  {
    var earlier := Init(envs);
    if ordered {
      OrderedIsHonest(Last(envs), Last(ledgers), CursorOf(After(sync, targets, earlier, db), sync));
    }
    if earlier != [] {
      TimelineCaughtUp(sync, targets, Init(ledgers), earlier, db, ordered, floor);
      RunKeepsCaughtUp(sync, Last(earlier), targets, After(sync, targets, Init(earlier), db), Last(Init(ledgers)), floor);
    }
  }

  /** No loss over any history of runs: afterwards every target has a row for every entry the source held that is
      dated before the cursor, from the floor on which the store was caught up at the start. */
  lemma RunsLoseNothing(sync: string, targets: seq<string>, ledgers: seq<seq<WatchItem>>, envs: seq<Env>, db: Db,
      floor: Instant)
    requires Timeline(sync, targets, ledgers, envs, db, false) && envs != []
    requires CursorOf(db, sync) <= envs[0].now && CaughtUp(ConfOf(sync, envs[0], targets), db, ledgers[0], floor)
    ensures CaughtUp(ConfOf(sync, Last(envs), targets), After(sync, targets, envs, db), Last(ledgers), floor)
  {
    TimelineCaughtUp(sync, targets, ledgers, envs, db, false, floor);
    RunKeepsCaughtUp(sync, Last(envs), targets, After(sync, targets, Init(envs), db), Last(ledgers), floor);
  }

  /** A run reaches target i with a window of the ledger in hand; one that does not offers the target nothing. */
  ghost predicate Serves(sync: string, env: Env, db: Db, ledger: seq<WatchItem>, i: nat) {
    var since := CursorOf(db, sync);
    Reaches(sync, env, db, i) && Window(env.history(since).value, ledger, since)
  }

  /** What a run offers a target: the whole ledger's remainder if it serves it, otherwise nothing. */
  lemma Offer(sync: string, env: Env, targets: seq<string>, db: Db, ledger: seq<WatchItem>, i: nat)
    requires Ordered(env, ledger, CursorOf(db, sync)) && Distinct(targets) && i < |targets|
    requires CaughtUp(ConfOf(sync, env, targets), db, ledger, 0)
    ensures var lane, run := LaneOf(sync, env, targets, i), SyncRun(sync, env, targets, db);
            if Serves(sync, env, db, ledger, i)
            then OfferedTo(run.log, i) == Fresh(db, lane, ledger)
                 && SameLane(run.db, ServedAlone(db, env, lane, i, ledger), lane)
            else OfferedTo(run.log, i) == [] && SameLane(run.db, db, lane)
  {
    var lane, since := LaneOf(sync, env, targets, i), CursorOf(db, sync);
    if Reaches(sync, env, db, i) {
      var items := env.history(since).value;
      TargetOutcome(sync, env, targets, db, items, i);
      if Window(items, ledger, since) {
        var c := ConfOf(sync, env, targets);
        forall it | it in ledger && Before(it, since) ensures Marked(db, c.LaneAt(i), it) {
          assert MarkedUpTo(c, db, |targets|, it);
        }
        WindowFresh(items, ledger, since, db, lane);
      }
    } else {
      TargetUntouched(sync, env, targets, db, i);
    }
  }

  ghost predicate AnswersAlike(a: Env, i: nat, b: Env, j: nat) {
    && a.hash == b.hash
    && (forall x :: a.push(i, x) == b.push(j, x))
    && (forall k: nat :: a.mark(i, k) == b.mark(j, k))
  }

  /** In every run of the two histories the target is served in both or in neither, and answers alike. */
  ghost predicate ServedAlike(sync: string, ledgers: seq<seq<WatchItem>>,
      targets1: seq<string>, envs1: seq<Env>, db1: Db, i: nat, targets2: seq<string>, envs2: seq<Env>, db2: Db, j: nat) {
    && |ledgers| == |envs1| == |envs2|
    && if envs1 == [] then true else
         && ServedAlike(sync, Init(ledgers), targets1, Init(envs1), db1, i, targets2, Init(envs2), db2, j)
         && AnswersAlike(Last(envs1), i, Last(envs2), j)
         && (Serves(sync, Last(envs1), After(sync, targets1, Init(envs1), db1), Last(ledgers), i)
             <==> Serves(sync, Last(envs2), After(sync, targets2, Init(envs2), db2), Last(ledgers), j))
  }

  /** Two fleets serve the same target from the same source over any number of runs, any of which may fail. In
      every run the target is offered the same items and ends with the same rows, although the companions,
      their failures and therefore the cursors may differ: a failing companion that pins the cursor changes
      nothing for it. */
  lemma {:induction false} CompanionsInvisible(sync: string,
      targets1: seq<string>, envs1: seq<Env>, db1: Db, i: nat,
      targets2: seq<string>, envs2: seq<Env>, db2: Db, j: nat,
      ledgers: seq<seq<WatchItem>>)
    requires Timeline(sync, targets1, ledgers, envs1, db1, true) && Timeline(sync, targets2, ledgers, envs2, db2, true) && envs1 != []
    requires Distinct(targets1) && Distinct(targets2) && i < |targets1| && j < |targets2| && targets1[i] == targets2[j]
    requires ServedAlike(sync, ledgers, targets1, envs1, db1, i, targets2, envs2, db2, j)
    requires CursorOf(db1, sync) <= envs1[0].now && CaughtUp(ConfOf(sync, envs1[0], targets1), db1, ledgers[0], 0)
    requires CursorOf(db2, sync) <= envs2[0].now && CaughtUp(ConfOf(sync, envs2[0], targets2), db2, ledgers[0], 0)
    requires SameLane(db1, db2, LaneOf(sync, envs1[0], targets1, i))
    ensures SameLane(After(sync, targets1, envs1, db1), After(sync, targets2, envs2, db2), LaneOf(sync, Last(envs1), targets1, i))
    ensures OfferedTo(SyncRun(sync, Last(envs1), targets1, After(sync, targets1, Init(envs1), db1)).log, i)
            == OfferedTo(SyncRun(sync, Last(envs2), targets2, After(sync, targets2, Init(envs2), db2)).log, j)
  {
    var before1, before2 := After(sync, targets1, Init(envs1), db1), After(sync, targets2, Init(envs2), db2);
    var e1, e2 := Last(envs1), Last(envs2);
    TimelineCaughtUp(sync, targets1, ledgers, envs1, db1, true, 0);
    TimelineCaughtUp(sync, targets2, ledgers, envs2, db2, true, 0);
    if Init(envs1) != [] {
      CompanionsInvisible(sync, targets1, Init(envs1), db1, i, targets2, Init(envs2), db2, j, Init(ledgers));
    }
    assert SameLane(before1, before2, LaneOf(sync, e1, targets1, i));
    SameShare(sync, e1, targets1, before1, i, e2, targets2, before2, j, Last(ledgers));
  }

  lemma SameShare(sync: string, e1: Env, targets1: seq<string>, db1: Db, i: nat,
                  e2: Env, targets2: seq<string>, db2: Db, j: nat, ledger: seq<WatchItem>)
    requires Ordered(e1, ledger, CursorOf(db1, sync)) && Ordered(e2, ledger, CursorOf(db2, sync)) && AnswersAlike(e1, i, e2, j)
    requires Distinct(targets1) && Distinct(targets2) && i < |targets1| && j < |targets2| && targets1[i] == targets2[j]
    requires CaughtUp(ConfOf(sync, e1, targets1), db1, ledger, 0) && CaughtUp(ConfOf(sync, e2, targets2), db2, ledger, 0)
    requires Serves(sync, e1, db1, ledger, i) <==> Serves(sync, e2, db2, ledger, j)
    requires SameLane(db1, db2, LaneOf(sync, e1, targets1, i))
    ensures var r1, r2 := SyncRun(sync, e1, targets1, db1), SyncRun(sync, e2, targets2, db2);
            OfferedTo(r1.log, i) == OfferedTo(r2.log, j) && SameLane(r1.db, r2.db, LaneOf(sync, e1, targets1, i))
  {
    var lane := LaneOf(sync, e1, targets1, i);
    Offer(sync, e1, targets1, db1, ledger, i);
    Offer(sync, e2, targets2, db2, ledger, j);
    SameLaneSameFresh(db1, db2, lane, ledger);
    MarkAllSameLane(db1, db2, lane, i, j, e1.push(i, Fresh(db1, lane, ledger)).delivered, e1.mark, e2.mark);
  }

  // ---------- gaps in the source's answer ----------

  /** No target is left without a row for an entry dated before the clock reading: each such entry was in
      the answer, or shares its hash with one that was, or was marked when the run began. */
  ghost predicate NoGap(sync: string, env: Env, targets: seq<string>, db: Db, items: seq<WatchItem>,
      ledger: seq<WatchItem>) {
    forall it, i :: it in ledger && it.watchedAt < env.now && 0 <= i < |targets| ==>
      Marked(db, LaneOf(sync, env, targets, i), it) || exists w :: w in items && env.hash(w) == env.hash(it)
  }

  /** When a run moves the cursor, the store is caught up afterwards exactly if the answer had no such gap. */
  lemma GapCostsExactly(sync: string, env: Env, targets: seq<string>, db: Db, items: seq<WatchItem>,
      ledger: seq<WatchItem>)
    requires Reads(sync, env, db, items) && Distinct(targets) && PushContract(env) && !IsZero(env.now)
    requires FullSuccess(sync, env, targets, items, db) && !env.cursorWrite.ErrDropped?
    ensures CaughtUp(ConfOf(sync, env, targets), SyncRun(sync, env, targets, db).db, ledger, 0)
            <==> NoGap(sync, env, targets, db, items, ledger)
  {
    var c, db' := ConfOf(sync, env, targets), SyncRun(sync, env, targets, db).db;
    CursorMovesExactly(sync, env, targets, db, items);
    assert CursorOf(db', sync) == env.now;
    if CaughtUp(c, db', ledger, 0) {
      forall it, i | it in ledger && it.watchedAt < env.now && 0 <= i < |targets|
        ensures Marked(db, LaneOf(sync, env, targets, i), it) || exists w :: w in items && env.hash(w) == env.hash(it)
      {
        assert Before(it, CursorOf(db', sync)) && MarkedUpTo(c, db', |targets|, it);
        assert Marked(db', c.LaneAt(i), it);
        GapForTarget(sync, env, targets, db, items, i, it);
      }
    }
    if NoGap(sync, env, targets, db, items, ledger) {
      forall it, i: nat | it in ledger && Before(it, env.now) && i < |targets| ensures Marked(db', c.LaneAt(i), it) {
        GapForTarget(sync, env, targets, db, items, i, it);
      }
    }
  }

  lemma GapForTarget(sync: string, env: Env, targets: seq<string>, db: Db, items: seq<WatchItem>, i: nat, it: WatchItem)
    requires Reads(sync, env, db, items) && Distinct(targets) && PushContract(env)
    requires FullSuccess(sync, env, targets, items, db) && i < |targets|
    ensures Marked(SyncRun(sync, env, targets, db).db, LaneOf(sync, env, targets, i), it)
            <==> Marked(db, LaneOf(sync, env, targets, i), it) || exists w :: w in items && env.hash(w) == env.hash(it)
  {
    var lane := LaneOf(sync, env, targets, i);
    var missing := Fresh(db, lane, items);
    MarkedAfterRun(sync, env, targets, db, items, i, it);
    MarkedAfter(db, lane, i, env.push(i, missing).delivered, env.mark, it);
    CompleteExactly(env, i, missing);
    if w :| w in items && env.hash(w) == env.hash(it) {
      CaughtUpTarget(sync, env, targets, db, items, i, w);
    } else if k: nat :| k < |missing| && env.hash(missing[k]) == env.hash(it) {
      FreshMember(db, lane, items, missing[k]);
    }
  }
}
