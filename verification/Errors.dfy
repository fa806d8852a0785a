/** Which errors a run returns: what its answers say, target by target. */
module Errors {
  import opened Calendar
  import opened Model
  import opened Lists
  import opened StoreModel
  import opened Engine
  import opened Laws
  import opened Outcomes

  /** Target i, offered these items, answers the push or one of the marks after it with error e. */
  ghost predicate Answers(env: Env, i: nat, offer: seq<WatchItem>, e: SyncError) {
    offer != [] && match e
      case PushError(j) => j == i && env.push(i, offer).failed
      case MarkError(j) => j == i && exists k: nat :: k < |env.push(i, offer).delivered| && env.mark(i, k) != Ack
      case _ => false
  }

  lemma {:induction false} MarkErrorsMember(i: nat, n: nat, mark: (nat, nat) -> WriteAnswer, e: SyncError)
    ensures e in MarkErrors(i, n, mark) <==> e == MarkError(i) && exists k: nat :: k < n && mark(i, k) != Ack
  {
    if n > 0 {
      MarkErrorsMember(i, n - 1, mark, e);
    }
  }

  lemma ServeErrors(env: Env, lane: Lane, i: nat, items: seq<WatchItem>, p: Fan, e: SyncError)
    requires AllSeenUp(env, i, |items|)
    ensures e in ServeTarget(env, lane, i, items, p).errs <==> e in p.errs || Answers(env, i, Fresh(p.db, lane, items), e)
  {
    var missing := Fresh(p.db, lane, items);
    MarkErrorsMember(i, |env.push(i, missing).delivered|, env.mark, e);
  }

  /** One of the first n targets, offered what it missed at the start, answers with e. */
  ghost predicate Answered(sync: string, env: Env, targets: seq<string>, items: seq<WatchItem>, db: Db, n: nat,
      e: SyncError)
    requires n <= |targets|
  {
    exists i: nat :: i < n && Answers(env, i, Fresh(db, LaneOf(sync, env, targets, i), items), e)
  }

  lemma AnsweredNext(sync: string, env: Env, targets: seq<string>, items: seq<WatchItem>, db: Db, n: nat, e: SyncError)
    requires n < |targets|
    ensures Answered(sync, env, targets, items, db, n + 1, e)
            <==> || Answered(sync, env, targets, items, db, n, e)
                 || Answers(env, n, Fresh(db, LaneOf(sync, env, targets, n), items), e)
  {
  }

  ghost predicate ErrorsClaim(sync: string, env: Env, targets: seq<string>, items: seq<WatchItem>, db: Db,
      e: SyncError, n: nat) {
    n <= |targets| ==>
      var f := FanOut(sync, env, targets, items, db, n);
      !f.aborted ==> (e in f.errs <==> Answered(sync, env, targets, items, db, n, e))
  }

  lemma ErrorsStep(sync: string, env: Env, targets: seq<string>, items: seq<WatchItem>, db: Db, e: SyncError, k: nat)
    requires k < |targets| && Distinct(targets) && ErrorsClaim(sync, env, targets, items, db, e, k)
    ensures ErrorsClaim(sync, env, targets, items, db, e, k + 1)
  {
    var p, lane := FanOut(sync, env, targets, items, db, k), LaneOf(sync, env, targets, k);
    FanOutNext(sync, env, targets, items, db, k);
    AnsweredNext(sync, env, targets, items, db, k, e);
    if !p.aborted && AllSeenUp(env, k, |items|) {
      FanOutLanes(sync, env, targets, items, db, k);
      SameLaneSameFresh(p.db, db, lane, items);
      ServeErrors(env, lane, k, items, p, e);
    }
  }

  ghost function ErrorsClaims(sync: string, env: Env, targets: seq<string>, items: seq<WatchItem>, db: Db,
      e: SyncError): nat -> bool {
    (k: nat) => ErrorsClaim(sync, env, targets, items, db, e, k)
  }

  lemma ErrorsSteps(sync: string, env: Env, targets: seq<string>, items: seq<WatchItem>, db: Db, e: SyncError,
      claim: nat -> bool, k: nat)
    requires claim == ErrorsClaims(sync, env, targets, items, db, e) && k < |targets| && Distinct(targets)
    ensures claim(k) ==> claim(k + 1)
  {
    if claim(k) {
      ErrorsStep(sync, env, targets, items, db, e, k);
    }
  }

  /** The errors collected from the first n targets are those that one of them answered. */
  lemma FanOutErrors(sync: string, env: Env, targets: seq<string>, items: seq<WatchItem>, db: Db, n: nat, e: SyncError)
    requires n <= |targets| && Distinct(targets)
    ensures ErrorsClaim(sync, env, targets, items, db, e, n)
  {
    var claim := ErrorsClaims(sync, env, targets, items, db, e);
    forall k: nat | k < n ensures claim(k) ==> claim(k + 1) {
      ErrorsSteps(sync, env, targets, items, db, e, claim, k);
    }
    Climb(claim, n);
  }

  /** Target i took everything it was offered and acknowledged every mark. */
  ghost predicate TookAll(env: Env, i: nat, offer: seq<WatchItem>) {
    var reply := env.push(i, offer);
    !reply.failed && |reply.delivered| == |offer| && forall k: nat :: k < |offer| ==> env.mark(i, k) == Ack
  }

  /** Something was offered, and every target that was offered something took all of it. */
  ghost predicate AllTaken(env: Env, n: nat, log: seq<PushEvent>) {
    && (exists i: nat :: i < n && OfferedTo(log, i) != [])
    && (forall i: nat :: i < n && OfferedTo(log, i) != [] ==> TookAll(env, i, OfferedTo(log, i)))
  }

  /** Every lookup of the run answers. */
  ghost predicate LookupsUp(env: Env, targets: seq<string>, items: seq<WatchItem>) {
    forall i: nat, j: nat :: i < |targets| && j < |items| ==> env.seenUp(i, j)
  }

  lemma OffersAreFresh(sync: string, env: Env, targets: seq<string>, db: Db, items: seq<WatchItem>, i: nat)
    requires Reads(sync, env, db, items) && LookupsUp(env, targets, items) && Distinct(targets) && i < |targets|
    ensures OfferedTo(SyncRun(sync, env, targets, db).log, i) == Fresh(db, LaneOf(sync, env, targets, i), items)
  {
    TargetOutcome(sync, env, targets, db, items, i);
  }

  lemma AllTakenIsFullSuccess(sync: string, env: Env, targets: seq<string>, db: Db, items: seq<WatchItem>)
    requires Reads(sync, env, db, items) && LookupsUp(env, targets, items) && Distinct(targets)
    ensures AllTaken(env, |targets|, SyncRun(sync, env, targets, db).log) <==> FullSuccess(sync, env, targets, items, db)
  {
    var log := SyncRun(sync, env, targets, db).log;
    forall i: nat | i < |targets|
      ensures OfferedTo(log, i) == Fresh(db, LaneOf(sync, env, targets, i), items)
      ensures Done(sync, env, targets, items, db, i) <==> OfferedTo(log, i) == [] || TookAll(env, i, OfferedTo(log, i))
    {
      OffersAreFresh(sync, env, targets, db, items, i);
    }
  }

  /** What a run over a window it reads in full adds to the errors of its targets. */
  lemma RunErrors(sync: string, env: Env, targets: seq<string>, db: Db, items: seq<WatchItem>, e: SyncError)
    requires Reads(sync, env, db, items) && LookupsUp(env, targets, items) && Distinct(targets)
    ensures e in SyncRun(sync, env, targets, db).errs
            <==> || e in FanOut(sync, env, targets, items, db, |targets|).errs
                 || (e == CursorWriteError && FullSuccess(sync, env, targets, items, db) && env.cursorWrite != Ack)
  {
    var n := |targets|;
    AbortsExactly(sync, env, targets, items, db, n);
    FanOutOffers(sync, env, targets, items, db, n);
    FanOutDone(sync, env, targets, items, db, n);
    OffersNonempty(sync, env, targets, items, db, n);
    FanOutErrors(sync, env, targets, items, db, n, e);
    if FanOut(sync, env, targets, items, db, n).log == [] {
      NoOffersNoErrors(sync, env, targets, items, db, e);
    }
  }

  lemma NoOffersNoErrors(sync: string, env: Env, targets: seq<string>, items: seq<WatchItem>, db: Db, e: SyncError)
    requires Distinct(targets) && Offers(sync, env, targets, items, db, |targets|) == []
    requires !FanOut(sync, env, targets, items, db, |targets|).aborted
    ensures e !in FanOut(sync, env, targets, items, db, |targets|).errs
  {
    OffersNonempty(sync, env, targets, items, db, |targets|);
    FanOutErrors(sync, env, targets, items, db, |targets|, e);
  }

  /** A run that reads its window with every lookup up returns a push error for exactly the targets whose push
      failed, a mark error for exactly those that left a mark unacknowledged, and a cursor error exactly if
      everything offered was taken and the cursor write was not acknowledged; and no other error. */
  lemma ErrorsExactly(sync: string, env: Env, targets: seq<string>, db: Db, items: seq<WatchItem>, i: nat)
    requires Reads(sync, env, db, items) && LookupsUp(env, targets, items) && Distinct(targets)
    ensures var run := SyncRun(sync, env, targets, db);
      var offer := OfferedTo(run.log, i);
      && (PushError(i) in run.errs <==> i < |targets| && offer != [] && env.push(i, offer).failed)
      && (MarkError(i) in run.errs <==>
            i < |targets| && offer != [] && exists k: nat :: k < |env.push(i, offer).delivered| && env.mark(i, k) != Ack)
      && (CursorWriteError in run.errs <==> AllTaken(env, |targets|, run.log) && env.cursorWrite != Ack)
      && SeenError !in run.errs && HistoryError !in run.errs && CursorReadError !in run.errs
  {
    AbortsExactly(sync, env, targets, items, db, |targets|);
    AllTakenIsFullSuccess(sync, env, targets, db, items);
    ErrorIs(sync, env, targets, db, items, PushError(i));
    ErrorIs(sync, env, targets, db, items, MarkError(i));
    ErrorIs(sync, env, targets, db, items, CursorWriteError);
    ErrorIs(sync, env, targets, db, items, SeenError);
    ErrorIs(sync, env, targets, db, items, HistoryError);
    ErrorIs(sync, env, targets, db, items, CursorReadError);
  }

  lemma ErrorIs(sync: string, env: Env, targets: seq<string>, db: Db, items: seq<WatchItem>, e: SyncError)
    requires Reads(sync, env, db, items) && LookupsUp(env, targets, items) && Distinct(targets)
    ensures e in SyncRun(sync, env, targets, db).errs
            <==> || (e == CursorWriteError && FullSuccess(sync, env, targets, items, db) && env.cursorWrite != Ack)
                 || exists i: nat :: i < |targets| && Answers(env, i, OfferedTo(SyncRun(sync, env, targets, db).log, i), e)
  {
    AbortsExactly(sync, env, targets, items, db, |targets|);
    RunErrors(sync, env, targets, db, items, e);
    FanOutErrors(sync, env, targets, items, db, |targets|, e);
    var log := SyncRun(sync, env, targets, db).log;
    if i: nat :| i < |targets| && Answers(env, i, OfferedTo(log, i), e) {
      OffersAreFresh(sync, env, targets, db, items, i);
    }
    if i: nat :| i < |targets| && Answers(env, i, Fresh(db, LaneOf(sync, env, targets, i), items), e) {
      OffersAreFresh(sync, env, targets, db, items, i);
      assert Answers(env, i, OfferedTo(log, i), e);
    }
  }

  /** The three early returns: nothing but their own error, and nothing written when there is no window. */
  lemma EarlyReturns(sync: string, env: Env, targets: seq<string>, db: Db)
    ensures var run, history := SyncRun(sync, env, targets, db), env.history(CursorOf(db, sync));
      && (!env.cursorUp ==> run == SyncResult(db, [CursorReadError], []))
      && (env.cursorUp && history.Err? ==> run == SyncResult(db, [HistoryError], []))
      && (env.cursorUp && history.Ok? && !LookupsUp(env, targets, history.value) ==>
            run.errs == [SeenError] && run.db.cursors == db.cursors)
  {
    if env.cursorUp && env.history(CursorOf(db, sync)).Ok? {
      var items := env.history(CursorOf(db, sync)).value;
      AbortsExactly(sync, env, targets, items, db, |targets|);
      CursorsKept(sync, env, targets, items, db, |targets|);
      if !LookupsUp(env, targets, items) {
        var i: nat, j: nat :| i < |targets| && j < |items| && !env.seenUp(i, j);
        assert !AllSeenUp(env, i, |items|);
      }
    }
  }

  /** A run reports success exactly if everything it asked for answered: the cursor, the history, every lookup,
      every push it made, every mark and, if it got to write it, the cursor. */
  lemma CleanExactly(sync: string, env: Env, targets: seq<string>, db: Db)
    requires Distinct(targets)
    ensures var run, history := SyncRun(sync, env, targets, db), env.history(CursorOf(db, sync));
      run.errs == []
      <==> && env.cursorUp && history.Ok? && LookupsUp(env, targets, history.value)
           && (forall i: nat :: i < |targets| && OfferedTo(run.log, i) != [] ==>
                 var reply := env.push(i, OfferedTo(run.log, i));
                 !reply.failed && forall k: nat :: k < |reply.delivered| ==> env.mark(i, k) == Ack)
           && (AllTaken(env, |targets|, run.log) ==> env.cursorWrite == Ack)
  {
    EarlyReturns(sync, env, targets, db);
    var run, history := SyncRun(sync, env, targets, db), env.history(CursorOf(db, sync));
    if env.cursorUp && history.Ok? && LookupsUp(env, targets, history.value) {
      CleanIs(sync, env, targets, db, history.value);
    }
  }

  lemma CleanIs(sync: string, env: Env, targets: seq<string>, db: Db, items: seq<WatchItem>)
    requires Reads(sync, env, db, items) && LookupsUp(env, targets, items) && Distinct(targets)
    ensures var run := SyncRun(sync, env, targets, db);
      run.errs == []
      <==> && (forall i: nat :: i < |targets| && OfferedTo(run.log, i) != [] ==>
                 var reply := env.push(i, OfferedTo(run.log, i));
                 !reply.failed && forall k: nat :: k < |reply.delivered| ==> env.mark(i, k) == Ack)
           && (AllTaken(env, |targets|, run.log) ==> env.cursorWrite == Ack)
  {
    var run := SyncRun(sync, env, targets, db);
    AllTakenIsFullSuccess(sync, env, targets, db, items);
    if run.errs != [] {
      ErrorIs(sync, env, targets, db, items, run.errs[0]);
    } else {
      ErrorsExactly(sync, env, targets, db, items, 0);
      forall i: nat | i < |targets| && OfferedTo(run.log, i) != []
        ensures var reply := env.push(i, OfferedTo(run.log, i));
                !reply.failed && forall k: nat :: k < |reply.delivered| ==> env.mark(i, k) == Ack
      {
        ErrorsExactly(sync, env, targets, db, items, i);
      }
    }
  }
}
