/** engine.Sync (internal/engine/engine.go): one run as a function of the store and of
    everything the outside world answers, and the loop that computes it. */
module Engine {
  import opened Calendar
  import opened Model
  import opened Lists
  import opened StoreModel

  datatype PushReply = PushReply(delivered: seq<WatchItem>, failed: bool)

  /** Everything one run is told: the clock, the source, each target and each write. */
  datatype Env = Env(
    hash: WatchItem -> string,
    cursorUp: bool,
    now: Instant,
    history: Instant -> Answer<seq<WatchItem>>,
    seenUp: (nat, nat) -> bool,
    push: (nat, seq<WatchItem>) -> PushReply,
    mark: (nat, nat) -> WriteAnswer,
    cursorWrite: WriteAnswer)

  datatype SyncError =
    CursorReadError | HistoryError | SeenError | PushError(target: nat) | MarkError(target: nat) | CursorWriteError

  datatype PushEvent = PushEvent(target: nat, items: seq<WatchItem>)

  /** The Target contract: what Push reports delivered is part of what it was given. */
  ghost predicate PushContract(env: Env) {
    forall i: nat, items: seq<WatchItem> :: Subseq(env.push(i, items).delivered, items)
  }

  // ---------- one run as a function ----------

  datatype Fan = Fan(
    db: Db, errs: seq<SyncError>, anyFresh: bool, allOK: bool, aborted: bool, log: seq<PushEvent>)

  ghost function MarkAll(db: Db, lane: Lane, i: nat, delivered: seq<WatchItem>, mark: (nat, nat) -> WriteAnswer): Db {
    if delivered == [] then db
    else
      var k := |delivered| - 1;
      var it := delivered[k];
      WithRow(MarkAll(db, lane, i, delivered[..k], mark), lane.RowOf(it), it.watchedAt, mark(i, k))
  }

  lemma MarkAllNext(db: Db, lane: Lane, i: nat, delivered: seq<WatchItem>, k: nat, mark: (nat, nat) -> WriteAnswer)
    requires k < |delivered|
    ensures MarkAll(db, lane, i, delivered[..k + 1], mark)
            == WithRow(MarkAll(db, lane, i, delivered[..k], mark), lane.RowOf(delivered[k]), delivered[k].watchedAt, mark(i, k))
  {
    assert delivered[..k + 1][..k] == delivered[..k];
  }

  ghost function MarkErrors(i: nat, n: nat, mark: (nat, nat) -> WriteAnswer): seq<SyncError> {
    if n == 0 then []
    else MarkErrors(i, n - 1, mark) + if mark(i, n - 1).Ack? then [] else [MarkError(i)]
  }

  ghost predicate AllAcked(i: nat, n: nat, mark: (nat, nat) -> WriteAnswer) {
    forall k: nat :: k < n ==> mark(i, k).Ack?
  }

  lemma {:induction false} NoMarkErrors(i: nat, n: nat, mark: (nat, nat) -> WriteAnswer)
    ensures MarkErrors(i, n, mark) == [] <==> AllAcked(i, n, mark)
  {
    if n > 0 {
      NoMarkErrors(i, n - 1, mark);
    }
  }

  ghost predicate AllSeenUp(env: Env, i: nat, n: nat) {
    forall j: nat :: j < n ==> env.seenUp(i, j)
  }

  ghost function ServeTarget(env: Env, lane: Lane, i: nat, items: seq<WatchItem>, p: Fan): Fan {
    if !AllSeenUp(env, i, |items|) then p.(aborted := true)
    else
      var missing := Fresh(p.db, lane, items);
      if missing == [] then p
      else
        var reply := env.push(i, missing);
        var n := |reply.delivered|;
        Fan(MarkAll(p.db, lane, i, reply.delivered, env.mark),
            p.errs + (if reply.failed then [PushError(i)] else []) + MarkErrors(i, n, env.mark),
            true,
            p.allOK && !reply.failed && AllAcked(i, n, env.mark) && n == |missing|,
            false,
            p.log + [PushEvent(i, missing)])
  }

  function LaneOf(sync: string, env: Env, targets: seq<string>, i: nat): Lane
    requires i < |targets|
  {
    Lane(sync, targets[i], env.hash)
  }

  /** The fan-out over the first n targets. */
  ghost function FanOut(sync: string, env: Env, targets: seq<string>, items: seq<WatchItem>, db: Db, n: nat): Fan
    requires n <= |targets|
  {
    if n == 0 then Fan(db, [], false, true, false, [])
    else
      var p := FanOut(sync, env, targets, items, db, n - 1);
      if p.aborted then p else ServeTarget(env, LaneOf(sync, env, targets, n - 1), n - 1, items, p)
  }

  datatype SyncResult = SyncResult(db: Db, errs: seq<SyncError>, log: seq<PushEvent>)

  ghost function SyncRun(sync: string, env: Env, targets: seq<string>, db: Db): SyncResult {
    if !env.cursorUp then SyncResult(db, [CursorReadError], [])
    else match env.history(CursorOf(db, sync))
      case Err => SyncResult(db, [HistoryError], [])
      case Ok(items) => Conclude(sync, env, FanOut(sync, env, targets, items, db, |targets|))
  }

  ghost function Conclude(sync: string, env: Env, f: Fan): SyncResult {
    if f.aborted then SyncResult(f.db, [SeenError], f.log)
    else if !f.anyFresh then SyncResult(f.db, [], f.log)
    else if !f.allOK then SyncResult(f.db, f.errs, f.log)
    else SyncResult(WithCursor(f.db, sync, env.now, env.cursorWrite),
                    f.errs + (if env.cursorWrite.Ack? then [] else [CursorWriteError]), f.log)
  }

  lemma {:induction false} AbortPropagates(sync: string, env: Env, targets: seq<string>, items: seq<WatchItem>,
      db: Db, i: nat, n: nat)
    requires i <= n <= |targets|
    requires FanOut(sync, env, targets, items, db, i).aborted
    ensures FanOut(sync, env, targets, items, db, n) == FanOut(sync, env, targets, items, db, i)
    decreases n - i
  {
    if i < n {
      AbortPropagates(sync, env, targets, items, db, i, n - 1);
    }
  }

  lemma FanOutNext(sync: string, env: Env, targets: seq<string>, items: seq<WatchItem>, db: Db, n: nat)
    requires n < |targets|
    ensures var p := FanOut(sync, env, targets, items, db, n);
            FanOut(sync, env, targets, items, db, n + 1)
            == if p.aborted then p else ServeTarget(env, LaneOf(sync, env, targets, n), n, items, p)
  {
  }

  // ---------- the loop ----------

  method Sync(sync: string, env: Env, targets: seq<string>, st: Store)
    returns (errs: seq<SyncError>, ghost log: seq<PushEvent>)
    modifies st
    ensures SyncResult(st.View(), errs, log) == SyncRun(sync, env, targets, old(st.View()))
  {
    ghost var db := st.View();
    log := [];
    var since := st.LastRun(sync, env.cursorUp);
    if since.Err? {
      return [CursorReadError], [];
    }
    var windowEnd := env.now;
    var window := env.history(since.value);
    if window.Err? {
      return [HistoryError], [];
    }
    var items := window.value;
    errs := [];
    var anyFresh, allOK := false, true;
    for i := 0 to |targets|
      invariant Fan(st.View(), errs, anyFresh, allOK, false, log) == FanOut(sync, env, targets, items, db, i)
    {
      var lane := LaneOf(sync, env, targets, i);
      FanOutNext(sync, env, targets, items, db, i);
      var missing, down := CollectFresh(lane, i, items, env, st);
      if down {
        AbortPropagates(sync, env, targets, items, db, i + 1, |targets|);
        return [SeenError], log;
      }
      if missing == [] {
        continue;
      }
      anyFresh := true;
      log := log + [PushEvent(i, missing)];
      var pushErrs, markErrs, clean := Offer(lane, i, missing, env, st);
      errs := errs + pushErrs + markErrs;
      if !clean {
        allOK := false;
      }
    }
    if !anyFresh {
      return [], log;
    }
    if allOK {
      var ok := st.SetLastRun(sync, windowEnd, env.cursorWrite);
      if !ok {
        errs := errs + [CursorWriteError];
      }
    }
  }

  /** The inner diff loop of Sync. */
  method CollectFresh(lane: Lane, i: nat, items: seq<WatchItem>, env: Env, st: Store)
    returns (missing: seq<WatchItem>, down: bool)
    ensures down <==> !AllSeenUp(env, i, |items|)
    ensures !down ==> missing == Fresh(st.View(), lane, items)
  {
    missing := [];
    for j := 0 to |items|
      invariant AllSeenUp(env, i, j)
      invariant missing == Fresh(st.View(), lane, items[..j])
    {
      var seen := st.Seen(lane.sync, lane.target, lane.hash(items[j]), env.seenUp(i, j));
      if seen.Err? {
        return [], true;
      }
      assert Init(items[..j + 1]) == items[..j];
      if !seen.value {
        missing := missing + [items[j]];
      }
    }
    assert items[..|items|] == items;
    down := false;
  }

  /** The push to one target and the marks after it; it is clean if nothing failed and nothing was left out. */
  method Offer(lane: Lane, i: nat, missing: seq<WatchItem>, env: Env, st: Store)
    returns (pushErrs: seq<SyncError>, markErrs: seq<SyncError>, clean: bool)
    modifies st
    ensures var reply := env.push(i, missing); var n := |reply.delivered|;
      && st.View() == MarkAll(old(st.View()), lane, i, reply.delivered, env.mark)
      && pushErrs == (if reply.failed then [PushError(i)] else []) && markErrs == MarkErrors(i, n, env.mark)
      && (clean <==> !reply.failed && AllAcked(i, n, env.mark) && n == |missing|)
  {
    var reply := env.push(i, missing);
    pushErrs, clean := [], true;
    if reply.failed {
      pushErrs, clean := [PushError(i)], false;
    }
    markErrs := MarkDelivered(lane, i, reply.delivered, env.mark, st);
    if markErrs != [] {
      clean := false;
    }
    if |reply.delivered| != |missing| {
      clean := false;
    }
  }

  /** The inner mark loop of Sync: every delivered item is attempted, whatever earlier writes answered. */
  method MarkDelivered(lane: Lane, i: nat, delivered: seq<WatchItem>, mark: (nat, nat) -> WriteAnswer, st: Store)
    returns (errs: seq<SyncError>)
    modifies st
    ensures st.View() == MarkAll(old(st.View()), lane, i, delivered, mark)
    ensures errs == MarkErrors(i, |delivered|, mark)
    ensures errs == [] <==> AllAcked(i, |delivered|, mark)
  {
    errs := [];
    for k := 0 to |delivered|
      invariant st.View() == MarkAll(old(st.View()), lane, i, delivered[..k], mark)
      invariant errs == MarkErrors(i, k, mark)
    {
      var it := delivered[k];
      MarkAllNext(old(st.View()), lane, i, delivered, k, mark);
      var ok := st.MarkSeen(lane.sync, lane.target, lane.hash(it), it.watchedAt, mark(i, k));
      if !ok {
        errs := errs + [MarkError(i)];
      }
    }
    assert delivered[..|delivered|] == delivered;
    NoMarkErrors(i, |delivered|, mark);
  }
}
