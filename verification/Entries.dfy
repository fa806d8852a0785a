/** What the hash-level guarantees mean for watch history entries, and what a dropped one costs. */
module Entries {
  import opened Calendar
  import opened Model
  import opened Lists
  import opened StoreModel
  import opened Engine
  import opened Protocol
  import opened Safety
  import opened Runs
  import opened Laws
  import opened Outcomes
  import opened Fleets
  import opened Options
  import Ryot
  import Windows

  // ---------- entries, not only hashes ----------

  ghost predicate AllListable(items: seq<WatchItem>) {
    forall it :: it in items ==> Listable(it)
  }

  /** Every answer of the source lists movies and episodes only, as those of the readers do. */
  ghost predicate ReceivesListable(acts: seq<Action>) {
    forall a :: a in acts && a.Receive? ==> AllListable(a.items)
  }

  ghost predicate ListableSys(s: Sys) {
    && (forall rep :: rep in s.reports ==> Listable(rep.item))
    && match s.phase
       case AtTarget(job) => AllListable(job.items)
       case Diffing(job, _, _) => AllListable(job.items)
       case Pushing(job, _) => AllListable(job.items)
       case Marking(job, _, _, _, _) => AllListable(job.items)
       case _ => true
  }

  lemma StepKeepsListable(c: Conf, s: Sys, a: Action)
    requires Inv(c, s) && ListableSys(s) && (a.Receive? ==> AllListable(a.items))
    ensures ListableSys(Apply(c, s, a))
  {
    if a.Deliver? && s.phase.Pushing? && Subseq(a.reply.delivered, s.phase.missing) {
      var job, missing := s.phase.job, s.phase.missing;
      forall it | it in a.reply.delivered ensures Listable(it) {
        SubseqMember(a.reply.delivered, missing, it);
        FreshMember(s.db, c.LaneAt(job.next), job.items, it);
      }
    }
  }

  lemma {:induction false} ExecKeepsListable(c: Conf, s: Sys, acts: seq<Action>)
    requires Inv(c, s) && ListableSys(s) && ReceivesListable(acts)
    ensures ListableSys(Exec(c, s, acts))
  {
    if acts != [] {
      assert acts == Init(acts) + [Last(acts)];
      ExecKeepsListable(c, s, Init(acts));
      ExecKeepsInv(c, s, Init(acts));
      StepKeepsListable(c, Exec(c, s, Init(acts)), Last(acts));
    }
  }

  /** Every entry dated from the initial cursor on and before the present one was reported delivered, as the same
      entry and not merely under the same hash, by every target that had no row for it at the start. */
  lemma EveryEntryDelivered(c: Conf, s0: Sys, acts: seq<Action>, it: WatchItem, i: nat)
    requires Start(c, s0) && ListableSys(s0) && CollisionFree(c.hash)
    requires ReadsCover(c, s0, acts) && ReceivesListable(acts)
    requires i < |c.targets| && Listable(it) && !Marked(s0.db, c.LaneAt(i), it) && !Before(it, CursorOf(s0.db, c.sync))
    requires var s := Exec(c, s0, acts); it in s.ledger && Before(it, CursorOf(s.db, c.sync))
    ensures exists rep :: rep in Exec(c, s0, acts).reports && rep.target == c.targets[i] && SameEntry(rep.item, it)
  {
    NoLoss(c, s0, acts, CursorOf(s0.db, c.sync));
    ExecKeepsListable(c, s0, acts);
    var s := Exec(c, s0, acts);
    assert Marked(s.db, c.LaneAt(i), it);
    assert Reported(c, s, c.targets[i], it);
    var rep: Report :| rep in s.reports && rep.target == c.targets[i] && c.hash(rep.item) == c.hash(it);
    ListableSameEntry(c.hash, rep.item, it);
  }

  // ---------- a per-id gap in a Ryot read ----------

  /** A movie in the library, seen once at the given instant. */
  function Movie(title: string, tmdb: int, at: Instant): Ryot.Alias {
    Ryot.Alias(Some(Ryot.DetailPart(tmdb, true, false, title)), Some([Ryot.SeenRow(Some(at), None)]))
  }

  /** The entry it reads as. */
  function Watched(title: string, tmdb: int, at: Instant): WatchItem {
    WatchItem(IDs(0, 0, "", tmdb, 0), "movie", title, 0, 0, 0, at)
  }

  /** Every id answers: x has TMDB number m, any other id n. */
  function Whole(x: string, m: int, n: int, at: Instant): string -> Ryot.Alias {
    id => Movie(id, if id == x then m else n, at)
  }

  /** Only x answers; the aliases of the others failed. */
  function Gapped(x: string, m: int, at: Instant): string -> Ryot.Alias {
    id => if id == x then Movie(id, m, at) else Ryot.Alias(None, None)
  }

  /** A server that lists the movies x and y on one page, and no shows. */
  function Shelf(x: string, y: string, alias: string -> Ryot.Alias): Ryot.Library {
    Ryot.Library((lot: nat, p: nat) => Ryot.ListPage(if lot == 0 && p == 1 then [x, y] else [], false),
                 (lot: nat, p: nat, c: nat) => true, alias)
  }

  /** A run at instant now that reads from such a server; nothing else fails. */
  function ShelfEnv(hash: WatchItem -> string, l: Ryot.Library, now: Instant): Env {
    Env(hash, true, now, since => Ok(Ryot.HistoryAnswer(l, since)), (i, j) => true,
        (i, items) => PushReply(items, false), (i, k) => Ack, Ack)
  }

  lemma MovieRead(title: string, tmdb: int, at: Instant)
    requires tmdb != 0
    ensures Ryot.ReadOne(Movie(title, tmdb, at)) == [Watched(title, tmdb, at)]
  {
    var rows := [Ryot.SeenRow(Some(at), None)];
    assert Init(rows) == [];
    var none: seq<Ryot.SeenRow> := [];
    assert Ryot.RowItems(Ryot.DetailPart(tmdb, true, false, title), none) == [];
  }

  lemma ReadTwo(x: string, y: string, alias: string -> Ryot.Alias)
    ensures Ryot.ReadEach([x, y], alias) == Ryot.ReadOne(alias(x)) + Ryot.ReadOne(alias(y))
  {
    var part := Ryot.Entries(alias);
    assert [x] + [y] == [x, y];
    GatherConcat([x], [y], part);
    GatherOne(x, part);
    GatherOne(y, part);
  }

  lemma GatherOne(x: string, part: string -> seq<WatchItem>)
    ensures Gather([x], part) == part(x)
  {
    var none: seq<string> := [];
    assert Init([x]) == none && Gather(none, part) + part(x) == part(x);
  }

  lemma ShelfRead(x: string, y: string, alias: string -> Ryot.Alias)
    ensures Ryot.HistoryAnswer(Shelf(x, y, alias), 0) == Ryot.ReadEach([x, y], alias)
  {
    var l := Shelf(x, y, alias);
    var read := Ryot.ReadEach([x, y], alias);
    OnePage(Ryot.PagesOf(l, 0), read);
    OnePage(Ryot.PagesOf(l, 1), []);
    assert read + [] == read;
    AllFromZero(read);
  }

  lemma OnePage(read: nat -> Ryot.PageRead, items: seq<WatchItem>)
    requires read(1) == Ryot.Ended(items)
    ensures Ryot.WalkAnswer(read) == Ok(items)
  {
    assert Ryot.EndsAt(read, 1);
    Ryot.EndUnique(read);
    assert Ryot.Walked(read, 0) + items == items;
  }

  lemma {:induction false} AllFromZero(items: seq<WatchItem>)
    ensures Select(items, (it: WatchItem) => Ryot.NotBefore(it, 0)) == items
  {
    if items != [] {
      AllFromZero(Init(items));
      assert items == Init(items) + [Last(items)];
    }
  }

  /** The library holds two movies; one read answers for both, the other lost the alias of the second. */
  lemma ShelfReads(x: string, y: string, m: int, n: int, at: Instant)
    requires x != y && m != 0 && n != 0
    ensures Ryot.HistoryAnswer(Shelf(x, y, Whole(x, m, n, at)), 0) == [Watched(x, m, at), Watched(y, n, at)]
    ensures Ryot.HistoryAnswer(Shelf(x, y, Gapped(x, m, at)), 0) == [Watched(x, m, at)]
  {
    ShelfRead(x, y, Whole(x, m, n, at));
    ShelfRead(x, y, Gapped(x, m, at));
    ReadTwo(x, y, Whole(x, m, n, at));
    ReadTwo(x, y, Gapped(x, m, at));
    MovieRead(x, m, at);
    MovieRead(y, n, at);
  }

  lemma ShelfEnvIsGood(hash: WatchItem -> string, l: Ryot.Library, now: Instant)
    ensures PushContract(ShelfEnv(hash, l, now)) && FaultFree(ShelfEnv(hash, l, now))
  {
    forall i: nat, x: seq<WatchItem> ensures Subseq(ShelfEnv(hash, l, now).push(i, x).delivered, x) {
      SubseqSelf(x);
    }
  }

  /** One fault-free first run over a window that holds kept but not lost moves the cursor past both. */
  lemma KeptMovesCursor(sync: string, targets: seq<string>, env: Env, items: seq<WatchItem>, kept: WatchItem,
      lost: WatchItem)
    requires |targets| == 1 && env.cursorUp && FaultFree(env) && PushContract(env)
    requires env.history(0) == Ok(items) && kept in items && forall w :: w in items ==> env.hash(w) != env.hash(lost)
    requires !IsZero(env.now) && lost.watchedAt < env.now
    ensures !CaughtUp(ConfOf(sync, env, targets), SyncRun(sync, env, targets, Db(map[], map[])).db, [kept, lost], 0)
  {
    var db, ledger := Db(map[], map[]), [kept, lost];
    var lane := LaneOf(sync, env, targets, 0);
    FreshMember(db, lane, items, kept);
    assert Done(sync, env, targets, items, db, 0);
    GapCostsExactly(sync, env, targets, db, items, ledger);
    assert lost in ledger && !Marked(db, lane, lost);
  }

  /** The hypothesis on the source is needed. Two movies with different TMDB numbers are seen before the first run,
      and the read silently leaves out the one whose alias failed: the run succeeds, moves the cursor past both,
      and has no row for the one left out, although the digest tells them apart. */
  lemma DroppedAliasIsLost(hash: WatchItem -> string, sync: string, target: string, x: string, y: string,
                           m: int, n: int, at: Instant, now: Instant)
    requires CollisionFree(hash) && x != y && m != 0 && n != 0 && m != n && !IsZero(now) && at < now
    ensures var env := ShelfEnv(hash, Shelf(x, y, Gapped(x, m, at)), now);
            var run := SyncRun(sync, env, [target], Db(map[], map[]));
            && run.errs == [] && CursorOf(run.db, sync) == now
            && !CaughtUp(ConfOf(sync, env, [target]), run.db, Ryot.HistoryAnswer(Shelf(x, y, Whole(x, m, n, at)), 0), 0)
  {
    var kept, lost, l := Watched(x, m, at), Watched(y, n, at), Shelf(x, y, Gapped(x, m, at));
    var env, db := ShelfEnv(hash, l, now), Db(map[], map[]);
    ShelfReads(x, y, m, n, at);
    ShelfEnvIsGood(hash, l, now);
    ListableSameEntry(hash, kept, lost);
    KeptMovesCursor(sync, [target], env, [kept], kept, lost);
    FreshMember(db, LaneOf(sync, env, [target], 0), [kept], kept);
    CursorMoves(sync, env, target, [kept], kept);
  }

  lemma CursorMoves(sync: string, env: Env, target: string, items: seq<WatchItem>, it: WatchItem)
    requires env.cursorUp && FaultFree(env) && env.history(0) == Ok(items) && it in items
    ensures var run := SyncRun(sync, env, [target], Db(map[], map[])); run.errs == [] && CursorOf(run.db, sync) == env.now
  {
    var db := Db(map[], map[]);
    FreshMember(db, LaneOf(sync, env, [target], 0), items, it);
    assert Done(sync, env, [target], items, db, 0);
    CursorMovesExactly(sync, env, [target], db, items);
    NoErrors(sync, env, [target], items, db, 1);
  }

  /** With every alias answered the same run leaves nothing behind. */
  lemma WholeShelfIsNot(hash: WatchItem -> string, sync: string, target: string, x: string, y: string,
                        m: int, n: int, at: Instant, now: Instant)
    requires x != y && m != 0 && n != 0 && 0 <= now
    ensures var env := ShelfEnv(hash, Shelf(x, y, Whole(x, m, n, at)), now);
            CaughtUp(ConfOf(sync, env, [target]), SyncRun(sync, env, [target], Db(map[], map[])).db,
                     [Watched(x, m, at), Watched(y, n, at)], 0)
  {
    var l := Shelf(x, y, Whole(x, m, n, at));
    ShelfReads(x, y, m, n, at);
    ShelfEnvIsGood(hash, l, now);
    var ledger := [Watched(x, m, at), Watched(y, n, at)];
    var env := ShelfEnv(hash, l, now);
    Windows.WindowSelf(ledger, 0);
    OrderedIsHonest(env, ledger, 0);
    RunKeepsCaughtUp(sync, env, [target], Db(map[], map[]), ledger, 0);
  }
}
