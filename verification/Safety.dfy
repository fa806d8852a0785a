/** What every execution of the protocol keeps, whatever fails and wherever the process dies. */
module Safety {
  import opened Calendar
  import opened Model
  import opened Lists
  import opened StoreModel
  import opened Engine
  import opened Protocol

  // ---------- rows and cursor over time ----------

  ghost predicate ReportedRow(c: Conf, s: Sys, k: RowKey, at: Instant) {
    exists rep: Report :: rep in s.reports && rep.target in c.targets
                          && k == Lane(c.sync, rep.target, c.hash).RowOf(rep.item) && at == rep.item.watchedAt
  }

  /** s follows s0: rows are kept as they were written, every new row repeats a delivered report,
      reports are kept, and the cursor has not gone back. */
  ghost predicate Follows(c: Conf, s0: Sys, s: Sys) {
    && (forall k :: k in s0.db.rows ==> k in s.db.rows && s.db.rows[k] == s0.db.rows[k])
    && (forall k :: k in s.db.rows ==> k in s0.db.rows || ReportedRow(c, s, k, s.db.rows[k]))
    && s0.reports <= s.reports
    && CursorOf(s0.db, c.sync) <= CursorOf(s.db, c.sync)
    && s.db.cursors - {c.sync} == s0.db.cursors - {c.sync}
  }

  lemma FollowsTransitive(c: Conf, a: Sys, b: Sys, d: Sys)
    requires Follows(c, a, b) && Follows(c, b, d)
    ensures Follows(c, a, d)
  {
    forall k | k in d.db.rows && k !in a.db.rows ensures ReportedRow(c, d, k, d.db.rows[k]) {
      if k in b.db.rows {
        assert ReportedRow(c, b, k, b.db.rows[k]);
      }
    }
  }

  lemma WriteFollows(c: Conf, s: Sys, answer: WriteAnswer)
    requires Inv(c, s)
    ensures Follows(c, s, Apply(c, s, Write(answer)))
  {
    var s' := Apply(c, s, Write(answer));
    if s.phase.Marking? && s.phase.done < |s.phase.delivered| {
      var it := s.phase.delivered[s.phase.done];
      var rep := Report(c.targets[s.phase.job.next], it);
      assert rep in s'.reports;
    }
  }

  lemma StepFollows(c: Conf, s: Sys, a: Action)
    requires Inv(c, s)
    ensures Follows(c, s, Apply(c, s, a))
  {
    if a.Write? {
      WriteFollows(c, s, a.answer);
    }
  }

  lemma {:induction false} ExecFollows(c: Conf, s: Sys, acts: seq<Action>)
    requires Inv(c, s)
    ensures Follows(c, s, Exec(c, s, acts))
  {
    if acts != [] {
      ExecFollows(c, s, Init(acts));
      ExecKeepsInv(c, s, Init(acts));
      StepFollows(c, Exec(c, s, Init(acts)), Last(acts));
      FollowsTransitive(c, s, Exec(c, s, Init(acts)), Exec(c, s, acts));
    }
  }

  lemma ExecConcat(c: Conf, s: Sys, a: seq<Action>, b: seq<Action>)
    ensures Exec(c, s, a + b) == Exec(c, Exec(c, s, a), b)
  {
    FoldConcat(StepOf(c), s, a, b);
  }

  // ---------- no loss ----------

  /** Some item with the same hash was reported delivered by target. */
  ghost predicate Reported(c: Conf, s: Sys, target: string, it: WatchItem) {
    exists rep: Report :: rep in s.reports && rep.target == target && c.hash(rep.item) == c.hash(it)
  }

  /** No loss: if every answer of the source covered what it held when the clock was read, then after any
      execution every entry dated before the cursor, from the floor on which the start was caught up, is marked for
      every target, and the mark was there at the start or stands for a delivery the target reported. */
  lemma NoLoss(c: Conf, s0: Sys, acts: seq<Action>, floor: Instant)
    requires Start(c, s0) && CaughtUp(c, s0.db, s0.ledger, floor) && ReadsCover(c, s0, acts)
    ensures var s := Exec(c, s0, acts);
            forall it, i :: it in s.ledger && !Before(it, floor) && Before(it, CursorOf(s.db, c.sync)) && 0 <= i < |c.targets| ==>
              Marked(s.db, c.LaneAt(i), it)
              && (Marked(s0.db, c.LaneAt(i), it) || Reported(c, s, c.targets[i], it))
  {
    ExecKeepsCaughtUp(c, s0, acts, floor);
    ExecFollows(c, s0, acts);
    var s := Exec(c, s0, acts);
    forall it, i | it in s.ledger && !Before(it, floor) && Before(it, CursorOf(s.db, c.sync)) && 0 <= i < |c.targets|
      ensures Marked(s.db, c.LaneAt(i), it)
      ensures Marked(s0.db, c.LaneAt(i), it) || Reported(c, s, c.targets[i], it)
    {
      assert MarkedUpTo(c, s.db, |c.targets|, it);
      var k := c.LaneAt(i).RowOf(it);
      assert Marked(s.db, c.LaneAt(i), it);
      if k !in s0.db.rows {
        assert ReportedRow(c, s, k, s.db.rows[k]);
      }
    }
  }

  /** From any store whatever, such as one just migrated or one to whose sync a target was added, nothing dated
      from the initial cursor on is lost. */
  lemma NothingNewIsLost(c: Conf, s0: Sys, acts: seq<Action>, it: WatchItem, i: nat)
    requires Start(c, s0) && ReadsCover(c, s0, acts) && i < |c.targets|
    requires it in Exec(c, s0, acts).ledger && !Before(it, CursorOf(s0.db, c.sync))
    requires Before(it, CursorOf(Exec(c, s0, acts).db, c.sync))
    ensures Marked(Exec(c, s0, acts).db, c.LaneAt(i), it)
    ensures Marked(s0.db, c.LaneAt(i), it) || Reported(c, Exec(c, s0, acts), c.targets[i], it)
  {
    NoLoss(c, s0, acts, CursorOf(s0.db, c.sync));
  }

  /** Rows of other syncs and their cursors are never touched; rows are never removed or rewritten; every
      new row repeats the hash and date of an item its target reported; the cursor never goes back. */
  lemma RowsJustified(c: Conf, s0: Sys, acts: seq<Action>)
    requires Start(c, s0)
    ensures Follows(c, s0, Exec(c, s0, acts))
    ensures forall k: RowKey :: k.sync != c.sync ==> (k in Exec(c, s0, acts).db.rows <==> k in s0.db.rows)
  {
    ExecFollows(c, s0, acts);
    var s := Exec(c, s0, acts);
    forall k: RowKey | k.sync != c.sync && k in s.db.rows ensures k in s0.db.rows {
      assert k in s0.db.rows || ReportedRow(c, s, k, s.db.rows[k]);
    }
  }

  /** Once a mark is stored, no later run ever offers an item with that hash to that target. */
  lemma NeverPushedAgain(c: Conf, s0: Sys, acts: seq<Action>, later: seq<Action>, it: WatchItem)
    requires Start(c, s0)
    ensures var s, s' := Exec(c, s0, acts), Exec(c, s0, acts + later);
            s'.phase.Pushing? ==>
              && s'.phase.job.next < |c.targets|
              && (it in s'.phase.missing ==> !Marked(s.db, c.LaneAt(s'.phase.job.next), it))
  {
    ExecConcat(c, s0, acts, later);
    ExecKeepsInv(c, s0, acts);
    var s := Exec(c, s0, acts);
    ExecKeepsInv(c, s, later);
    ExecFollows(c, s, later);
    var s' := Exec(c, s, later);
    if s'.phase.Pushing? {
      FreshMember(s'.db, c.LaneAt(s'.phase.job.next), s'.phase.job.items, it);
    }
  }

  // ---------- the cursor is only an optimisation ----------

  /** A cursorless engine: every run diffs the whole ledger against each target's rows. */
  datatype Plain = Plain(ledger: seq<WatchItem>, rows: map<RowKey, Instant>, reports: set<Report>, duty: Duty)

  datatype Duty =
    | Rest
    | Serve(snapshot: seq<WatchItem>, next: nat)
    | Offer(snapshot: seq<WatchItem>, next: nat, missing: seq<WatchItem>)
    | Record(snapshot: seq<WatchItem>, next: nat, delivered: seq<WatchItem>, done: nat)

  ghost function PlainFresh(c: Conf, p: Plain, next: nat, ledger: seq<WatchItem>): seq<WatchItem>
    requires next < |c.targets|
  {
    Fresh(Db(map[], p.rows), c.LaneAt(next), ledger)
  }

  ghost predicate PlainNext(c: Conf, p: Plain, q: Plain) {
    || (exists at, item :: 0 <= at <= |p.ledger| && q == p.(ledger := p.ledger[..at] + [item] + p.ledger[at..]))
    || q == p.(duty := Rest)
    || match p.duty
       case Rest => q == p.(duty := Serve(p.ledger, 0))
       case Serve(snapshot, next) =>
         next < |c.targets|
         && var missing := PlainFresh(c, p, next, snapshot);
            q == p.(duty := if missing == [] then Serve(snapshot, next + 1) else Offer(snapshot, next, missing))
       case Offer(snapshot, next, missing) =>
         next < |c.targets|
         && (exists delivered :: Subseq(delivered, missing) && PlainDeliver(c, p, q, delivered))
       case Record(snapshot, next, delivered, done) =>
         next < |c.targets|
         && if done == |delivered| then q == p.(duty := Serve(snapshot, next + 1))
            else done < |delivered| && PlainRecord(c, p, q)
  }

  ghost predicate PlainDeliver(c: Conf, p: Plain, q: Plain, delivered: seq<WatchItem>)
    requires p.duty.Offer? && p.duty.next < |c.targets|
  {
    q == p.(reports := p.reports + (set it | it in delivered :: Report(c.targets[p.duty.next], it)),
            duty := Record(p.duty.snapshot, p.duty.next, delivered, 0))
  }

  ghost predicate PlainRecord(c: Conf, p: Plain, q: Plain)
    requires p.duty.Record? && p.duty.next < |c.targets| && p.duty.done < |p.duty.delivered|
  {
    var it := p.duty.delivered[p.duty.done];
    var k := c.LaneAt(p.duty.next).RowOf(it);
    && q == p.(rows := q.rows, duty := p.duty.(done := p.duty.done + 1))
    && (q.rows == p.rows || (k !in p.rows && q.rows == p.rows[k := it.watchedAt]))
  }

  /** Forgets the clock, the cursor and the window. */
  ghost function Forget(s: Sys): Plain {
    Plain(s.ledger, s.db.rows, s.reports, DutyOf(s.phase))
  }

  ghost function DutyOf(ph: Phase): Duty {
    match ph
    case Idle => Rest
    case HasCursor(_) => Rest
    case HasClock(_, _) => Rest
    case AtTarget(job) => if job.items == [] then Rest else Serve(job.snapshot, job.next)
    case Diffing(job, _, _) => if job.items == [] then Rest else Serve(job.snapshot, job.next)
    case Pushing(job, missing) => Offer(job.snapshot, job.next, missing)
    case Marking(job, _, delivered, done, _) => Record(job.snapshot, job.next, delivered, done)
  }

  lemma {:induction false} FreshNeedsRowsOnly(a: Db, b: Db, lane: Lane, items: seq<WatchItem>)
    requires a.rows == b.rows
    ensures Fresh(a, lane, items) == Fresh(b, lane, items)
  {
    if items != [] {
      FreshNeedsRowsOnly(a, b, lane, Init(items));
    }
  }

  /** What the refinement needs of a state: nothing dated before the cursor is missing, and the window in hand is
      the ledger in order. */
  ghost predicate InOrder(c: Conf, s: Sys) {
    Inv(c, s) && CaughtUp(c, s.db, s.ledger, 0) && JobWindows(s)
  }

  lemma ExecKeepsInOrder(c: Conf, s0: Sys, acts: seq<Action>)
    requires Start(c, s0) && CaughtUp(c, s0.db, s0.ledger, 0) && ReadsWindows(c, s0, acts)
    ensures InOrder(c, Exec(c, s0, acts))
  {
    WindowsCover(c, s0, acts);
    ExecKeepsInv(c, s0, acts);
    ExecKeepsCaughtUp(c, s0, acts, 0);
    ExecKeepsWindows(c, s0, acts);
  }

  lemma WindowDiffIsPlain(c: Conf, s: Sys, job: Job)
    requires InOrder(c, s) && HasJob(s.phase) && job == s.phase.job && job.items != [] && job.next < |c.targets|
    ensures Fresh(s.db, c.LaneAt(job.next), job.items) == PlainFresh(c, Forget(s), job.next, job.snapshot)
  {
    var lane := c.LaneAt(job.next);
    forall it | it in job.snapshot && Before(it, job.since) ensures Marked(s.db, lane, it) {
      assert MarkedUpTo(c, s.db, |c.targets|, it);
    }
    WindowFresh(job.items, job.snapshot, job.since, s.db, lane);
    FreshNeedsRowsOnly(s.db, Db(map[], s.db.rows), lane, job.snapshot);
  }

  lemma ProceedIsPlain(c: Conf, s: Sys)
    requires InOrder(c, s)
    ensures var p, q := Forget(s), Forget(Apply(c, s, Proceed)); p == q || PlainNext(c, p, q)
  {
    if s.phase.Diffing? && s.phase.job.items != [] {
      var job := s.phase.job;
      assert job.items[..|job.items|] == job.items;
      WindowDiffIsPlain(c, s, job);
    }
  }

  lemma WriteIsPlain(c: Conf, s: Sys, answer: WriteAnswer)
    requires InOrder(c, s)
    ensures var p, q := Forget(s), Forget(Apply(c, s, Write(answer))); p == q || PlainNext(c, p, q)
  {
    if s.phase.Marking? && s.phase.done < |s.phase.delivered| {
      var p, q := Forget(s), Forget(Apply(c, s, Write(answer)));
      assert PlainRecord(c, p, q);
    }
  }

  lemma StepIsPlain(c: Conf, s: Sys, a: Action)
    requires InOrder(c, s)
    ensures var p, q := Forget(s), Forget(Apply(c, s, a)); p == q || PlainNext(c, p, q)
  {
    var p, q := Forget(s), Forget(Apply(c, s, a));
    match a
    case Proceed => ProceedIsPlain(c, s);
    case Write(answer) => WriteIsPlain(c, s, answer);
    case _ =>
  }

  /** Refinement: with the clock, the cursor and the window forgotten, every step of an execution whose reads are
      windows is a step of the cursorless engine or invisible to it. */
  lemma CursorIsInvisible(c: Conf, s0: Sys, acts: seq<Action>, a: Action)
    requires Start(c, s0) && CaughtUp(c, s0.db, s0.ledger, 0) && ReadsWindows(c, s0, acts)
    ensures var p, q := Forget(Exec(c, s0, acts)), Forget(Exec(c, s0, acts + [a]));
            p == q || PlainNext(c, p, q)
  {
    ExecKeepsInOrder(c, s0, acts);
    assert Init(acts + [a]) == acts;
    StepIsPlain(c, Exec(c, s0, acts), a);
  }

  /** What a target is offered is part of the window in hand, in order, and is the diff of everything the source
      held against that target's rows, in ledger order, repetitions included. */
  lemma OfferIsWholeLedgerDiff(c: Conf, s0: Sys, acts: seq<Action>)
    requires Start(c, s0) && CaughtUp(c, s0.db, s0.ledger, 0) && ReadsWindows(c, s0, acts)
    ensures var s := Exec(c, s0, acts);
            s.phase.Pushing? ==>
              s.phase.job.next < |c.targets|
              && Subseq(s.phase.missing, s.phase.job.items)
              && s.phase.missing == Fresh(s.db, c.LaneAt(s.phase.job.next), s.phase.job.snapshot)
  {
    ExecKeepsInOrder(c, s0, acts);
    var s := Exec(c, s0, acts);
    if s.phase.Pushing? {
      var job := s.phase.job;
      FreshIsSubseq(s.db, c.LaneAt(job.next), job.items);
      WindowDiffIsPlain(c, s, job);
      FreshNeedsRowsOnly(s.db, Db(map[], s.db.rows), c.LaneAt(job.next), job.snapshot);
    }
  }
}
