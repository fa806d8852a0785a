/** Runs of one sync over time, step by step: the source grows, the clock moves, every read and
    write may fail and the process may die between any two steps. */
module Protocol {
  import opened Calendar
  import opened Model
  import opened Lists
  import opened StoreModel
  import opened Engine

  /** A sync with its fixed target list. */
  datatype Conf = Conf(sync: string, targets: seq<string>, hash: WatchItem -> string) {
    function LaneAt(i: nat): Lane
      requires i < |targets|
    {
      Lane(sync, targets[i], hash)
    }
  }

  /** A run in progress. The snapshot is what the source held when the window was read. */
  datatype Job = Job(
    since: Instant, windowEnd: Instant, items: seq<WatchItem>, snapshot: seq<WatchItem>,
    next: nat, anyFresh: bool, allOK: bool)

  datatype Phase =
    | Idle
    | HasCursor(since: Instant)
    | HasClock(since: Instant, windowEnd: Instant)
    | AtTarget(job: Job)
    | Diffing(job: Job, missing: seq<WatchItem>, asked: nat)
    | Pushing(job: Job, missing: seq<WatchItem>)
    | Marking(job: Job, missing: seq<WatchItem>, delivered: seq<WatchItem>, done: nat, acked: bool)

  /** target reported item delivered. */
  datatype Report = Report(target: string, item: WatchItem)

  datatype Sys = Sys(ledger: seq<WatchItem>, clock: Instant, db: Db, reports: set<Report>, phase: Phase)

  datatype Action =
    | Arrive(at: nat, item: WatchItem)   // the source gains an entry
    | Tick(now: Instant)
    | Die                                // crash, cancelled run, or an early error return
    | Proceed                            // the next step nobody else decides
    | Receive(items: seq<WatchItem>)     // History answers
    | Deliver(reply: PushReply)          // Push answers
    | Write(answer: WriteAnswer)         // MarkSeen or SetLastRun answers

  /** it is dated before the cursor, so a windowed read may leave it out; the zero cursor excludes nothing. */
  predicate Before(it: WatchItem, cursor: Instant) {
    !IsZero(cursor) && it.watchedAt < cursor
  }

  /** items is the ledger, in order, with some entries dated before since left out. */
  ghost predicate Window(items: seq<WatchItem>, ledger: seq<WatchItem>, since: Instant) {
    if ledger == [] then items == []
    else
      || (items != [] && Last(items) == Last(ledger) && Window(Init(items), Init(ledger), since))
      || (Before(Last(ledger), since) && Window(items, Init(ledger), since))
  }

  /** items hold, under its hash, every entry of the ledger dated from since on and before until, in any order and
      any number of times. */
  ghost predicate Covers(hash: WatchItem -> string, items: seq<WatchItem>, ledger: seq<WatchItem>, since: Instant,
      until: Instant) {
    forall it :: it in ledger && !Before(it, since) && it.watchedAt < until ==> HoldsHash(hash, items, it)
  }

  ghost predicate HoldsHash(hash: WatchItem -> string, items: seq<WatchItem>, it: WatchItem) {
    exists w :: w in items && hash(w) == hash(it)
  }

  // ---------- the transition function; an action that is not enabled changes nothing ----------

  ghost function Apply(c: Conf, s: Sys, a: Action): Sys {
    match a
    case Arrive(at, item) =>
      if at <= |s.ledger| && s.clock <= item.watchedAt
      then s.(ledger := s.ledger[..at] + [item] + s.ledger[at..]) else s
    case Tick(now) => if s.clock <= now then s.(clock := now) else s
    case Die => s.(phase := Idle)
    case Proceed => ApplyProceed(c, s)
    case Receive(items) =>
      if s.phase.HasClock?
      then s.(phase := AtTarget(Job(s.phase.since, s.phase.windowEnd, items, s.ledger, 0, false, true))) else s
    case Deliver(reply) =>
      if s.phase.Pushing? && s.phase.job.next < |c.targets| && Subseq(reply.delivered, s.phase.missing)
      then ApplyDeliver(c, s, s.phase.job, reply) else s
    case Write(answer) => ApplyWrite(c, s, answer)
  }

  ghost function ApplyDeliver(c: Conf, s: Sys, job: Job, reply: PushReply): Sys
    requires s.phase.Pushing? && job.next < |c.targets|
  {
    s.(reports := s.reports + (set it | it in reply.delivered :: Report(c.targets[job.next], it)),
       phase := Marking(job.(anyFresh := true, allOK := job.allOK && !reply.failed),
                        s.phase.missing, reply.delivered, 0, true))
  }

  ghost function ApplyProceed(c: Conf, s: Sys): Sys {
    match s.phase
    case Idle => s.(phase := HasCursor(CursorOf(s.db, c.sync)))
    case HasCursor(since) => s.(phase := HasClock(since, s.clock))
    case HasClock(_, _) => s
    case AtTarget(job) =>
      if job.next < |c.targets| then s.(phase := Diffing(job, [], 0))
      else if job.anyFresh && job.allOK then s
      else s.(phase := Idle)
    case Diffing(job, missing, asked) =>
      if !(job.next < |c.targets|) then s
      else if asked < |job.items| then
        var it := job.items[asked];
        s.(phase := Diffing(job, if Marked(s.db, c.LaneAt(job.next), it) then missing else missing + [it], asked + 1))
      else if missing == [] then s.(phase := AtTarget(job.(next := job.next + 1)))
      else s.(phase := Pushing(job, missing))
    case Pushing(_, _) => s
    case Marking(job, missing, delivered, done, acked) =>
      if done < |delivered| then s
      else s.(phase := AtTarget(job.(next := job.next + 1,
                                     allOK := job.allOK && acked && |delivered| == |missing|)))
  }

  ghost function ApplyWrite(c: Conf, s: Sys, answer: WriteAnswer): Sys {
    match s.phase
    case AtTarget(job) =>
      if job.next >= |c.targets| && job.anyFresh && job.allOK
      then s.(db := WithCursor(s.db, c.sync, job.windowEnd, answer), phase := Idle) else s
    case Marking(job, missing, delivered, done, acked) =>
      if done < |delivered| && job.next < |c.targets| then
        var it := delivered[done];
        s.(db := WithRow(s.db, c.LaneAt(job.next).RowOf(it), it.watchedAt, answer),
           phase := Marking(job, missing, delivered, done + 1, acked && answer.Ack?))
      else s
    case _ => s
  }

  /** Any finite execution: crashes, failures, restarts and arrivals in any order. */
  ghost function Exec(c: Conf, s: Sys, acts: seq<Action>): Sys {
    Fold(StepOf(c), s, acts)
  }

  ghost function StepOf(c: Conf): (Sys, Action) -> Sys {
    (s, a) => Apply(c, s, a)
  }

  // ---------- what may be asked of the source ----------

  /** An answer of the source is empty, or covers what it held when the clock was read. */
  ghost predicate Covered(c: Conf, s: Sys, a: Action) {
    a.Receive? && s.phase.HasClock? && a.items != [] ==>
      Covers(c.hash, a.items, s.ledger, s.phase.since, s.phase.windowEnd)
  }

  /** An answer of the source is empty, or the ledger in order with some entries dated before the cursor left out. */
  ghost predicate Windowed(s: Sys, a: Action) {
    a.Receive? && s.phase.HasClock? && a.items != [] ==> Window(a.items, s.ledger, s.phase.since)
  }

  ghost predicate ReadsCover(c: Conf, s: Sys, acts: seq<Action>) {
    if acts == [] then true else ReadsCover(c, s, Init(acts)) && Covered(c, Exec(c, s, Init(acts)), Last(acts))
  }

  ghost predicate ReadsWindows(c: Conf, s: Sys, acts: seq<Action>) {
    if acts == [] then true else ReadsWindows(c, s, Init(acts)) && Windowed(Exec(c, s, Init(acts)), Last(acts))
  }

  lemma WindowCovers(hash: WatchItem -> string, items: seq<WatchItem>, ledger: seq<WatchItem>, since: Instant,
      until: Instant)
    requires Window(items, ledger, since)
    ensures Covers(hash, items, ledger, since, until)
  {
    forall it | it in ledger && !Before(it, since) ensures HoldsHash(hash, items, it) {
      WindowMembers(items, ledger, since, it);
    }
  }

  lemma {:induction false} WindowsCover(c: Conf, s: Sys, acts: seq<Action>)
    requires ReadsWindows(c, s, acts)
    ensures ReadsCover(c, s, acts)
  {
    if acts != [] {
      WindowsCover(c, s, Init(acts));
      var before, a := Exec(c, s, Init(acts)), Last(acts);
      if a.Receive? && before.phase.HasClock? && a.items != [] {
        WindowCovers(c.hash, a.items, before.ledger, before.phase.since, before.phase.windowEnd);
      }
    }
  }

  // ---------- windows ----------

  lemma {:induction false} WindowMembers(items: seq<WatchItem>, ledger: seq<WatchItem>, since: Instant, it: WatchItem)
    requires Window(items, ledger, since)
    ensures it in ledger ==> it in items || Before(it, since)
    ensures it in items ==> it in ledger
  {
    if ledger != [] {
      assert ledger == Init(ledger) + [Last(ledger)];
      if items != [] && Last(items) == Last(ledger) && Window(Init(items), Init(ledger), since) {
        assert items == Init(items) + [Last(items)];
        WindowMembers(Init(items), Init(ledger), since, it);
      } else {
        WindowMembers(items, Init(ledger), since, it);
      }
    }
  }

  /** Diffing a window gives the same list, in the same order and with the same repetitions, as diffing
      the whole ledger, as soon as everything the window may omit is marked. */
  lemma {:induction false} WindowFresh(items: seq<WatchItem>, ledger: seq<WatchItem>, since: Instant, db: Db, lane: Lane)
    requires Window(items, ledger, since)
    requires forall it :: it in ledger && Before(it, since) ==> Marked(db, lane, it)
    ensures Fresh(db, lane, items) == Fresh(db, lane, ledger)
  {
    if ledger != [] {
      assert Last(ledger) in ledger;
      assert forall it :: it in Init(ledger) ==> it in ledger;
      if items != [] && Last(items) == Last(ledger) && Window(Init(items), Init(ledger), since) {
        WindowFresh(Init(items), Init(ledger), since, db, lane);
      } else {
        WindowFresh(items, Init(ledger), since, db, lane);
      }
    }
  }

  // ---------- the invariant ----------

  ghost predicate MarkedUpTo(c: Conf, db: Db, n: nat, it: WatchItem)
    requires n <= |c.targets|
  {
    forall i: nat :: i < n ==> Marked(db, c.LaneAt(i), it)
  }

  /** Every entry dated from floor on and before the cursor is marked for every target; the zero floor leaves
      nothing out. */
  ghost predicate CaughtUp(c: Conf, db: Db, ledger: seq<WatchItem>, floor: Instant) {
    forall it :: it in ledger && !Before(it, floor) && Before(it, CursorOf(db, c.sync)) ==> MarkedUpTo(c, db, |c.targets|, it)
  }

  ghost predicate JobOK(c: Conf, s: Sys, job: Job) {
    && job.since == CursorOf(s.db, c.sync) <= job.windowEnd <= s.clock
    && job.next <= |c.targets|
    && (job.items == [] ==> !job.anyFresh)
    && (forall it :: it in job.snapshot ==> it in s.ledger)
    && (forall it :: it in s.ledger ==> it in job.snapshot || job.windowEnd <= it.watchedAt)
    && (job.allOK ==> forall it :: it in job.items ==> MarkedUpTo(c, s.db, job.next, it))
  }

  ghost predicate MarkingOK(c: Conf, s: Sys)
    requires s.phase.Marking? && s.phase.job.next < |c.targets|
  {
    var lane, missing, delivered := c.LaneAt(s.phase.job.next), s.phase.missing, s.phase.delivered;
    && s.phase.job.items != []
    && Subseq(delivered, missing) && s.phase.done <= |delivered|
    && (forall it :: it in s.phase.job.items ==> Marked(s.db, lane, it) || it in missing)
    && (s.phase.acked ==> forall k :: 0 <= k < s.phase.done ==> Marked(s.db, lane, delivered[k]))
    && (forall it :: it in delivered ==> Report(lane.target, it) in s.reports)
  }

  /** What holds of a run in progress whatever the source answers. */
  ghost predicate PhaseOK(c: Conf, s: Sys) {
    match s.phase
    case Idle => true
    case HasCursor(since) => since == CursorOf(s.db, c.sync)
    case HasClock(since, windowEnd) => since == CursorOf(s.db, c.sync) <= windowEnd <= s.clock
    case AtTarget(job) => JobOK(c, s, job)
    case Diffing(job, missing, asked) =>
      && JobOK(c, s, job) && job.next < |c.targets| && asked <= |job.items|
      && missing == Fresh(s.db, c.LaneAt(job.next), job.items[..asked])
    case Pushing(job, missing) =>
      && JobOK(c, s, job) && job.next < |c.targets| && missing != []
      && missing == Fresh(s.db, c.LaneAt(job.next), job.items)
    case Marking(job, missing, delivered, done, acked) =>
      JobOK(c, s, job) && job.next < |c.targets| && MarkingOK(c, s)
  }

  ghost predicate Inv(c: Conf, s: Sys) {
    CursorOf(s.db, c.sync) <= s.clock && PhaseOK(c, s)
  }

  predicate HasJob(ph: Phase) {
    ph.AtTarget? || ph.Diffing? || ph.Pushing? || ph.Marking?
  }

  /** The window in hand covers what the source held when the clock was read. */
  ghost predicate JobCovers(c: Conf, s: Sys) {
    HasJob(s.phase) && s.phase.job.items != [] ==>
      Covers(c.hash, s.phase.job.items, s.phase.job.snapshot, s.phase.job.since, s.phase.job.windowEnd)
  }

  /** The window in hand is the ledger as it was read, with some entries dated before the cursor left out. */
  ghost predicate JobWindows(s: Sys) {
    HasJob(s.phase) && s.phase.job.items != [] ==> Window(s.phase.job.items, s.phase.job.snapshot, s.phase.job.since)
  }

  /** What holds in addition while the source covers what it holds. */
  ghost predicate CaughtUpInv(c: Conf, s: Sys, floor: Instant) {
    CaughtUp(c, s.db, s.ledger, floor) && JobCovers(c, s)
  }

  /** No run in progress and a cursor in the past. */
  ghost predicate Start(c: Conf, s: Sys) {
    s.phase.Idle? && CursorOf(s.db, c.sync) <= s.clock
  }

  // ---------- steps, whatever the source answers ----------

  lemma ArrivalKeepsInv(c: Conf, s: Sys, at: nat, item: WatchItem)
    requires Inv(c, s)
    ensures Inv(c, Apply(c, s, Arrive(at, item)))
    ensures var s' := Apply(c, s, Arrive(at, item));
            forall it :: it in s'.ledger ==> it in s.ledger || (it == item && s.clock <= it.watchedAt)
  {
    var s' := Apply(c, s, Arrive(at, item));
    assert forall it :: it in s.ledger ==> it in s'.ledger by {
      if at <= |s.ledger| {
        assert s.ledger == s.ledger[..at] + s.ledger[at..];
      }
    }
  }

  lemma DeliverKeepsInv(c: Conf, s: Sys, reply: PushReply)
    requires Inv(c, s)
    ensures Inv(c, Apply(c, s, Deliver(reply)))
  {
    if s.phase.Pushing? && Subseq(reply.delivered, s.phase.missing) {
      var job, missing := s.phase.job, s.phase.missing;
      var lane := c.LaneAt(job.next);
      forall it ensures it in missing <==> it in job.items && !Marked(s.db, lane, it) {
        FreshMember(s.db, lane, job.items, it);
      }
      assert Last(missing) in missing;
    }
  }

  lemma AskKeepsInv(c: Conf, s: Sys)
    requires Inv(c, s) && s.phase.Diffing?
    ensures Inv(c, ApplyProceed(c, s))
  {
    var job, missing, asked := s.phase.job, s.phase.missing, s.phase.asked;
    if asked < |job.items| {
      assert Init(job.items[..asked + 1]) == job.items[..asked];
    } else {
      assert job.items[..asked] == job.items;
      if missing == [] {
        forall it | it in job.items ensures Marked(s.db, c.LaneAt(job.next), it) {
          FreshMember(s.db, c.LaneAt(job.next), job.items, it);
        }
      }
    }
  }

  lemma LeaveTargetKeepsInv(c: Conf, s: Sys)
    requires Inv(c, s) && s.phase.Marking?
    ensures Inv(c, ApplyProceed(c, s))
  {
    var missing, delivered := s.phase.missing, s.phase.delivered;
    if |delivered| == |missing| {
      SubseqBounds(delivered, missing);
    }
  }

  lemma ProceedKeepsInv(c: Conf, s: Sys)
    requires Inv(c, s)
    ensures Inv(c, ApplyProceed(c, s))
  {
    if s.phase.Diffing? {
      AskKeepsInv(c, s);
    } else if s.phase.Marking? {
      LeaveTargetKeepsInv(c, s);
    } else if s.phase.AtTarget? {
      assert s.phase.job.items[..0] == [];
    }
  }

  lemma WriteKeepsInv(c: Conf, s: Sys, answer: WriteAnswer)
    requires Inv(c, s)
    ensures Inv(c, Apply(c, s, Write(answer)))
  {
  }

  lemma StepKeepsInv(c: Conf, s: Sys, a: Action)
    requires Inv(c, s)
    ensures Inv(c, Apply(c, s, a))
  {
    match a
    case Arrive(at, item) => ArrivalKeepsInv(c, s, at, item);
    case Deliver(reply) => DeliverKeepsInv(c, s, reply);
    case Proceed => ProceedKeepsInv(c, s);
    case Write(answer) => WriteKeepsInv(c, s, answer);
    case _ =>
  }

  lemma {:induction false} ExecKeepsInv(c: Conf, s: Sys, acts: seq<Action>)
    requires Inv(c, s)
    ensures Inv(c, Exec(c, s, acts))
  {
    if acts != [] {
      ExecKeepsInv(c, s, Init(acts));
      StepKeepsInv(c, Exec(c, s, Init(acts)), Last(acts));
    }
  }

  // ---------- steps, while the source covers what it holds ----------

  /** The cursor moves only when everything dated before its new place is marked for every target. */
  lemma CursorKeepsCaughtUp(c: Conf, s: Sys, answer: WriteAnswer, floor: Instant)
    requires Inv(c, s) && CaughtUpInv(c, s, floor) && s.phase.AtTarget?
    ensures CaughtUpInv(c, Apply(c, s, Write(answer)), floor)
  {
    var job := s.phase.job;
    if job.next >= |c.targets| && job.anyFresh && job.allOK {
      forall it | it in s.ledger && !Before(it, floor) && Before(it, job.windowEnd) ensures MarkedUpTo(c, s.db, |c.targets|, it) {
        if !Before(it, job.since) {
          assert HoldsHash(c.hash, job.items, it);
          var w :| w in job.items && c.hash(w) == c.hash(it);
          assert MarkedUpTo(c, s.db, |c.targets|, w);
          assert forall i: nat :: i < |c.targets| ==> c.LaneAt(i).RowOf(w) == c.LaneAt(i).RowOf(it);
        }
      }
    }
  }

  lemma StepKeepsCaughtUp(c: Conf, s: Sys, a: Action, floor: Instant)
    requires Inv(c, s) && CaughtUpInv(c, s, floor) && Covered(c, s, a)
    ensures CaughtUpInv(c, Apply(c, s, a), floor)
  {
    match a
    case Arrive(at, item) => ArrivalKeepsInv(c, s, at, item);
    case Write(answer) =>
      if s.phase.AtTarget? {
        CursorKeepsCaughtUp(c, s, answer, floor);
      }
    case _ =>
  }

  lemma {:induction false} ExecKeepsCaughtUp(c: Conf, s: Sys, acts: seq<Action>, floor: Instant)
    requires Inv(c, s) && CaughtUpInv(c, s, floor) && ReadsCover(c, s, acts)
    ensures CaughtUpInv(c, Exec(c, s, acts), floor)
  {
    if acts != [] {
      ExecKeepsInv(c, s, Init(acts));
      ExecKeepsCaughtUp(c, s, Init(acts), floor);
      StepKeepsCaughtUp(c, Exec(c, s, Init(acts)), Last(acts), floor);
    }
  }

  lemma {:induction false} ExecKeepsWindows(c: Conf, s: Sys, acts: seq<Action>)
    requires JobWindows(s) && ReadsWindows(c, s, acts)
    ensures JobWindows(Exec(c, s, acts))
  {
    if acts != [] {
      ExecKeepsWindows(c, s, Init(acts));
      StepKeepsWindows(c, Exec(c, s, Init(acts)), Last(acts));
    }
  }

  lemma StepKeepsWindows(c: Conf, s: Sys, a: Action)
    requires JobWindows(s) && Windowed(s, a)
    ensures JobWindows(Apply(c, s, a))
  {
  }
}
