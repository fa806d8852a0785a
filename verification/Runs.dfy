/** The run computed by engine.Sync is an execution of the protocol, so everything proved of
    executions holds of it and of each of its prefixes followed by a crash. */
module Runs {
  import opened Calendar
  import opened Model
  import opened Lists
  import opened StoreModel
  import opened Engine
  import opened Protocol
  import opened Safety

  function ConfOf(sync: string, env: Env, targets: seq<string>): Conf {
    Conf(sync, targets, env.hash)
  }

  /** The source keeps its promise for a cursor: it fails, answers an empty window, or covers what it held when
      the clock was read. */
  ghost predicate Honest(env: Env, ledger: seq<WatchItem>, since: Instant) {
    match env.history(since)
    case Err => true
    case Ok(items) => items == [] || Covers(env.hash, items, ledger, since, env.now)
  }

  /** It even answers with the ledger in order, some entries dated before the cursor left out. */
  ghost predicate Ordered(env: Env, ledger: seq<WatchItem>, since: Instant) {
    match env.history(since) case Err => true case Ok(items) => items == [] || Window(items, ledger, since)
  }

  lemma OrderedIsHonest(env: Env, ledger: seq<WatchItem>, since: Instant)
    requires Ordered(env, ledger, since)
    ensures Honest(env, ledger, since)
  {
    if env.history(since).Ok? && env.history(since).value != [] {
      WindowCovers(env.hash, env.history(since).value, ledger, since, env.now);
    }
  }

  /** Actions that are no answer of the source. */
  predicate Silent(acts: seq<Action>) {
    forall a :: a in acts ==> !a.Receive?
  }

  lemma {:induction false} SilentReads(c: Conf, s: Sys, acts: seq<Action>, rest: seq<Action>)
    requires Silent(rest)
    ensures ReadsCover(c, s, acts) ==> ReadsCover(c, s, acts + rest)
    ensures ReadsWindows(c, s, acts) ==> ReadsWindows(c, s, acts + rest)
  {
    if rest == [] {
      assert acts + rest == acts;
    } else {
      assert rest == Init(rest) + [Last(rest)];
      SilentReads(c, s, acts, Init(rest));
      assert Init(acts + rest) == acts + Init(rest);
    }
  }

  ghost function LogReports(c: Conf, env: Env, log: seq<PushEvent>): set<Report> {
    if log == [] then {}
    else LogReports(c, env, Init(log)) + EventReports(c, env, Last(log))
  }

  ghost function EventReports(c: Conf, env: Env, e: PushEvent): set<Report> {
    if e.target < |c.targets|
    then set it | it in env.push(e.target, e.items).delivered :: Report(c.targets[e.target], it)
    else {}
  }

  lemma {:induction false} DiffExec(c: Conf, s: Sys, job: Job, n: nat) returns (acts: seq<Action>)
    requires job.next < |c.targets| && n <= |job.items|
    requires s.phase == AtTarget(job)
    ensures Silent(acts)
    ensures Exec(c, s, acts)
            == s.(phase := Diffing(job, Fresh(s.db, c.LaneAt(job.next), job.items[..n]), n))
  {
    if n == 0 {
      acts := [Proceed];
      assert Exec(c, s, Init(acts)) == s;
    } else {
      var earlier := DiffExec(c, s, job, n - 1);
      acts := earlier + [Proceed];
      assert Init(acts) == earlier;
      assert Init(job.items[..n]) == job.items[..n - 1];
    }
  }

  /** The state after the first n deliveries of the target being marked were written. */
  ghost function MarkState(c: Conf, s: Sys, n: nat, mark: (nat, nat) -> WriteAnswer): Sys
    requires s.phase.Marking? && s.phase.job.next < |c.targets| && n <= |s.phase.delivered|
  {
    var i := s.phase.job.next;
    s.(db := MarkAll(s.db, c.LaneAt(i), i, s.phase.delivered[..n], mark),
       phase := s.phase.(done := n, acked := AllAcked(i, n, mark)))
  }

  lemma MarkStep(c: Conf, s: Sys, n: nat, mark: (nat, nat) -> WriteAnswer)
    requires s.phase.Marking? && s.phase.job.next < |c.targets| && n < |s.phase.delivered|
    ensures Apply(c, MarkState(c, s, n, mark), Write(mark(s.phase.job.next, n))) == MarkState(c, s, n + 1, mark)
  {
    MarkAllNext(s.db, c.LaneAt(s.phase.job.next), s.phase.job.next, s.phase.delivered, n, mark);
  }

  lemma {:induction false} MarkExec(c: Conf, s: Sys, n: nat, mark: (nat, nat) -> WriteAnswer) returns (acts: seq<Action>)
    requires s.phase.Marking? && s.phase.done == 0 && s.phase.acked && n <= |s.phase.delivered|
    requires s.phase.job.next < |c.targets|
    ensures Silent(acts)
    ensures Exec(c, s, acts) == MarkState(c, s, n, mark)
  {
    if n == 0 {
      acts := [];
    } else {
      var earlier := MarkExec(c, s, n - 1, mark);
      var w := Write(mark(s.phase.job.next, n - 1));
      acts := earlier + [w];
      ExecSnoc(c, s, earlier, w);
      MarkStep(c, s, n - 1, mark);
    }
  }

  lemma ExecSnoc(c: Conf, s: Sys, acts: seq<Action>, a: Action)
    ensures Exec(c, s, acts + [a]) == Apply(c, Exec(c, s, acts), a)
  {
    assert Init(acts + [a]) == acts;
  }

  /** The target is asked about every item and, if it misses any, is about to be offered them. */
  lemma AskExec(c: Conf, s: Sys, job: Job) returns (acts: seq<Action>)
    requires s.phase == AtTarget(job) && job.next < |c.targets|
    ensures Silent(acts)
    ensures var missing := Fresh(s.db, c.LaneAt(job.next), job.items);
            Exec(c, s, acts) == s.(phase := if missing == [] then AtTarget(job.(next := job.next + 1))
                                            else Pushing(job, missing))
  {
    var diff := DiffExec(c, s, job, |job.items|);
    assert job.items[..|job.items|] == job.items;
    acts := diff + [Proceed];
    ExecSnoc(c, s, diff, Proceed);
  }

  /** The offer is answered and every delivered item is marked, or its write fails. */
  lemma OfferExec(c: Conf, s: Sys, job: Job, missing: seq<WatchItem>, reply: PushReply, mark: (nat, nat) -> WriteAnswer)
    returns (acts: seq<Action>)
    requires s.phase == Pushing(job, missing) && job.next < |c.targets| && Subseq(reply.delivered, missing)
    ensures Silent(acts)
    ensures var i, n := job.next, |reply.delivered|;
            Exec(c, s, acts)
            == s.(db := MarkAll(s.db, c.LaneAt(i), i, reply.delivered, mark),
                  reports := s.reports + (set it | it in reply.delivered :: Report(c.targets[i], it)),
                  phase := AtTarget(job.(next := i + 1, anyFresh := true,
                    allOK := job.allOK && !reply.failed && AllAcked(i, n, mark) && n == |missing|)))
  {
    ExecOne(c, s, Deliver(reply));
    var m := ApplyDeliver(c, s, job, reply);
    var rest := MarkOutExec(c, m, mark);
    acts := [Deliver(reply)] + rest;
    ExecConcat(c, s, [Deliver(reply)], rest);
  }

  lemma ExecOne(c: Conf, s: Sys, a: Action)
    ensures Exec(c, s, [a]) == Apply(c, s, a)
  {
    var none: seq<Action> := [];
    assert none + [a] == [a];
    ExecSnoc(c, s, none, a);
  }

  lemma MarkOutExec(c: Conf, s: Sys, mark: (nat, nat) -> WriteAnswer) returns (acts: seq<Action>)
    requires s.phase.Marking? && s.phase.done == 0 && s.phase.acked && s.phase.job.next < |c.targets|
    ensures Silent(acts)
    ensures var job, delivered := s.phase.job, s.phase.delivered;
            Exec(c, s, acts)
            == s.(db := MarkAll(s.db, c.LaneAt(job.next), job.next, delivered, mark),
                  phase := AtTarget(job.(next := job.next + 1,
                    allOK := job.allOK && AllAcked(job.next, |delivered|, mark) && |delivered| == |s.phase.missing|)))
  {
    var delivered := s.phase.delivered;
    var marks := MarkExec(c, s, |delivered|, mark);
    assert delivered[..|delivered|] == delivered;
    acts := marks + [Proceed];
    ExecSnoc(c, s, marks, Proceed);
  }

  /** One target served. */
  lemma ServeExec(c: Conf, s: Sys, job: Job, env: Env, p: Fan) returns (acts: seq<Action>)
    requires s.phase == AtTarget(job) && job.next < |c.targets|
    requires p.db == s.db && job.anyFresh == p.anyFresh && job.allOK == p.allOK && !p.aborted
    requires PushContract(env) && AllSeenUp(env, job.next, |job.items|)
    ensures Silent(acts)
    ensures var q := ServeTarget(env, c.LaneAt(job.next), job.next, job.items, p);
            p.log <= q.log && !q.aborted
            && Exec(c, s, acts)
               == s.(db := q.db, reports := s.reports + LogReports(c, env, q.log[|p.log|..]),
                     phase := AtTarget(job.(next := job.next + 1, anyFresh := q.anyFresh, allOK := q.allOK)))
  {
    var i := job.next;
    acts := AskExec(c, s, job);
    var missing := Fresh(s.db, c.LaneAt(i), job.items);
    var q := ServeTarget(env, c.LaneAt(i), i, job.items, p);
    if missing == [] {
      assert q.log[|p.log|..] == [];
    } else {
      var offer := OfferExec(c, s.(phase := Pushing(job, missing)), job, missing, env.push(i, missing), env.mark);
      ExecConcat(c, s, acts, offer);
      acts := acts + offer;
      SingleEvent(c, env, PushEvent(i, missing));
      assert q.log[|p.log|..] == [PushEvent(i, missing)];
    }
  }

  lemma SingleEvent(c: Conf, env: Env, e: PushEvent)
    ensures LogReports(c, env, [e]) == EventReports(c, env, e)
  {
    assert Init([e]) == [];
  }

  lemma {:induction false} LogReportsConcat(c: Conf, env: Env, a: seq<PushEvent>, b: seq<PushEvent>)
    ensures LogReports(c, env, a + b) == LogReports(c, env, a) + LogReports(c, env, b)
  {
    if b == [] {
      assert a + b == a;
    } else {
      LogReportsConcat(c, env, a, Init(b));
      assert Init(a + b) == a + Init(b);
    }
  }

  ghost function FanState(s: Sys, job: Job, c: Conf, env: Env, f: Fan, n: nat): Sys {
    s.(db := f.db, reports := s.reports + LogReports(c, env, f.log),
       phase := AtTarget(job.(next := n, anyFresh := f.anyFresh, allOK := f.allOK)))
  }

  /** Where the execution stands when the fan-out f has passed n targets. */
  ghost function FanEnd(s: Sys, job: Job, c: Conf, env: Env, f: Fan, n: nat): Sys {
    if f.aborted then FanState(s, job, c, env, f, n).(phase := Idle) else FanState(s, job, c, env, f, n)
  }

  lemma {:induction false} FanExec(c: Conf, s: Sys, job: Job, env: Env, n: nat) returns (acts: seq<Action>)
    requires s.phase == AtTarget(job) && job.next == 0 && !job.anyFresh && job.allOK
    requires n <= |c.targets| && env.hash == c.hash && PushContract(env)
    ensures Silent(acts)
    ensures Exec(c, s, acts) == FanEnd(s, job, c, env, FanOut(c.sync, env, c.targets, job.items, s.db, n), n)
  {
    if n == 0 {
      acts := [];
      FanNone(c, s, job, env);
    } else {
      var earlier := FanExec(c, s, job, env, n - 1);
      var p := FanOut(c.sync, env, c.targets, job.items, s.db, n - 1);
      FanOutNext(c.sync, env, c.targets, job.items, s.db, n - 1);
      acts := FanMore(c, s, job, env, p, n - 1, earlier);
    }
  }

  lemma FanNone(c: Conf, s: Sys, job: Job, env: Env)
    requires s.phase == AtTarget(job) && job.next == 0 && !job.anyFresh && job.allOK
    ensures Exec(c, s, []) == FanEnd(s, job, c, env, Fan(s.db, [], false, true, false, []), 0)
  {
    var none: seq<PushEvent> := [];
    assert s.reports + LogReports(c, env, none) == s.reports;
  }

  lemma FanMore(c: Conf, s: Sys, job: Job, env: Env, p: Fan, n: nat, earlier: seq<Action>) returns (acts: seq<Action>)
    requires n < |c.targets| && env.hash == c.hash && PushContract(env)
    requires Silent(earlier) && Exec(c, s, earlier) == FanEnd(s, job, c, env, p, n)
    ensures Silent(acts)
    ensures var q := if p.aborted then p else ServeTarget(env, LaneOf(c.sync, env, c.targets, n), n, job.items, p);
            Exec(c, s, acts) == FanEnd(s, job, c, env, q, n + 1)
  {
    acts := earlier;
    if !p.aborted {
      var more := FanNext(c, s, job, env, p, n);
      ExecConcat(c, s, earlier, more);
      acts := earlier + more;
    }
  }

  lemma FanNext(c: Conf, s: Sys, job: Job, env: Env, p: Fan, n: nat) returns (acts: seq<Action>)
    requires n < |c.targets| && env.hash == c.hash && PushContract(env) && !p.aborted
    ensures Silent(acts)
    ensures Exec(c, FanState(s, job, c, env, p, n), acts)
            == FanEnd(s, job, c, env, ServeTarget(env, LaneOf(c.sync, env, c.targets, n), n, job.items, p), n + 1)
  {
    if AllSeenUp(env, n, |job.items|) {
      acts := FanStep(c, s, job, env, p, n);
    } else {
      acts := [Die];
      ExecOne(c, FanState(s, job, c, env, p, n), Die);
    }
  }

  lemma FanStep(c: Conf, s: Sys, job: Job, env: Env, p: Fan, n: nat) returns (acts: seq<Action>)
    requires n < |c.targets| && PushContract(env) && AllSeenUp(env, n, |job.items|) && !p.aborted
    ensures Silent(acts)
    ensures var q := ServeTarget(env, c.LaneAt(n), n, job.items, p);
            !q.aborted && Exec(c, FanState(s, job, c, env, p, n), acts) == FanState(s, job, c, env, q, n + 1)
  {
    var s1 := FanState(s, job, c, env, p, n);
    acts := ServeExec(c, s1, s1.phase.job, env, p);
    FanStateNext(s, job, c, env, p, ServeTarget(env, c.LaneAt(n), n, job.items, p), n + 1);
  }

  lemma FanStateNext(s: Sys, job: Job, c: Conf, env: Env, p: Fan, q: Fan, n: nat)
    requires 0 < n && p.log <= q.log
    ensures var s1 := FanState(s, job, c, env, p, n - 1);
            s1.(db := q.db, reports := s1.reports + LogReports(c, env, q.log[|p.log|..]),
                phase := AtTarget(s1.phase.job.(next := n, anyFresh := q.anyFresh, allOK := q.allOK)))
            == FanState(s, job, c, env, q, n)
  {
    LogReportsConcat(c, env, p.log, q.log[|p.log|..]);
    assert p.log + q.log[|p.log|..] == q.log;
  }

  /** The fan-out over a window in hand, and the end of the run. */
  lemma WindowExec(c: Conf, s: Sys, job: Job, env: Env) returns (acts: seq<Action>)
    requires s.phase == AtTarget(job) && job.next == 0 && !job.anyFresh && job.allOK && job.windowEnd == env.now
    requires env.hash == c.hash && PushContract(env)
    ensures Silent(acts)
    ensures var run := Conclude(c.sync, env, FanOut(c.sync, env, c.targets, job.items, s.db, |c.targets|));
            Exec(c, s, acts) == s.(db := run.db, reports := s.reports + LogReports(c, env, run.log), phase := Idle)
  {
    var fan := FanExec(c, s, job, env, |c.targets|);
    var f := FanOut(c.sync, env, c.targets, job.items, s.db, |c.targets|);
    var finish := ConcludeExec(c, s, job, env, f);
    acts := fan + finish;
    ExecConcat(c, s, fan, finish);
  }

  lemma ConcludeExec(c: Conf, s: Sys, job: Job, env: Env, f: Fan) returns (finish: seq<Action>)
    requires job.windowEnd == env.now
    ensures Silent(finish)
    ensures var run := Conclude(c.sync, env, f);
            Exec(c, FanEnd(s, job, c, env, f, |c.targets|), finish)
            == s.(db := run.db, reports := s.reports + LogReports(c, env, run.log), phase := Idle)
  {
    finish := if f.aborted then [] else if f.anyFresh && f.allOK then [Write(env.cursorWrite)] else [Proceed];
    FinishExec(c, FanEnd(s, job, c, env, f, |c.targets|), finish);
  }

  /** Every run of Sync is an execution: it takes the idle system to the idle system holding exactly the store Sync
      leaves and the deliveries its targets reported. Its reads cover what the source holds, or are windows of it,
      if the source's answer is one. */
  lemma SyncIsExecution(sync: string, env: Env, targets: seq<string>, s: Sys) returns (acts: seq<Action>)
    requires s.phase.Idle? && s.clock == env.now && PushContract(env)
    ensures var c := ConfOf(sync, env, targets);
            var run := SyncRun(sync, env, targets, s.db);
            Exec(c, s, acts) == s.(db := run.db, reports := s.reports + LogReports(c, env, run.log))
    ensures Honest(env, s.ledger, CursorOf(s.db, sync)) ==> ReadsCover(ConfOf(sync, env, targets), s, acts)
    ensures Ordered(env, s.ledger, CursorOf(s.db, sync)) ==> ReadsWindows(ConfOf(sync, env, targets), s, acts)
  {
    var c := ConfOf(sync, env, targets);
    var since := CursorOf(s.db, sync);
    var history := env.history(since);
    acts := [];
    if env.cursorUp && history.Ok? {
      var items := history.value;
      var start := [Proceed, Proceed, Receive(items)];
      var job := Job(since, env.now, items, s.ledger, 0, false, true);
      StartExec(c, s, items);
      var rest := WindowExec(c, s.(phase := AtTarget(job)), job, env);
      acts := start + rest;
      ExecConcat(c, s, start, rest);
      SilentReads(c, s, start, rest);
    }
  }

  lemma StartExec(c: Conf, s: Sys, items: seq<WatchItem>)
    requires s.phase.Idle?
    ensures var start, since := [Proceed, Proceed, Receive(items)], CursorOf(s.db, c.sync);
      && Exec(c, s, start) == s.(phase := AtTarget(Job(since, s.clock, items, s.ledger, 0, false, true)))
      && (items == [] || Covers(c.hash, items, s.ledger, since, s.clock) ==> ReadsCover(c, s, start))
      && (items == [] || Window(items, s.ledger, since) ==> ReadsWindows(c, s, start))
  {
    var none: seq<Action> := [];
    ExecSnoc(c, s, none, Proceed);
    ExecSnoc(c, s, none + [Proceed], Proceed);
    ExecSnoc(c, s, none + [Proceed] + [Proceed], Receive(items));
    SilentReads(c, s, none, [Proceed, Proceed]);
    var two, start := [Proceed, Proceed], [Proceed, Proceed, Receive(items)];
    assert none + [Proceed] + [Proceed] == two == none + two && two + [Receive(items)] == start;
    assert Init(start) == two;
  }

  lemma FinishExec(c: Conf, s: Sys, finish: seq<Action>)
    requires |finish| <= 1
    ensures Exec(c, s, finish) == if finish == [] then s else Apply(c, s, finish[0])
  {
    if finish != [] {
      assert finish == [finish[0]];
      ExecOne(c, s, finish[0]);
    }
  }
}
