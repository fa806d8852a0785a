/** Configuration and wiring (internal/config/config.go, cmd/watchmesh/main.go): named connections become
    targets, named syncs become runs. */
module Watchmesh {
  import opened Calendar
  import opened Model
  import opened Lists
  import opened StoreModel
  import opened Engine
  import opened Options
  import opened Entries
  import opened Protocol
  import opened Runs
  import opened Fleets
  import opened Slices
  import Trakt
  import Simkl
  import Ryot
  import Yamtrack

  datatype Connection = Connection(kind: string)
  datatype SyncDef = SyncDef(name: string, source: string, targets: seq<string>)
  datatype Config = Config(connections: map<string, Connection>, syncs: seq<SyncDef>)

  // ---------- Validate ----------

  datatype Problem =
    EmptyName | Duplicate(name: string) | UnknownSource(sync: string, source: string) | UnknownTarget(sync: string, target: string)

  ghost predicate Resolves(c: Config, s: SyncDef) {
    s.source in c.connections && forall t :: t in s.targets ==> t in c.connections
  }

  ghost predicate Valid(c: Config) {
    && (forall i :: 0 <= i < |c.syncs| ==> c.syncs[i].name != "" && Resolves(c, c.syncs[i]))
    && (forall i, j :: 0 <= i < j < |c.syncs| ==> c.syncs[i].name != c.syncs[j].name)
  }

  /** The complaint is true of the configuration. */
  ghost predicate Justified(c: Config, p: Problem) {
    match p
    case EmptyName => exists s :: s in c.syncs && s.name == ""
    case Duplicate(n) => exists i, j :: 0 <= i < j < |c.syncs| && c.syncs[i].name == n == c.syncs[j].name
    case UnknownSource(n, src) => src !in c.connections && exists s :: s in c.syncs && s.name == n && s.source == src
    case UnknownTarget(n, t) => t !in c.connections && exists s :: s in c.syncs && s.name == n && t in s.targets
  }

  /** Accepts exactly the configurations with non-empty distinct sync names whose references resolve. */
  method Validate(c: Config) returns (r: Option<Problem>)
    ensures r.None? <==> Valid(c)
    ensures r.Some? ==> Justified(c, r.value)
  {
    var seen: set<string> := {};
    for i := 0 to |c.syncs|
      invariant seen == set k | 0 <= k < i :: c.syncs[k].name
      invariant forall k :: 0 <= k < i ==> c.syncs[k].name != "" && Resolves(c, c.syncs[k])
      invariant forall j, k :: 0 <= j < k < i ==> c.syncs[j].name != c.syncs[k].name
    {
      var s := c.syncs[i];
      assert s in c.syncs;
      if s.name == "" {
        return Some(EmptyName);
      }
      if s.name in seen {
        return Some(Duplicate(s.name));
      }
      seen := seen + {s.name};
      if s.source !in c.connections {
        return Some(UnknownSource(s.name, s.source));
      }
      for j := 0 to |s.targets|
        invariant forall k :: 0 <= k < j ==> s.targets[k] in c.connections
      {
        if s.targets[j] !in c.connections {
          assert s.targets[j] in s.targets && !Resolves(c, s);
          return Some(UnknownTarget(s.name, s.targets[j]));
        }
      }
      assert forall k :: 0 <= k < i ==> c.syncs[k].name in seen;
    }
    r := None;
  }

  // ---------- wire ----------

  predicate KnownKind(kind: string) {
    kind == "trakt" || kind == "simkl" || kind == "ryot" || kind == "yamtrack"
  }

  /** A server of each kind that history is read from. */
  datatype Source = Source(trakt: Trakt.Feed, simkl: Simkl.Service, ryot: Ryot.Library)

  /** What the services answer: the source when history is read, and target i of a run when it is pushed to. */
  datatype Services = Services(
    source: Source,
    trakt: nat -> Trakt.PostAnswer, simkl: nat -> Simkl.PostAnswer, ryot: nat -> Ryot.World, yamtrack: nat -> nat -> bool)

  /** Ryot swallows its failures; Yamtrack has no history. */
  function SourceAnswer(kind: string, src: Source, hash: WatchItem -> string, since: Instant): Answer<seq<WatchItem>> {
    if kind == "trakt" then Trakt.HistoryAnswer(src.trakt, since)
    else if kind == "simkl" then Simkl.HistoryAnswer(src.simkl, since, hash)
    else if kind == "ryot" then Ok(Ryot.HistoryAnswer(src.ryot, since))
    else if kind == "yamtrack" then Ok([])
    else Err
  }

  function ServiceReply(kind: string, s: Services, i: nat, items: seq<WatchItem>): PushReply {
    if kind == "trakt" then Trakt.Reply(items, s.trakt(i))
    else if kind == "simkl" then Simkl.Reply(items, s.simkl(i))
    else if kind == "ryot" then Ryot.Reply(items, s.ryot(i))
    else if kind == "yamtrack" then Yamtrack.Reply(items, s.yamtrack(i))
    else PushReply([], true)
  }

  /** The source and each target of a definition answer as their connections' connectors do. */
  function Wired(c: Config, def: SyncDef, s: Services, env: Env): Env {
    env.(history := (since: Instant) =>
           if def.source in c.connections
           then SourceAnswer(c.connections[def.source].kind, s.source, env.hash, since) else Err,
         push := (i: nat, items: seq<WatchItem>) =>
           if i < |def.targets| && def.targets[i] in c.connections
           then ServiceReply(c.connections[def.targets[i]].kind, s, i, items) else PushReply([], true))
  }

  /** Every connector keeps the Target contract on every path, so the engine's hypothesis holds of every wired run. */
  lemma WiredKeepsContract(c: Config, def: SyncDef, s: Services, env: Env)
    ensures PushContract(Wired(c, def, s, env))
  {
    var w := Wired(c, def, s, env);
    forall i: nat, items: seq<WatchItem> ensures Subseq(w.push(i, items).delivered, items) {
      if i < |def.targets| && def.targets[i] in c.connections {
        ConnectorKeepsContract(c.connections[def.targets[i]].kind, s, i, items);
      }
    }
  }

  lemma ConnectorKeepsContract(kind: string, s: Services, i: nat, items: seq<WatchItem>)
    ensures Subseq(ServiceReply(kind, s, i, items).delivered, items)
  {
    if kind == "trakt" {
      Trakt.AlwaysSubseq(items, s.trakt(i));
    } else if kind == "simkl" {
      Simkl.AlwaysSubseq(items, s.simkl(i));
    } else if kind == "ryot" {
      Ryot.ReplyKeepsContract(items, s.ryot(i));
    } else if kind == "yamtrack" {
      Yamtrack.ReplyKeepsContract(items, s.yamtrack(i));
    }
  }

  // ---------- runOne and runAll ----------

  /** The four kinds that have a connector. */
  ghost predicate HasConnector(kind: string) {
    kind in ["trakt", "simkl", "ryot", "yamtrack"]
  }

  /** The source and every target exist and have a connector. */
  ghost predicate Wirable(c: Config, def: SyncDef) {
    && def.source in c.connections && HasConnector(c.connections[def.source].kind)
    && forall t :: t in def.targets ==> t in c.connections && HasConnector(c.connections[t].kind)
  }

  datatype RunResult = UnknownSync | NotWired | Ran(errs: seq<SyncError>)

  /** The first definition with a name. */
  ghost predicate Defines(c: Config, name: string, i: nat) {
    i < |c.syncs| && c.syncs[i].name == name && forall j :: 0 <= j < i ==> c.syncs[j].name != name
  }

  ghost function RunOf(c: Config, def: SyncDef, s: Services, env: Env, db: Db): SyncResult {
    SyncRun(def.name, Wired(c, def, s, env), def.targets, db)
  }

  /** The target loop of runOne: every target is wired in turn until one cannot be. */
  method WireTargets(c: Config, targets: seq<string>) returns (ok: bool)
    ensures ok <==> forall t :: t in targets ==> t in c.connections && KnownKind(c.connections[t].kind)
  {
    for j := 0 to |targets|
      invariant forall k :: 0 <= k < j ==> targets[k] in c.connections && KnownKind(c.connections[targets[k]].kind)
    {
      var t := targets[j];
      if t !in c.connections || !KnownKind(c.connections[t].kind) {
        assert t in targets;
        return false;
      }
    }
    ok := true;
  }

  /** The search loop of runOne. */
  method FindSync(c: Config, name: string) returns (i: nat)
    ensures i < |c.syncs| ==> Defines(c, name, i)
    ensures i >= |c.syncs| ==> forall k: nat :: !Defines(c, name, k)
  {
    i := 0;
    while i < |c.syncs| && c.syncs[i].name != name
      invariant i <= |c.syncs| && forall j :: 0 <= j < i ==> c.syncs[j].name != name
    {
      i := i + 1;
    }
  }

  /** Wires a definition and runs it, or leaves the store alone if something it refers to cannot be wired. */
  method RunDef(c: Config, st: Store, def: SyncDef, s: Services, env: Env) returns (r: RunResult)
    modifies st
    ensures if Wirable(c, def)
            then var run := RunOf(c, def, s, env, old(st.View())); st.View() == run.db && r == Ran(run.errs)
            else st.View() == old(st.View()) && r == NotWired
  {
    if def.source !in c.connections || !KnownKind(c.connections[def.source].kind) {
      return NotWired;
    }
    var wired := WireTargets(c, def.targets);
    if !wired {
      return NotWired;
    }
    var errs, log := Sync(def.name, Wired(c, def, s, env), def.targets, st);
    r := Ran(errs);
  }

  lemma DefinesOnce(c: Config, name: string, i: nat, k: nat)
    requires Defines(c, name, i) && Defines(c, name, k)
    ensures i == k
  {
  }

  /** Runs the first definition with the given name if everything it refers to can be wired; otherwise the store
      is left alone. */
  method RunOne(c: Config, st: Store, name: string, s: Services, env: Env) returns (r: RunResult)
    modifies st
    ensures forall i: nat :: Defines(c, name, i) ==>
      if Wirable(c, c.syncs[i])
      then var run := RunOf(c, c.syncs[i], s, env, old(st.View())); st.View() == run.db && r == Ran(run.errs)
      else st.View() == old(st.View()) && r == NotWired
    ensures (forall i: nat :: !Defines(c, name, i)) ==> st.View() == old(st.View()) && r == UnknownSync
  {
    var i := FindSync(c, name);
    if i >= |c.syncs| {
      return UnknownSync;
    }
    r := RunDef(c, st, c.syncs[i], s, env);
    forall k: nat | Defines(c, name, k) ensures k == i {
      DefinesOnce(c, name, i, k);
    }
  }

  /** What running definition i alone makes of a store. */
  ghost function Alone(c: Config, s: nat -> Services, env: nat -> Env, i: nat, db: Db): Db
    requires i < |c.syncs|
  {
    if Wirable(c, c.syncs[i]) then RunOf(c, c.syncs[i], s(i), env(i), db).db else db
  }

  ghost function StepOf(c: Config, s: nat -> Services, env: nat -> Env): (Db, nat) -> Db {
    (db, i: nat) => if i < |c.syncs| then Alone(c, s, env, i, db) else db
  }

  /** Running the first n definitions one after another. */
  ghost function Pass(c: Config, s: nat -> Services, env: nat -> Env, db: Db, n: nat): Db {
    Iterate(StepOf(c, s, env), db, Counter(), n)
  }

  /** One pass over every configured sync, until the context is cancelled; failures are logged and skipped over. */
  method RunAll(c: Config, st: Store, s: nat -> Services, env: nat -> Env, cancelled: nat -> bool) returns (n: nat)
    requires Valid(c)
    modifies st
    ensures n <= |c.syncs| && st.View() == Pass(c, s, env, old(st.View()), n)
    ensures n < |c.syncs| ==> cancelled(n)
  {
    n := 0;
    while n < |c.syncs|
      invariant n <= |c.syncs| && st.View() == Pass(c, s, env, old(st.View()), n)
    {
      if cancelled(n) {
        return;
      }
      assert Defines(c, c.syncs[n].name, n);
      var r := RunOne(c, st, c.syncs[n].name, s(n), env(n));
      n := n + 1;
    }
  }

  /** Running one definition depends on its own slice of the store and touches no other. */
  lemma AloneSlice(c: Config, s: nat -> Services, env: nat -> Env, i: nat, a: Db, b: Db, name: string)
    requires i < |c.syncs|
    ensures name != c.syncs[i].name ==> SameSlice(Alone(c, s, env, i, a), a, name)
    ensures SameSlice(a, b, c.syncs[i].name) ==> SameSlice(Alone(c, s, env, i, a), Alone(c, s, env, i, b), c.syncs[i].name)
  {
    var def := c.syncs[i];
    if Wirable(c, def) {
      var w := Wired(c, def, s(i), env(i));
      if name != def.name {
        RunKeepsOtherSlices(def.name, w, def.targets, a, name);
      }
      if SameSlice(a, b, def.name) {
        RunDependsOnSlice(def.name, w, def.targets, a, b);
      }
    }
  }

  /** A pass changes nothing of a name it has not reached. */
  lemma PassKeepsOthers(c: Config, s: nat -> Services, env: nat -> Env, db: Db, n: nat, name: string)
    requires n <= |c.syncs| && forall i :: 0 <= i < n ==> c.syncs[i].name != name
    ensures SameSlice(Pass(c, s, env, db, n), db, name)
  {
    var step := StepOf(c, s, env);
    forall d, k: nat | k < n ensures SameSlice(step(d, k), d, name) {
      AloneSlice(c, s, env, k, d, d, name);
    }
    OthersKept(step, db, n, name);
  }

  /** Syncs are independent: a pass leaves each sync it reached with the cursor and rows it would have had if it
      had been the only one run, whatever the others did. */
  lemma SyncsIndependent(c: Config, s: nat -> Services, env: nat -> Env, db: Db, n: nat, i: nat)
    requires Valid(c) && i < n <= |c.syncs|
    ensures SameSlice(Pass(c, s, env, db, n), Alone(c, s, env, i, db), c.syncs[i].name)
  {
    var step, name := StepOf(c, s, env), c.syncs[i].name;
    forall d, k: nat | k < n && k != i ensures SameSlice(step(d, k), d, name) {
      AloneSlice(c, s, env, k, d, d, name);
    }
    forall a, b | SameSlice(a, b, name) ensures SameSlice(step(a, i), step(b, i), name) {
      AloneSlice(c, s, env, i, a, b, name);
    }
    OnlyOneCounts(step, db, n, i, name);
  }

  // ---------- no loss from source to rows ----------

  /** What a source holds, and how its lists stand while they are paged through. */
  datatype Holding =
    | OfTrakt(held: seq<WatchItem>, movieRows: nat -> seq<Trakt.HistoryRow>, episodeRows: nat -> seq<Trakt.HistoryRow>)
    | OfSimkl(lists: nat -> seq<seq<Simkl.ListEntry>>, changed: Simkl.ListEntry -> Instant)
    | OfRyot(held: seq<WatchItem>, movieIds: nat -> seq<string>, showIds: nat -> seq<string>)
    | OfNothing

  function LedgerOf(h: Holding, hash: WatchItem -> string): seq<WatchItem> {
    match h
    case OfTrakt(held, _, _) => held
    case OfSimkl(lists, changed) => Simkl.FullHistory(Simkl.Library(lists, hash, changed), |Simkl.CATEGORIES|)
    case OfRyot(held, _, _) => held
    case OfNothing => []
  }

  /** The server serves what it holds, as far as it answers: it lists, when it is first asked, every entry dated from
      since on and before until, and only gains entries at the front of its lists while they are read; no category
      that Simkl's activity times let be skipped alone holds an entry dated at since. */
  ghost predicate Complete(kind: string, src: Source, h: Holding, hash: WatchItem -> string, since: Instant,
      until: Instant) {
    match h
    case OfTrakt(held, movies, episodes) => kind == "trakt" && Trakt.Serves(src.trakt, since, until, held, movies, episodes)
    case OfSimkl(lists, changed) =>
      && kind == "simkl" && Simkl.Serves(src.simkl, lists, since, hash, changed)
      && Simkl.ElsewhereAtCursor(src.simkl.activity, since, Simkl.Library(lists, hash, changed), |Simkl.CATEGORIES|, hash)
    case OfRyot(held, movies, shows) => kind == "ryot" && Ryot.Serves(src.ryot, since, until, held, movies, shows)
    case OfNothing => kind == "yamtrack"
  }

  /** A wired source that serves what it holds keeps the engine's hypothesis, whatever requests fail, shift or repeat. */
  lemma WiredIsHonest(c: Config, def: SyncDef, s: Services, env: Env, h: Holding, since: Instant)
    requires def.source in c.connections && Complete(c.connections[def.source].kind, s.source, h, env.hash, since, env.now)
    ensures Honest(Wired(c, def, s, env), LedgerOf(h, env.hash), since)
  {
    match h
    case OfTrakt(held, movies, episodes) =>
      if Trakt.HistoryAnswer(s.source.trakt, since).Ok? {
        Trakt.HistoryCovers(s.source.trakt, since, env.now, env.hash, held, movies, episodes);
      }
    case OfSimkl(lists, changed) =>
      if Simkl.HistoryAnswer(s.source.simkl, since, env.hash).Ok? {
        Simkl.HistoryCovers(s.source.simkl, lists, since, env.now, env.hash, changed);
      }
    case OfRyot(held, movies, shows) => Ryot.HistoryCovers(s.source.ryot, since, env.now, env.hash, held, movies, shows);
    case OfNothing =>
  }

  /** Whatever a source answers, it lists movies and episodes only. */
  lemma AnswersListable(kind: string, src: Source, hash: WatchItem -> string, since: Instant)
    ensures var a := SourceAnswer(kind, src, hash, since); a.Ok? ==> forall it :: it in a.value ==> Listable(it)
  {
    if kind == "trakt" {
      Trakt.HistoryListable(src.trakt, since);
    } else if kind == "simkl" {
      Simkl.HistoryListable(src.simkl, since, hash);
    } else if kind == "ryot" {
      Ryot.HistoryListable(src.ryot, since);
    }
  }

  /** Every window received was read by a connector of this kind. */
  ghost predicate ReadBy(kind: string, hash: WatchItem -> string, acts: seq<Action>) {
    forall a :: a in acts && a.Receive? ==> exists src, since :: SourceAnswer(kind, src, hash, since) == Ok(a.items)
  }

  /** With the program's readers and a digest that tells apart what the key does, every movie and episode dated from
      the initial cursor on and before the present one was reported delivered, as that entry, by every target that
      had no row for it at the start. */
  lemma EveryReadEntryDelivered(kind: string, c: Conf, s0: Sys, acts: seq<Action>, it: WatchItem, i: nat)
    requires Start(c, s0) && ListableSys(s0) && CollisionFree(c.hash)
    requires ReadsCover(c, s0, acts) && ReadBy(kind, c.hash, acts)
    requires i < |c.targets| && Listable(it) && !Marked(s0.db, c.LaneAt(i), it) && !Before(it, CursorOf(s0.db, c.sync))
    requires var s := Exec(c, s0, acts); it in s.ledger && Before(it, CursorOf(s.db, c.sync))
    ensures exists rep :: rep in Exec(c, s0, acts).reports && rep.target == c.targets[i] && SameEntry(rep.item, it)
  {
    forall a | a in acts && a.Receive? ensures AllListable(a.items) {
      var src, since :| SourceAnswer(kind, src, c.hash, since) == Ok(a.items);
      AnswersListable(kind, src, c.hash, since);
    }
    EveryEntryDelivered(c, s0, acts, it, i);
  }

  /** One definition run after run, each time with its own services. */
  ghost function AllWired(c: Config, def: SyncDef, ss: seq<Services>, envs: seq<Env>): (w: seq<Env>)
    requires |ss| == |envs|
    ensures |w| == |envs|
  {
    if envs == [] then [] else AllWired(c, def, Init(ss), Init(envs)) + [Wired(c, def, Last(ss), Last(envs))]
  }

  ghost function Ledgers(hs: seq<Holding>, hash: WatchItem -> string): (l: seq<seq<WatchItem>>)
    ensures |l| == |hs|
  {
    if hs == [] then [] else Ledgers(Init(hs), hash) + [LedgerOf(Last(hs), hash)]
  }

  /** In every run the source serves what it holds; between runs the clock moves on and the source only gains
      entries dated no earlier than it. */
  ghost predicate Served(c: Config, def: SyncDef, ss: seq<Services>, envs: seq<Env>, hs: seq<Holding>,
      hash: WatchItem -> string, db: Db)
    requires def.source in c.connections
  {
    && |ss| == |envs| == |hs|
    && if envs == [] then true else
         var before := After(def.name, def.targets, AllWired(c, def, Init(ss), Init(envs)), db);
         && Served(c, def, Init(ss), Init(envs), Init(hs), hash, db)
         && Last(envs).hash == hash
         && Complete(c.connections[def.source].kind, Last(ss).source, Last(hs), hash, CursorOf(before, def.name), Last(envs).now)
         && (Init(envs) != [] ==> Last(Init(envs)).now <= Last(envs).now
                                  && Extends(LedgerOf(Last(Init(hs)), hash), LedgerOf(Last(hs), hash), Last(Init(envs)).now))
  }

  lemma {:induction false} ServedIsTimeline(c: Config, def: SyncDef, ss: seq<Services>, envs: seq<Env>, hs: seq<Holding>,
                                            hash: WatchItem -> string, db: Db)
    requires def.source in c.connections && Served(c, def, ss, envs, hs, hash, db)
    ensures Timeline(def.name, def.targets, Ledgers(hs, hash), AllWired(c, def, ss, envs), db, false)
  {
    if envs != [] {
      ServedIsTimeline(c, def, Init(ss), Init(envs), Init(hs), hash, db);
      ServedNext(c, def, ss, envs, hs, hash, db);
      TimelineSnoc(def.name, def.targets, Ledgers(Init(hs), hash), AllWired(c, def, Init(ss), Init(envs)), db,
                   LedgerOf(Last(hs), hash), Wired(c, def, Last(ss), Last(envs)));
    }
  }

  /** What the last of the runs served adds to the earlier ones. */
  lemma ServedNext(c: Config, def: SyncDef, ss: seq<Services>, envs: seq<Env>, hs: seq<Holding>,
                   hash: WatchItem -> string, db: Db)
    requires def.source in c.connections && Served(c, def, ss, envs, hs, hash, db) && envs != []
    ensures NextRun(def.name, def.targets, Ledgers(Init(hs), hash), AllWired(c, def, Init(ss), Init(envs)), db,
                    LedgerOf(Last(hs), hash), Wired(c, def, Last(ss), Last(envs)))
  {
    var earlier := AllWired(c, def, Init(ss), Init(envs));
    WiredKeepsContract(c, def, Last(ss), Last(envs));
    WiredIsHonest(c, def, Last(ss), Last(envs), Last(hs), CursorOf(After(def.name, def.targets, earlier, db), def.name));
    if Init(envs) != [] {
      LastWired(c, def, Init(ss), Init(envs), Init(hs), hash, db);
    }
  }

  lemma LastWired(c: Config, def: SyncDef, ss: seq<Services>, envs: seq<Env>, hs: seq<Holding>,
                  hash: WatchItem -> string, db: Db)
    requires def.source in c.connections && Served(c, def, ss, envs, hs, hash, db) && envs != []
    ensures Last(AllWired(c, def, ss, envs)).now == Last(envs).now && Last(AllWired(c, def, ss, envs)).hash == hash
    ensures Last(Ledgers(hs, hash)) == LedgerOf(Last(hs), hash)
  {
  }

  /** From source to rows: a definition run any number of times with the connectors it names, whatever fails, shifts
      or repeats, leaves a row for every target and every entry the source held that is dated before the cursor,
      from the floor on which the store was caught up at the start. */
  lemma WiredRunsLoseNothing(c: Config, def: SyncDef, ss: seq<Services>, envs: seq<Env>, hs: seq<Holding>,
                             hash: WatchItem -> string, db: Db, floor: Instant)
    requires def.source in c.connections && Served(c, def, ss, envs, hs, hash, db) && envs != []
    requires CursorOf(db, def.name) <= envs[0].now
    requires CaughtUp(Conf(def.name, def.targets, hash), db, LedgerOf(hs[0], hash), floor)
    ensures CaughtUp(Conf(def.name, def.targets, hash), After(def.name, def.targets, AllWired(c, def, ss, envs), db),
                     LedgerOf(Last(hs), hash), floor)
  {
    ServedIsTimeline(c, def, ss, envs, hs, hash, db);
    FirstWired(c, def, ss, envs, hs, hash, db);
    RunsLoseNothing(def.name, def.targets, Ledgers(hs, hash), AllWired(c, def, ss, envs), db, floor);
  }

  lemma {:induction false} FirstWired(c: Config, def: SyncDef, ss: seq<Services>, envs: seq<Env>, hs: seq<Holding>,
                                      hash: WatchItem -> string, db: Db)
    requires def.source in c.connections && Served(c, def, ss, envs, hs, hash, db) && envs != []
    ensures AllWired(c, def, ss, envs)[0].now == envs[0].now && AllWired(c, def, ss, envs)[0].hash == hash
    ensures Ledgers(hs, hash)[0] == LedgerOf(hs[0], hash)
  {
    if |envs| > 1 {
      FirstWired(c, def, Init(ss), Init(envs), Init(hs), hash, db);
    }
  }
}
