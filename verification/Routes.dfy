/** The way of an entry through a wired run: from the service its source names to those its targets name. */
module Routes {
  import opened Calendar
  import opened Model
  import opened Lists
  import opened StoreModel
  import opened Engine
  import opened Laws
  import opened Outcomes
  import opened Watchmesh
  import Trakt
  import Simkl
  import Ryot
  import Yamtrack

  /** The service of this kind offers the item when it is asked from since; Yamtrack has no history. */
  ghost predicate Gives(kind: string, src: Source, since: Instant, it: WatchItem) {
    || (kind == "trakt" && Trakt.Offers(src.trakt, since, it))
    || (kind == "simkl" && Simkl.Offers(src.simkl, since, it))
    || (kind == "ryot" && Ryot.Offers(src.ryot, since, it))
  }

  /** The service of this kind can take the item, and what it answers does not exclude it. */
  ghost predicate Takes(kind: string, s: Services, i: nat, offer: seq<WatchItem>, it: WatchItem) {
    || (kind == "trakt" && s.trakt(i).Answered? && Trakt.Kept(it, s.trakt(i).notFound))
    || (kind == "simkl" && s.simkl(i).Answered? && Simkl.Kept(it, s.simkl(i).notFound))
    || (kind == "ryot" && exists k: nat, id :: k < |Ryot.Buckets(offer)| && Ryot.InBucket(it, Ryot.Buckets(offer)[k])
                                               && id != "" && Ryot.Found(s.ryot(i), k, it.ids.tmdb, id))
    || (kind == "yamtrack" && Yamtrack.CanSend(it))
  }

  /** What a list says of an item on offer: it holds nothing else, and everything under its hash. */
  ghost predicate Represents(list: seq<WatchItem>, hash: WatchItem -> string, offered: bool, it: WatchItem) {
    (it in list ==> offered) && (offered ==> exists x :: x in list && hash(x) == hash(it))
  }

  lemma MembersRepresent(list: seq<WatchItem>, hash: WatchItem -> string, offered: bool, it: WatchItem)
    requires it in list <==> offered
    ensures Represents(list, hash, offered, it)
  {
  }

  lemma TraktGives(f: Trakt.Feed, hash: WatchItem -> string, since: Instant, it: WatchItem)
    requires Trakt.HistoryAnswer(f, since).Ok?
    ensures Represents(Trakt.HistoryAnswer(f, since).value, hash, Trakt.Offers(f, since, it), it)
  {
    Trakt.HistoryLists(f, since, it);
    MembersRepresent(Trakt.HistoryAnswer(f, since).value, hash, Trakt.Offers(f, since, it), it);
  }

  lemma SimklGives(sv: Simkl.Service, hash: WatchItem -> string, since: Instant, it: WatchItem)
    requires Simkl.HistoryAnswer(sv, since, hash).Ok?
    ensures Represents(Simkl.HistoryAnswer(sv, since, hash).value, hash, Simkl.Offers(sv, since, it), it)
  {
    Simkl.ReadGives(sv, since, hash, it);
  }

  lemma RyotGives(l: Ryot.Library, hash: WatchItem -> string, since: Instant, it: WatchItem)
    ensures Represents(Ryot.HistoryAnswer(l, since), hash, Ryot.Offers(l, since, it), it)
  {
    Ryot.HistoryLists(l, since, it);
    MembersRepresent(Ryot.HistoryAnswer(l, since), hash, Ryot.Offers(l, since, it), it);
  }

  /** A source lists only what the service of its kind offers, and everything it offers under its hash. */
  lemma SourceGives(kind: string, src: Source, hash: WatchItem -> string, since: Instant, it: WatchItem)
    requires SourceAnswer(kind, src, hash, since).Ok?
    ensures Represents(SourceAnswer(kind, src, hash, since).value, hash, Gives(kind, src, since, it), it)
  {
    if kind == "trakt" {
      TraktGives(src.trakt, hash, since, it);
    } else if kind == "simkl" {
      SimklGives(src.simkl, hash, since, it);
    } else if kind == "ryot" {
      RyotGives(src.ryot, hash, since, it);
    } else {
      MembersRepresent([], hash, false, it);
    }
  }

  /** A target reports delivered only what was offered and its service takes, and all of that if it reports no
      failure. */
  lemma TargetTakes(kind: string, s: Services, i: nat, offer: seq<WatchItem>, it: WatchItem)
    ensures var r := ServiceReply(kind, s, i, offer);
      && (it in r.delivered ==> it in offer && Takes(kind, s, i, offer, it))
      && (!r.failed && it in offer && Takes(kind, s, i, offer, it) ==> it in r.delivered)
  {
    ConnectorKeepsContract(kind, s, i, offer);
    if it in ServiceReply(kind, s, i, offer).delivered {
      SubseqMember(ServiceReply(kind, s, i, offer).delivered, offer, it);
    }
    if kind == "trakt" {
      Trakt.ReplyKeepsContract(offer, s.trakt(i), it);
      SameMembers(Trakt.Reply(offer, s.trakt(i)).delivered, offer, it);
    } else if kind == "simkl" {
      Simkl.ReplyKeepsContract(offer, s.simkl(i), it);
      SameMembers(Simkl.Reply(offer, s.simkl(i)).delivered, offer, it);
    } else if kind == "ryot" {
      RyotTakes(s.ryot(i), offer, it);
    } else if kind == "yamtrack" {
      YamtrackTakes(s.yamtrack(i), offer, it);
    }
  }

  lemma SameMembers(a: seq<WatchItem>, b: seq<WatchItem>, it: WatchItem)
    ensures it in a <==> multiset(a)[it] > 0
    ensures it in b <==> multiset(b)[it] > 0
  {
  }

  lemma RyotTakes(w: Ryot.World, offer: seq<WatchItem>, it: WatchItem)
    ensures var r, order := Ryot.Reply(offer, w), Ryot.Buckets(offer);
      var taken := exists k: nat, id ::
        k < |order| && Ryot.InBucket(it, order[k]) && id != "" && Ryot.Found(w, k, it.ids.tmdb, id);
      && (it in r.delivered ==> taken)
      && (!r.failed && it in offer && taken ==> it in r.delivered)
  {
    var order := Ryot.Buckets(offer);
    var ids := Ryot.Resolved(order, w, |order|);
    Ryot.ReplyKeepsContract(offer, w);
    SelectMember(offer, (x: WatchItem) => Ryot.Ready(x, ids), it);
    if it in offer {
      Ryot.ReadyExactly(offer, w, it);
    }
  }

  lemma YamtrackTakes(post: nat -> bool, offer: seq<WatchItem>, it: WatchItem)
    ensures var r := Yamtrack.Reply(offer, post);
      && (it in r.delivered ==> Yamtrack.CanSend(it))
      && (!r.failed && it in offer && Yamtrack.CanSend(it) ==> it in r.delivered)
  {
    Yamtrack.ReplyKeepsContract(offer, post);
    Yamtrack.PayloadSays(it);
    SelectMember(offer, Yamtrack.Sendable, it);
  }

  /** A run whose window represents what a source offers offers a target what the source does and it has no row for. */
  lemma OfferOf(sync: string, w: Env, targets: seq<string>, db: Db, items: seq<WatchItem>, i: nat, given: bool,
      it: WatchItem)
    requires Reads(sync, w, db, items) && AllUp(w, i + 1, items) && Distinct(targets) && i < |targets|
    requires Represents(items, w.hash, given, it)
    ensures var lane, offer := LaneOf(sync, w, targets, i), OfferedTo(SyncRun(sync, w, targets, db).log, i);
            Represents(offer, w.hash, given && !Marked(db, lane, it), it)
  {
    var lane := LaneOf(sync, w, targets, i);
    TargetOutcome(sync, w, targets, db, items, i);
    FreshMember(db, lane, items, it);
    if given && !Marked(db, lane, it) {
      var x :| x in items && w.hash(x) == w.hash(it);
      FreshMember(db, lane, items, x);
      assert lane.RowOf(x) == lane.RowOf(it);
    }
  }

  /** A row is new only if a delivered item has its hash. */
  lemma NewRowOf(sync: string, w: Env, targets: seq<string>, db: Db, items: seq<WatchItem>, i: nat, it: WatchItem)
    returns (x: WatchItem)
    requires Reads(sync, w, db, items) && AllUp(w, i + 1, items) && Distinct(targets) && i < |targets|
    requires !Marked(db, LaneOf(sync, w, targets, i), it)
    requires Marked(SyncRun(sync, w, targets, db).db, LaneOf(sync, w, targets, i), it)
    ensures w.hash(x) == w.hash(it) && x in w.push(i, OfferedTo(SyncRun(sync, w, targets, db).log, i)).delivered
  {
    var lane := LaneOf(sync, w, targets, i);
    MarkedAfterRun(sync, w, targets, db, items, i, it);
    TargetOutcome(sync, w, targets, db, items, i);
    var delivered := w.push(i, Fresh(db, lane, items)).delivered;
    MarkedAfter(db, lane, i, delivered, w.mark, it);
    var k: nat :| k < |delivered| && lane.hash(delivered[k]) == lane.hash(it);
    x := delivered[k];
  }

  /** A delivered item has a row if every write is applied. */
  lemma DeliveredHasRow(sync: string, w: Env, targets: seq<string>, db: Db, items: seq<WatchItem>, i: nat, x: WatchItem)
    requires Reads(sync, w, db, items) && AllUp(w, i + 1, items) && Distinct(targets) && i < |targets|
    requires var offer := OfferedTo(SyncRun(sync, w, targets, db).log, i); offer != [] && x in w.push(i, offer).delivered
    requires forall k: nat :: w.mark(i, k) != ErrDropped
    ensures Marked(SyncRun(sync, w, targets, db).db, LaneOf(sync, w, targets, i), x)
  {
    var lane := LaneOf(sync, w, targets, i);
    MarkedAfterRun(sync, w, targets, db, items, i, x);
    TargetOutcome(sync, w, targets, db, items, i);
    var delivered := w.push(i, Fresh(db, lane, items)).delivered;
    MarkedAfter(db, lane, i, delivered, w.mark, x);
    var k :| 0 <= k < |delivered| && delivered[k] == x;
    assert !w.mark(i, k).ErrDropped?;
  }

  lemma RowStays(sync: string, w: Env, targets: seq<string>, db: Db, items: seq<WatchItem>, i: nat, x: WatchItem)
    requires Reads(sync, w, db, items) && AllUp(w, i + 1, items) && Distinct(targets) && i < |targets|
    requires Marked(db, LaneOf(sync, w, targets, i), x)
    ensures Marked(SyncRun(sync, w, targets, db).db, LaneOf(sync, w, targets, i), x)
  {
    var lane := LaneOf(sync, w, targets, i);
    MarkedAfterRun(sync, w, targets, db, items, i, x);
    MarkedAfter(db, lane, i, w.push(i, Fresh(db, lane, items)).delivered, w.mark, x);
  }

  /** What the wired environment asks the services. */
  lemma WiredAsks(c: Config, def: SyncDef, s: Services, env: Env, since: Instant, i: nat, offer: seq<WatchItem>)
    ensures var w := Wired(c, def, s, env);
      && w.hash == env.hash && w.mark == env.mark
      && (def.source in c.connections ==>
            w.history(since) == SourceAnswer(c.connections[def.source].kind, s.source, env.hash, since))
      && (i < |def.targets| && def.targets[i] in c.connections ==>
            w.push(i, offer) == ServiceReply(c.connections[def.targets[i]].kind, s, i, offer))
  {
  }

  /** What a target of a wired run is offered: only what the service of the source offers and the target has no row
      for, and all of that under its hash. */
  lemma OfferWasGiven(c: Config, def: SyncDef, s: Services, env: Env, db: Db, items: seq<WatchItem>, i: nat,
      it: WatchItem)
    requires def.source in c.connections && Distinct(def.targets) && i < |def.targets|
    requires Reads(def.name, Wired(c, def, s, env), db, items) && AllUp(Wired(c, def, s, env), i + 1, items)
    ensures Represents(OfferedTo(SyncRun(def.name, Wired(c, def, s, env), def.targets, db).log, i), env.hash,
                       Gives(c.connections[def.source].kind, s.source, CursorOf(db, def.name), it)
                       && !Marked(db, Lane(def.name, def.targets[i], env.hash), it), it)
  {
    var w, kind := Wired(c, def, s, env), c.connections[def.source].kind;
    WiredAsks(c, def, s, env, CursorOf(db, def.name), i, items);
    SourceGives(kind, s.source, env.hash, CursorOf(db, def.name), it);
    OfferOf(def.name, w, def.targets, db, items, i, Gives(kind, s.source, CursorOf(db, def.name), it), it);
  }

  /** Every new row of a wired run has its entry: one with the row's hash that the service of the source offers and
      the service of the target takes. */
  lemma NewRowWasTaken(c: Config, def: SyncDef, s: Services, env: Env, db: Db, items: seq<WatchItem>, i: nat,
      it: WatchItem)
    returns (x: WatchItem)
    requires def.source in c.connections && Distinct(def.targets) && i < |def.targets| && def.targets[i] in c.connections
    requires Reads(def.name, Wired(c, def, s, env), db, items) && AllUp(Wired(c, def, s, env), i + 1, items)
    requires !Marked(db, Lane(def.name, def.targets[i], env.hash), it)
    requires Marked(SyncRun(def.name, Wired(c, def, s, env), def.targets, db).db, Lane(def.name, def.targets[i], env.hash), it)
    ensures env.hash(x) == env.hash(it)
    ensures Gives(c.connections[def.source].kind, s.source, CursorOf(db, def.name), x)
    ensures Takes(c.connections[def.targets[i]].kind, s, i,
                  OfferedTo(SyncRun(def.name, Wired(c, def, s, env), def.targets, db).log, i), x)
  {
    var w := Wired(c, def, s, env);
    var offer := OfferedTo(SyncRun(def.name, w, def.targets, db).log, i);
    WiredAsks(c, def, s, env, 0, i, offer);
    x := NewRowOf(def.name, w, def.targets, db, items, i, it);
    TargetTakes(c.connections[def.targets[i]].kind, s, i, offer, x);
    OfferWasGiven(c, def, s, env, db, items, i, x);
  }

  /** And the other way round: what the service of the source offers has a row afterwards if the push reports no
      failure, the target takes every item with its hash that it is offered, and every write is applied. */
  lemma TakenHasRow(c: Config, def: SyncDef, s: Services, env: Env, db: Db, items: seq<WatchItem>, i: nat, it: WatchItem)
    requires def.source in c.connections && Distinct(def.targets) && i < |def.targets| && def.targets[i] in c.connections
    requires Reads(def.name, Wired(c, def, s, env), db, items) && AllUp(Wired(c, def, s, env), i + 1, items)
    requires Gives(c.connections[def.source].kind, s.source, CursorOf(db, def.name), it)
    requires forall k: nat :: env.mark(i, k) != ErrDropped
    requires var offer := OfferedTo(SyncRun(def.name, Wired(c, def, s, env), def.targets, db).log, i);
      && (offer != [] ==> !Wired(c, def, s, env).push(i, offer).failed)
      && forall x :: x in offer && env.hash(x) == env.hash(it) ==> Takes(c.connections[def.targets[i]].kind, s, i, offer, x)
    ensures Marked(SyncRun(def.name, Wired(c, def, s, env), def.targets, db).db, Lane(def.name, def.targets[i], env.hash), it)
  {
    var w, lane := Wired(c, def, s, env), Lane(def.name, def.targets[i], env.hash);
    var offer := OfferedTo(SyncRun(def.name, w, def.targets, db).log, i);
    WiredAsks(c, def, s, env, 0, i, offer);
    if Marked(db, lane, it) {
      RowStays(def.name, w, def.targets, db, items, i, it);
    } else {
      OfferWasGiven(c, def, s, env, db, items, i, it);
      var x :| x in offer && env.hash(x) == env.hash(it);
      TargetTakes(c.connections[def.targets[i]].kind, s, i, offer, x);
      DeliveredHasRow(def.name, w, def.targets, db, items, i, x);
      assert lane.RowOf(x) == lane.RowOf(it);
    }
  }
}
