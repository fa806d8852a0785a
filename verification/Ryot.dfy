/** The Ryot connector: bucketed resolution and chunked deploy, and the batched history read
    (internal/ryot/ryot.go). */
module Ryot {
  import opened Text
  import opened Calendar
  import opened Model
  import opened Lists
  import opened StoreModel
  import opened Engine
  import opened Protocol
  import opened Options
  import opened Windows
  import Paging

  // ---------- resolution ----------

  /** One resolved search space: media lot and TMDB number. */
  datatype Bucket = Bucket(lot: string, tmdb: int)

  function PushLot(w: WatchItem): Option<string> {
    if w.mediaType == "movie" then if w.ids.tmdb != 0 then Some("MOVIE") else None
    else if w.mediaType == "episode" then
      if w.ids.tmdb != 0 && !(w.season == 0 && w.episode == 0) then Some("SHOW") else None
    else None
  }

  predicate Pushable(w: WatchItem) {
    PushLot(w).Some?
  }

  function BucketOf(w: WatchItem): Bucket
    requires Pushable(w)
  {
    Bucket(PushLot(w).value, w.ids.tmdb)
  }

  datatype Details = Details(identifier: string, source: string)

  /** A search answer, and the details answer for each candidate in turn. */
  datatype Lookup = Lookup(search: Answer<seq<string>>, details: nat -> Answer<Details>)

  /** The scan gets to candidate k: each one before it answered, and is not the TMDB entry of this very number. */
  ghost predicate Passes(l: Lookup, tmdb: int, k: nat) {
    && l.search.Ok? && k <= |l.search.value|
    && forall j: nat :: j < k ==>
         l.details(j).Ok? && (l.details(j).value.source != "TMDB" || l.details(j).value.identifier != Dec(tmdb))
  }

  /** And candidate k is that entry. */
  ghost predicate Hits(l: Lookup, tmdb: int, k: nat) {
    && Passes(l, tmdb, k) && k < |l.search.value|
    && l.details(k).Ok? && l.details(k).value.source == "TMDB" && l.details(k).value.identifier == Dec(tmdb)
  }

  /** The search does not answer, or the details of the candidate that the scan gets to do not. */
  ghost predicate Breaks(l: Lookup, tmdb: int) {
    l.search.Err? || exists k: nat :: Passes(l, tmdb, k) && k < |l.search.value| && l.details(k).Err?
  }

  /** The first strict match wins; an empty id means that every candidate answered and none matches; an error is an
      answer that never came. */
  ghost predicate Settles(l: Lookup, tmdb: int, r: Answer<string>) {
    && (r.Err? <==> Breaks(l, tmdb))
    && (r.Ok? ==> Passes(l, tmdb, |l.search.value|) || exists k: nat :: Hits(l, tmdb, k))
    && (l.search.Ok? && Passes(l, tmdb, |l.search.value|) ==> r == Ok(""))
    && (forall k: nat :: Hits(l, tmdb, k) ==> r == Ok(l.search.value[k]))
  }

  /** The scan stops at one candidate only. */
  lemma StopsOnce(l: Lookup, tmdb: int, i: nat, k: nat)
    requires Passes(l, tmdb, i) && Passes(l, tmdb, k) && k < |l.search.value|
    requires Hits(l, tmdb, k) || l.details(k).Err?
    ensures i <= k && (i < k ==> !Hits(l, tmdb, i) && l.details(i).Ok?)
  {
  }

  lemma HitSettles(l: Lookup, tmdb: int, k: nat)
    requires Hits(l, tmdb, k)
    ensures Settles(l, tmdb, Ok(l.search.value[k]))
  {
    forall i: nat | Passes(l, tmdb, i) ensures i <= k && (i < k ==> !Hits(l, tmdb, i) && l.details(i).Ok?) {
      StopsOnce(l, tmdb, i, k);
    }
  }

  lemma BreakSettles(l: Lookup, tmdb: int, k: nat)
    requires Passes(l, tmdb, k) && k < |l.search.value| && l.details(k).Err?
    ensures Settles(l, tmdb, Err)
  {
    forall i: nat | Passes(l, tmdb, i) ensures i <= k && (i < k ==> !Hits(l, tmdb, i)) {
      StopsOnce(l, tmdb, i, k);
    }
  }

  lemma EndSettles(l: Lookup, tmdb: int)
    requires l.search.Ok? && Passes(l, tmdb, |l.search.value|)
    ensures Settles(l, tmdb, Ok(""))
  {
  }

  method Resolve(tmdb: int, l: Lookup) returns (r: Answer<string>)
    ensures r == Resolution(l, tmdb)
    ensures Settles(l, tmdb, r)
  {
    ResolutionSettles(l, tmdb);
    if l.search.Err? {
      return Err;
    }
    var ids := l.search.value;
    for k := 0 to |ids|
      invariant Resolution(l, tmdb) == ResolutionFrom(l, tmdb, k)
    {
      var d := l.details(k);
      if d.Err? {
        return Err;
      }
      if d.value.source == "TMDB" && d.value.identifier == Dec(tmdb) {
        return Ok(ids[k]);
      }
    }
    r := Ok("");
  }

  lemma ResolutionSettles(l: Lookup, tmdb: int)
    ensures Settles(l, tmdb, Resolution(l, tmdb))
  {
    if l.search.Ok? {
      ScanSettles(l, tmdb, 0);
    }
  }

  lemma {:induction false} ScanSettles(l: Lookup, tmdb: int, k: nat)
    requires Passes(l, tmdb, k)
    ensures Settles(l, tmdb, ResolutionFrom(l, tmdb, k))
    decreases |l.search.value| - k
  {
    if k == |l.search.value| {
      EndSettles(l, tmdb);
    } else if l.details(k).Err? {
      BreakSettles(l, tmdb, k);
    } else if Hits(l, tmdb, k) {
      HitSettles(l, tmdb, k);
    } else {
      ScanSettles(l, tmdb, k + 1);
    }
  }

  function Resolution(l: Lookup, tmdb: int): Answer<string> {
    if l.search.Err? then Err else ResolutionFrom(l, tmdb, 0)
  }

  function ResolutionFrom(l: Lookup, tmdb: int, k: nat): Answer<string>
    requires l.search.Ok? && k <= |l.search.value|
    decreases |l.search.value| - k
  {
    if k == |l.search.value| then Ok("")
    else match l.details(k)
      case Err => Err
      case Ok(d) =>
        if d.source == "TMDB" && d.identifier == Dec(tmdb) then Ok(l.search.value[k])
        else ResolutionFrom(l, tmdb, k + 1)
  }

  // ---------- push ----------

  datatype DeployAnswer = NoDeploy | Deployed(done: bool)

  /** What one Push is told: an answer per bucket, a cancellation flag per bucket, an answer per chunk. */
  datatype World = World(lookup: nat -> Lookup, cancelled: nat -> bool, deploy: nat -> DeployAnswer, now: Instant)

  const PUSH_CHUNK: nat := 100

  /** createNewCompleted: a timestamp to the second, with season and episode numbers on episodes only. */
  datatype Input = Input(metadataId: string, at: int, numbering: Option<(int, int)>)

  function InputOf(id: string, w: WatchItem, now: Instant): Input {
    Input(id, (if IsZero(w.watchedAt) then now else w.watchedAt) / SECOND,
          if w.mediaType == "episode" then Some((w.season, w.episode)) else None)
  }

  /** The distinct buckets of a list, in order of first appearance. */
  function Buckets(items: seq<WatchItem>): seq<Bucket> {
    if items == [] then []
    else
      var earlier := Buckets(Init(items));
      if Pushable(Last(items)) && BucketOf(Last(items)) !in earlier then earlier + [BucketOf(Last(items))] else earlier
  }

  ghost predicate FirstTitle(items: seq<WatchItem>, b: Bucket, title: string) {
    exists k :: 0 <= k < |items| && Pushable(items[k]) && BucketOf(items[k]) == b && items[k].title == title
                && forall j :: 0 <= j < k && Pushable(items[j]) ==> BucketOf(items[j]) != b
  }

  /** Distinct buckets are collected in first-seen order, each with the title of its first item. */
  method CollectBuckets(items: seq<WatchItem>) returns (order: seq<Bucket>, titles: map<Bucket, string>)
    ensures order == Buckets(items)
    ensures titles.Keys == set b | b in order
    ensures forall b :: b in titles ==> FirstTitle(items, b, titles[b])
  {
    order, titles := [], map[];
    assert items[..|items|] == items;
    for i := 0 to |items|
      invariant order == Buckets(items[..i])
      invariant titles.Keys == set b | b in order
      invariant forall b :: b in titles ==> FirstTitle(items, b, titles[b])
      invariant forall j :: 0 <= j < i && Pushable(items[j]) ==> BucketOf(items[j]) in titles
    {
      assert Init(items[..i + 1]) == items[..i];
      var lot := PushLot(items[i]);
      if lot.None? {
        continue;
      }
      var b := Bucket(lot.value, items[i].ids.tmdb);
      if b !in titles {
        assert FirstTitle(items, b, items[i].title);
        titles := titles[b := items[i].title];
        order := order + [b];
      }
    }
  }

  /** No bucket is looked up twice, and every pushable item has its bucket. */
  lemma {:induction false} BucketsDistinct(items: seq<WatchItem>)
    ensures forall i, j :: 0 <= i < j < |Buckets(items)| ==> Buckets(items)[i] != Buckets(items)[j]
    ensures forall w :: w in items && Pushable(w) ==> BucketOf(w) in Buckets(items)
    ensures forall b :: b in Buckets(items) ==> exists w :: w in items && Pushable(w) && BucketOf(w) == b
  {
    if items != [] {
      BucketsDistinct(Init(items));
      assert items == Init(items) + [Last(items)];
    }
  }

  /** The ids of the first n buckets that resolved to something. */
  function Resolved(order: seq<Bucket>, w: World, n: nat): map<Bucket, string>
    requires n <= |order|
  {
    if n == 0 then map[]
    else
      var earlier := Resolved(order, w, n - 1);
      match Resolution(w.lookup(n - 1), order[n - 1].tmdb)
      case Err => earlier
      case Ok(id) => if id == "" then earlier else earlier[order[n - 1] := id]
  }

  lemma {:induction false} ResolvedExactly(order: seq<Bucket>, w: World, n: nat, k: nat)
    requires k < n <= |order| && forall i, j :: 0 <= i < j < |order| ==> order[i] != order[j]
    ensures order[k] in Resolved(order, w, n)
            <==> Resolution(w.lookup(k), order[k].tmdb).Ok? && Resolution(w.lookup(k), order[k].tmdb).value != ""
    ensures order[k] in Resolved(order, w, n) ==>
              Resolved(order, w, n)[order[k]] == Resolution(w.lookup(k), order[k].tmdb).value
  {
    if k < n - 1 {
      ResolvedExactly(order, w, n - 1, k);
    } else {
      ResolvedOnlyEarlier(order, w, n - 1, order[k]);
    }
  }

  lemma {:induction false} ResolvedOnlyEarlier(order: seq<Bucket>, w: World, n: nat, b: Bucket)
    requires n <= |order| && b !in order[..n]
    ensures b !in Resolved(order, w, n)
  {
    if n > 0 {
      assert order[n - 1] in order[..n];
      assert order[..n - 1] <= order[..n];
      ResolvedOnlyEarlier(order, w, n - 1, b);
    }
  }

  predicate Ready(it: WatchItem, ids: map<Bucket, string>) {
    Pushable(it) && BucketOf(it) in ids
  }

  /** Inputs aligned with the ready items. */
  function Inputs(items: seq<WatchItem>, ids: map<Bucket, string>, now: Instant): seq<Input> {
    if items == [] then []
    else
      var earlier, it := Inputs(Init(items), ids, now), Last(items);
      if Ready(it, ids) then earlier + [InputOf(ids[BucketOf(it)], it, now)] else earlier
  }

  /** Every input belongs to the ready item at the same position: it carries the id of that item's bucket, its
      instant cut to the second, and numbering exactly for episodes. */
  lemma {:induction false} InputsAligned(items: seq<WatchItem>, ids: map<Bucket, string>, now: Instant)
    ensures var ready := Select(items, (it: WatchItem) => Ready(it, ids));
            |Inputs(items, ids, now)| == |ready|
            && forall k :: 0 <= k < |ready| ==>
                 Ready(ready[k], ids) && Carries(Inputs(items, ids, now)[k], ids[BucketOf(ready[k])], ready[k], now)
  {
    if items != [] {
      InputsAligned(Init(items), ids, now);
    }
  }

  /** The second sent is the one the item was watched in or, for an undated item, the current one. */
  ghost predicate Carries(i: Input, id: string, it: WatchItem, now: Instant) {
    var t := if it.watchedAt != 0 then it.watchedAt else now;
    && i.metadataId == id && i.at * SECOND <= t < (i.at + 1) * SECOND
    && (it.mediaType == "episode" ==> i.numbering == Some((it.season, it.episode)))
    && (it.mediaType != "episode" ==> i.numbering == None)
  }

  /** A movie goes to the movie lot, an episode to the show lot, under its TMDB number. */
  ghost predicate InBucket(it: WatchItem, b: Bucket) {
    && it.ids.tmdb != 0 && b.tmdb == it.ids.tmdb
    && (|| (it.mediaType == "movie" && b.lot == "MOVIE")
        || (it.mediaType == "episode" && b.lot == "SHOW" && (it.season != 0 || it.episode != 0)))
  }

  lemma BucketIs(it: WatchItem, b: Bucket)
    ensures InBucket(it, b) <==> Pushable(it) && BucketOf(it) == b
  {
  }

  function Min(a: nat, b: nat): nat {
    if a < b then a else b
  }

  /** How many items are deployed when chunks are sent from the given one on. */
  function DeployedFrom(w: World, chunk: nat, total: nat): (r: nat)
    requires chunk * PUSH_CHUNK <= total + PUSH_CHUNK - 1
    ensures Min(chunk * PUSH_CHUNK, total) <= r <= total
    decreases total + PUSH_CHUNK - chunk * PUSH_CHUNK
  {
    var start := chunk * PUSH_CHUNK;
    if start >= total then total
    else if w.deploy(chunk) != Deployed(true) then start
    else DeployedFrom(w, chunk + 1, total)
  }

  /** Every chunk before the end of the deployed items was confirmed, and deployment stops short of the total
      only at the start of a chunk that was not. */
  lemma {:induction false} DeployedExactly(w: World, chunk: nat, total: nat)
    requires chunk * PUSH_CHUNK <= total + PUSH_CHUNK - 1
    ensures var r := DeployedFrom(w, chunk, total);
      && (r == total || (r % PUSH_CHUNK == 0 && w.deploy(r / PUSH_CHUNK) != Deployed(true)))
      && forall c: nat :: chunk <= c && c * PUSH_CHUNK < r ==> w.deploy(c) == Deployed(true)
    decreases total + PUSH_CHUNK - chunk * PUSH_CHUNK
  {
    if chunk * PUSH_CHUNK < total && w.deploy(chunk) == Deployed(true) {
      DeployedExactly(w, chunk + 1, total);
    }
  }

  /** The first bucket whose lookup errs while the context is cancelled aborts the push. */
  predicate AbortsAt(order: seq<Bucket>, w: World, n: nat) {
    exists k: nat :: k < n && k < |order| && Resolution(w.lookup(k), order[k].tmdb).Err? && w.cancelled(k)
  }

  function Reply(items: seq<WatchItem>, w: World): PushReply {
    var order := Buckets(items);
    if AbortsAt(order, w, |order|) then PushReply([], true)
    else
      var ids := Resolved(order, w, |order|);
      var ready := Select(items, (it: WatchItem) => Ready(it, ids));
      var n := DeployedFrom(w, 0, |ready|);
      PushReply(ready[..n], n < |ready|)
  }

  method Prepare(items: seq<WatchItem>, ids: map<Bucket, string>, now: Instant)
    returns (inputs: seq<Input>, ready: seq<WatchItem>)
    ensures inputs == Inputs(items, ids, now) && ready == Select(items, (it: WatchItem) => Ready(it, ids))
  {
    inputs, ready := [], [];
    assert items[..|items|] == items;
    for i := 0 to |items|
      invariant inputs == Inputs(items[..i], ids, now)
      invariant ready == Select(items[..i], (it: WatchItem) => Ready(it, ids))
    {
      assert Init(items[..i + 1]) == items[..i];
      var it := items[i];
      if Pushable(it) && BucketOf(it) in ids {
        inputs := inputs + [InputOf(ids[BucketOf(it)], it, now)];
        ready := ready + [it];
      }
    }
  }

  function Flat(chunks: seq<seq<Input>>): seq<Input> {
    if chunks == [] then [] else Flat(Init(chunks)) + Last(chunks)
  }

  lemma FlatSnoc(chunks: seq<seq<Input>>, c: seq<Input>)
    ensures Flat(chunks + [c]) == Flat(chunks) + c
  {
    assert Init(chunks + [c]) == chunks;
  }

  lemma DeployedNext(w: World, chunk: nat, total: nat)
    requires chunk * PUSH_CHUNK < total
    ensures DeployedFrom(w, chunk, total)
            == if w.deploy(chunk) != Deployed(true) then chunk * PUSH_CHUNK else DeployedFrom(w, chunk + 1, total)
  {
  }

  lemma TakeSlice<T>(s: seq<T>, i: nat, j: nat)
    requires i <= j <= |s|
    ensures s[..i] + s[i..j] == s[..j]
  {
  }

  /** Chunks are sent in order until one is not confirmed; the delivered items are those of the confirmed chunks. */
  method Deploy(inputs: seq<Input>, ready: seq<WatchItem>, w: World)
    returns (reply: PushReply, sent: seq<seq<Input>>)
    requires |inputs| == |ready|
    ensures var n := DeployedFrom(w, 0, |ready|); reply == PushReply(ready[..n], n < |ready|)
    ensures forall c :: 0 <= c < |sent| ==> 0 < |sent[c]| <= 100 && (c < |sent| - 1 ==> |sent[c]| == 100)
    ensures Flat(sent) == inputs[..Min(|reply.delivered| + if reply.failed then PUSH_CHUNK else 0, |inputs|)]
  {
    sent := [];
    var delivered: seq<WatchItem> := [];
    var chunk := 0;
    while chunk * PUSH_CHUNK < |inputs|
      invariant chunk * PUSH_CHUNK <= |inputs| + PUSH_CHUNK - 1
      invariant delivered == ready[..Min(chunk * PUSH_CHUNK, |ready|)]
      invariant Flat(sent) == inputs[..Min(chunk * PUSH_CHUNK, |inputs|)]
      invariant forall c :: 0 <= c < |sent| ==>
        0 < |sent[c]| <= 100 && (chunk * PUSH_CHUNK <= |inputs| || c < |sent| - 1 ==> |sent[c]| == 100)
      invariant DeployedFrom(w, 0, |ready|) == DeployedFrom(w, chunk, |ready|)
      decreases |inputs| + PUSH_CHUNK - chunk * PUSH_CHUNK
    {
      var start := chunk * PUSH_CHUNK;
      var end := Min(start + PUSH_CHUNK, |inputs|);
      DeployedNext(w, chunk, |ready|);
      FlatSnoc(sent, inputs[start..end]);
      TakeSlice(inputs, start, end);
      TakeSlice(ready, start, end);
      sent := sent + [inputs[start..end]];
      if w.deploy(chunk) != Deployed(true) {
        return PushReply(delivered, true), sent;
      }
      delivered := delivered + ready[start..end];
      chunk := chunk + 1;
    }
    return PushReply(delivered, false), sent;
  }

  lemma ResolvedNext(order: seq<Bucket>, w: World, k: nat)
    requires k < |order|
    ensures var earlier, id := Resolved(order, w, k), Resolution(w.lookup(k), order[k].tmdb);
            Resolved(order, w, k + 1) == if id.Ok? && id.value != "" then earlier[order[k] := id.value] else earlier
  {
  }

  lemma AbortsNext(order: seq<Bucket>, w: World, k: nat)
    requires k < |order|
    ensures var here := Resolution(w.lookup(k), order[k].tmdb).Err? && w.cancelled(k);
      && (AbortsAt(order, w, k + 1) <==> AbortsAt(order, w, k) || here)
      && (here ==> AbortsAt(order, w, |order|))
  {
  }

  /** Buckets are looked up once each, in order, under their titles, until one errs on a cancelled context. */
  method ResolveAll(order: seq<Bucket>, titles: map<Bucket, string>, w: World)
    returns (ids: map<Bucket, string>, queries: seq<(Bucket, string)>, aborted: bool)
    requires forall b :: b in order ==> b in titles
    ensures aborted <==> AbortsAt(order, w, |order|)
    ensures !aborted ==> ids == Resolved(order, w, |order|)
    ensures |queries| <= |order| && (!aborted ==> |queries| == |order|)
    ensures forall k :: 0 <= k < |queries| ==> queries[k] == (order[k], titles[order[k]])
  {
    ids, queries := map[], [];
    for k := 0 to |order|
      invariant |queries| == k
      invariant forall j :: 0 <= j < k ==> queries[j] == (order[j], titles[order[j]])
      invariant ids == Resolved(order, w, k) && !AbortsAt(order, w, k)
    {
      var b := order[k];
      queries := queries + [(b, titles[b])];
      var id := Resolve(b.tmdb, w.lookup(k));
      ResolvedNext(order, w, k);
      AbortsNext(order, w, k);
      if id.Err? && w.cancelled(k) {
        return map[], queries, true;
      }
      if id.Ok? && id.value != "" {
        ids := ids[b := id.value];
      }
    }
    aborted := false;
  }

  method Push(items: seq<WatchItem>, w: World)
    returns (reply: PushReply, sent: seq<seq<Input>>, queries: seq<(Bucket, string)>)
    ensures reply == Reply(items, w)
    ensures forall c :: 0 <= c < |sent| ==> 0 < |sent[c]| <= 100 && (c < |sent| - 1 ==> |sent[c]| == 100)
    ensures Flat(sent) <= Inputs(items, Resolved(Buckets(items), w, |Buckets(items)|), w.now)
    ensures |reply.delivered| <= |Flat(sent)|
    ensures |queries| <= |Buckets(items)|
    ensures !Cancelled(Buckets(items), w) ==> |queries| == |Buckets(items)|
    ensures forall k :: 0 <= k < |queries| ==> queries[k].0 == Buckets(items)[k] && FirstTitle(items, queries[k].0, queries[k].1)
  {
    var order, titles := CollectBuckets(items);
    var ids, asked, aborted := ResolveAll(order, titles, w);
    CancelledAborts(order, w);
    queries := asked;
    if aborted {
      return PushReply([], true), [], queries;
    }
    var inputs, ready := Prepare(items, ids, w.now);
    InputsAligned(items, ids, w.now);
    reply, sent := Deploy(inputs, ready, w);
  }

  /** Delivered items are part of the offer on every path: a prefix of the ready items that ends at a multiple
      of 100 or at their end, everything ready unless an error is reported, and nothing on cancellation. */
  lemma ReplyKeepsContract(items: seq<WatchItem>, w: World)
    ensures var r, order := Reply(items, w), Buckets(items);
      var ready := Select(items, (it: WatchItem) => Ready(it, Resolved(order, w, |order|)));
      && Subseq(r.delivered, items) && r.delivered <= ready
      && (|r.delivered| % 100 == 0 || r.delivered == ready)
      && (!r.failed ==> r.delivered == ready)
      && (r.failed && !AbortsAt(order, w, |order|) ==> r.delivered != ready)
      && (AbortsAt(order, w, |order|) ==> r == PushReply([], true))
  {
    var order := Buckets(items);
    var ids := Resolved(order, w, |order|);
    SelectIsSubseq(items, (it: WatchItem) => Ready(it, ids));
    var r := Reply(items, w);
    var ready := Select(items, (it: WatchItem) => Ready(it, ids));
    DeployedExactly(w, 0, |ready|);
    PrefixSubseq(r.delivered, ready);
    SubseqTransitive(r.delivered, ready, items);
  }

  /** The item delivered at position p went out as input p, which carries the id of the first candidate of the item's
      own bucket, looked up once, whose details name TMDB and the item's very number; each candidate before it answered
      and names another source or number. */
  lemma DeliveredWasMatched(items: seq<WatchItem>, w: World, p: nat) returns (k: nat, m: nat)
    requires p < |Reply(items, w).delivered|
    ensures var order, it := Buckets(items), Reply(items, w).delivered[p];
      var inputs := Inputs(items, Resolved(order, w, |order|), w.now);
      && k < |order| && InBucket(it, order[k]) && (forall j :: 0 <= j < |order| && order[j] == order[k] ==> j == k)
      && w.lookup(k).search.Ok? && m < |w.lookup(k).search.value| && w.lookup(k).details(m).Ok?
      && var d := w.lookup(k).details(m).value;
      && d.source == "TMDB" && d.identifier == Dec(it.ids.tmdb) && ParseDec(d.identifier) == it.ids.tmdb
      && (forall j: nat :: j < m ==>
            && w.lookup(k).details(j).Ok?
            && (w.lookup(k).details(j).value.source != "TMDB" || w.lookup(k).details(j).value.identifier != Dec(it.ids.tmdb)))
      && p < |inputs| && Carries(inputs[p], w.lookup(k).search.value[m], it, w.now)
  {
    var order, it := Buckets(items), Reply(items, w).delivered[p];
    var ids := Resolved(order, w, |order|);
    ReplyKeepsContract(items, w);
    InputsAligned(items, ids, w.now);
    var ready := Select(items, (x: WatchItem) => Ready(x, ids));
    assert it == ready[p] && it in ready;
    SelectMember(items, (x: WatchItem) => Ready(x, ids), it);
    BucketsDistinct(items);
    k :| 0 <= k < |order| && order[k] == BucketOf(it);
    BucketIs(it, order[k]);
    ResolvedExactly(order, w, |order|, k);
    ResolutionSettles(w.lookup(k), it.ids.tmdb);
    m :| Hits(w.lookup(k), it.ids.tmdb, m);
    DecRoundTrip(it.ids.tmdb);
  }

  /** The id of the first strict match for a bucket. */
  ghost predicate Found(w: World, k: nat, tmdb: int, id: string) {
    exists m: nat :: Hits(w.lookup(k), tmdb, m) && id == w.lookup(k).search.value[m]
  }

  /** An item is ready to be sent exactly if it has a bucket and the lookup of that bucket found a non-empty id. */
  lemma ReadyExactly(items: seq<WatchItem>, w: World, it: WatchItem)
    requires it in items
    ensures Ready(it, Resolved(Buckets(items), w, |Buckets(items)|))
            <==> exists k: nat, id :: k < |Buckets(items)| && InBucket(it, Buckets(items)[k])
                                      && id != "" && Found(w, k, it.ids.tmdb, id)
  {
    var order := Buckets(items);
    var ids := Resolved(order, w, |order|);
    BucketsDistinct(items);
    if Pushable(it) {
      var k: nat :| k < |order| && order[k] == BucketOf(it);
      BucketIs(it, order[k]);
      ResolvedExactly(order, w, |order|, k);
      ResolutionSettles(w.lookup(k), it.ids.tmdb);
      if Ready(it, ids) {
        var m: nat :| Hits(w.lookup(k), it.ids.tmdb, m);
        assert Found(w, k, it.ids.tmdb, w.lookup(k).search.value[m]);
      }
    }
    if k: nat, id :| k < |order| && InBucket(it, order[k]) && id != "" && Found(w, k, it.ids.tmdb, id) {
      BucketIs(it, order[k]);
      ResolvedExactly(order, w, |order|, k);
      ResolutionSettles(w.lookup(k), it.ids.tmdb);
    }
  }

  /** A lookup that broke while the context was cancelled aborts the push. */
  ghost predicate Cancelled(order: seq<Bucket>, w: World) {
    exists k: nat :: k < |order| && Breaks(w.lookup(k), order[k].tmdb) && w.cancelled(k)
  }

  lemma CancelledAborts(order: seq<Bucket>, w: World)
    ensures Cancelled(order, w) <==> AbortsAt(order, w, |order|)
  {
    forall k: nat | k < |order|
      ensures Resolution(w.lookup(k), order[k].tmdb).Err? <==> Breaks(w.lookup(k), order[k].tmdb)
    {
      ResolutionSettles(w.lookup(k), order[k].tmdb);
    }
  }

  /** A push fails exactly if it was cancelled, and then delivers nothing, or if one of the chunks of 100 was not
      confirmed; otherwise it delivers every item that is ready. */
  lemma PushFailsExactly(items: seq<WatchItem>, w: World)
    ensures var r, order := Reply(items, w), Buckets(items);
      var ready := Select(items, (it: WatchItem) => Ready(it, Resolved(order, w, |order|)));
      && (Cancelled(order, w) ==> r == PushReply([], true))
      && (!Cancelled(order, w) ==>
            (r.failed <==> exists c: nat :: c * 100 < |ready| && w.deploy(c) != Deployed(true)))
      && (!r.failed ==> r.delivered == ready)
  {
    var order := Buckets(items);
    var ready := Select(items, (it: WatchItem) => Ready(it, Resolved(order, w, |order|)));
    CancelledAborts(order, w);
    var r := DeployedFrom(w, 0, |ready|);
    DeployedExactly(w, 0, |ready|);
    if r < |ready| {
      assert (r / PUSH_CHUNK) * 100 < |ready|;
    }
  }

  // ---------- history ----------

  /** One alias pair of a combined read: the identifier as a number, 0 when it is none, and whether the source is
      TMDB and the lot SHOW; a seen row without a readable finishedOn has no instant. */
  datatype DetailPart = DetailPart(tmdb: int, fromTmdb: bool, isShow: bool, title: string)
  datatype SeenRow = SeenRow(finished: Option<Instant>, numbering: Option<(int, int)>)
  datatype Alias = Alias(details: Option<DetailPart>, seen: Option<seq<SeenRow>>)

  const DETAIL_CHUNK: nat := 16
  const PAGE_CAP: nat := 100

  function RowItem(d: DetailPart, r: SeenRow): Option<WatchItem> {
    if r.finished.None? then None
    else
      var ids := IDs(0, 0, "", d.tmdb, 0);
      if !d.isShow then Some(WatchItem(ids, "movie", d.title, 0, 0, 0, r.finished.value))
      else match r.numbering
        case None => None
        case Some(n) => Some(WatchItem(ids, "episode", d.title, 0, n.0, n.1, r.finished.value))
  }

  function RowItems(d: DetailPart, rows: seq<SeenRow>): seq<WatchItem> {
    if rows == [] then []
    else match RowItem(d, Last(rows))
      case None => RowItems(d, Init(rows))
      case Some(it) => RowItems(d, Init(rows)) + [it]
  }

  /** What one id contributes; an id whose alias failed or is not a TMDB entry contributes nothing. */
  function ReadOne(a: Alias): seq<WatchItem> {
    if a.details.None? || a.details.value.tmdb == 0 || !a.details.value.fromTmdb || a.seen.None? then []
    else RowItems(a.details.value, a.seen.value)
  }

  function Entries(alias: string -> Alias): string -> seq<WatchItem> {
    (id: string) => ReadOne(alias(id))
  }

  /** One-id reads in a row. */
  function ReadEach(ids: seq<string>, alias: string -> Alias): seq<WatchItem> {
    Gather(ids, Entries(alias))
  }

  predicate ChunksUp(up: nat -> bool, n: nat) {
    forall c: nat :: c < n && c * DETAIL_CHUNK < n ==> up(c)
  }

  /** The parts of all ids in a row, if every chunk of them answers. */
  function Chunked(ids: seq<string>, up: nat -> bool, part: string -> seq<WatchItem>): Answer<seq<WatchItem>> {
    if ChunksUp(up, |ids|) then Ok(Gather(ids, part)) else Err
  }

  /** The chunks read so far. */
  ghost predicate Progress(ids: seq<string>, up: nat -> bool, part: string -> seq<WatchItem>, chunk: nat, start: nat,
      out: seq<WatchItem>) {
    && start == Min(chunk * DETAIL_CHUNK, |ids|)
    && (forall c: nat :: c < chunk ==> up(c))
    && out == Gather(ids[..start], part)
  }

  lemma ChunkRead(ids: seq<string>, up: nat -> bool, part: string -> seq<WatchItem>, chunk: nat, start: nat,
      out: seq<WatchItem>)
    requires Progress(ids, up, part, chunk, start, out) && start < |ids|
    ensures var end := Min(start + DETAIL_CHUNK, |ids|);
            if up(chunk) then Progress(ids, up, part, chunk + 1, end, out + Gather(ids[start..end], part))
            else Chunked(ids, up, part) == Err
  {
    var end := Min(start + DETAIL_CHUNK, |ids|);
    var a, b := ids[..start], ids[start..end];
    assert a + b == ids[..end];
    GatherConcat(a, b, part);
  }

  lemma AllChunksRead(ids: seq<string>, up: nat -> bool, part: string -> seq<WatchItem>, chunk: nat, out: seq<WatchItem>)
    requires Progress(ids, up, part, chunk, |ids|, out)
    ensures Chunked(ids, up, part) == Ok(out)
  {
    assert ids[..|ids|] == ids;
  }

  /** Batching is invisible: chunked reads give the concatenation of one-id reads, or fail if any chunk fails. */
  method ReadDetails(ids: seq<string>, up: nat -> bool, alias: string -> Alias) returns (r: Answer<seq<WatchItem>>)
    ensures r == Chunked(ids, up, Entries(alias))
  {
    var out: seq<WatchItem> := [];
    ghost var part := Entries(alias);
    var chunk, start := 0, 0;
    while start < |ids|
      invariant start <= |ids| && Progress(ids, up, part, chunk, start, out)
      decreases |ids| - start
    {
      var end := Min(start + DETAIL_CHUNK, |ids|);
      ChunkRead(ids, up, part, chunk, start, out);
      if !up(chunk) {
        return Err;
      }
      var items := ReadChunk(ids[start..end], alias);
      out := out + items;
      chunk, start := chunk + 1, end;
    }
    AllChunksRead(ids, up, part, chunk, out);
    r := Ok(out);
  }

  lemma RowItemsNext(d: DetailPart, rows: seq<SeenRow>, j: nat)
    requires j < |rows|
    ensures var it, earlier := RowItem(d, rows[j]), RowItems(d, rows[..j]);
            RowItems(d, rows[..j + 1]) == if it.Some? then earlier + [it.value] else earlier
  {
    assert Init(rows[..j + 1]) == rows[..j];
  }

  method ReadChunk(part: seq<string>, alias: string -> Alias) returns (out: seq<WatchItem>)
    ensures out == ReadEach(part, alias)
  {
    out := [];
    assert part[..|part|] == part;
    for i := 0 to |part|
      invariant out == ReadEach(part[..i], alias)
    {
      GatherNext(part, i, Entries(alias));
      var a := alias(part[i]);
      if a.details.None? {
        continue;
      }
      var d := a.details.value;
      if d.tmdb == 0 || !d.fromTmdb || a.seen.None? {
        continue;
      }
      ghost var before := out;
      var rows := a.seen.value;
      assert rows[..|rows|] == rows;
      for j := 0 to |rows|
        invariant out == before + RowItems(d, rows[..j])
      {
        RowItemsNext(d, rows, j);
        var it := RowItem(d, rows[j]);
        if it.Some? {
          out := out + [it.value];
        }
      }
    }
  }

  datatype ListAnswer = NoList | ListPage(ids: seq<string>, more: bool)

  /** A library as the server lists it: pages per lot, request outcomes, and an answer per id. */
  datatype Library = Library(page: (nat, nat) -> ListAnswer, up: (nat, nat, nat) -> bool, alias: string -> Alias)

  function ChunkAnswers(l: Library, lot: nat, p: nat): nat -> bool {
    (c: nat) => l.up(lot, p, c)
  }

  predicate DetailsUp(l: Library, lot: nat, p: nat) {
    l.page(lot, p).ListPage? && ChunksUp(ChunkAnswers(l, lot, p), |l.page(lot, p).ids|)
  }

  /** A page of a lot with its details: unreadable, the last one, or one that announces another. */
  datatype PageRead = Broken | Ended(items: seq<WatchItem>) | More(items: seq<WatchItem>)

  function PageOf(l: Library, lot: nat, page: nat): PageRead {
    match l.page(lot, page)
    case NoList => Broken
    case ListPage(ids, more) =>
      if ids == [] then Ended([])
      else if !DetailsUp(l, lot, page) then Broken
      else if more then More(ReadEach(ids, l.alias)) else Ended(ReadEach(ids, l.alias))
  }

  method ReadPage(l: Library, lot: nat, page: nat) returns (r: PageRead)
    ensures r == PageOf(l, lot, page)
  {
    var answer := l.page(lot, page);
    if answer.NoList? {
      return Broken;
    }
    if answer.ids == [] {
      return Ended([]);
    }
    var items := ReadDetails(answer.ids, ChunkAnswers(l, lot, page), l.alias);
    if items.Err? {
      return Broken;
    }
    r := if answer.more then More(items.value) else Ended(items.value);
  }

  /** The pages of a lot as ReadPage reads them. */
  function PagesOf(l: Library, lot: nat): nat -> PageRead {
    (page: nat) => PageOf(l, lot, page)
  }

  /** Paging ends at page p, every page before it announcing another. */
  predicate EndsAt(read: nat -> PageRead, p: nat) {
    1 <= p && read(p).Ended? && forall q: nat :: 1 <= q < p ==> read(q).More?
  }

  /** The items of pages 1 to n. */
  function Walked(read: nat -> PageRead, n: nat): seq<WatchItem> {
    Concat(ItemsOf(read), n)
  }

  function ItemsOf(read: nat -> PageRead): nat -> seq<WatchItem> {
    (p: nat) => if read(p).Broken? then [] else read(p).items
  }

  /** Every item of every page, if the paging ends within the cap. */
  function WalkAnswer(read: nat -> PageRead): Answer<seq<WatchItem>> {
    if exists p: nat :: p <= PAGE_CAP && EndsAt(read, p) then
      EndUnique(read);
      var p: nat :| p <= PAGE_CAP && EndsAt(read, p);
      Ok(Walked(read, p))
    else Err
  }

  lemma EndUnique(read: nat -> PageRead)
    ensures forall a: nat, b: nat :: EndsAt(read, a) && EndsAt(read, b) ==> a == b
  {
    forall a: nat, b: nat | EndsAt(read, a) && EndsAt(read, b) ensures a == b {
      assert a < b ==> read(a).More?;
      assert b < a ==> read(b).More?;
    }
  }

  lemma NoEnd(read: nat -> PageRead, page: nat)
    requires 1 <= page && !read(page).Ended? && forall q: nat :: 1 <= q < page ==> read(q).More?
    requires read(page).Broken? || page >= PAGE_CAP
    ensures WalkAnswer(read) == Err
  {
    forall p: nat | p <= PAGE_CAP ensures !EndsAt(read, p) {
      assert 1 <= p < page ==> read(p).More?;
    }
  }

  /** A lot reads in full, to the end of its paging, or fails: never a silent cut at the page cap. */
  method WalkLot(read: nat -> PageRead) returns (r: Answer<seq<WatchItem>>)
    ensures r == WalkAnswer(read)
    ensures r.Ok? <==> exists p: nat :: p <= 100 && EndsAt(read, p)
  {
    var out: seq<WatchItem> := [];
    for page := 1 to PAGE_CAP + 1
      invariant page <= PAGE_CAP
      invariant forall q: nat :: 1 <= q < page ==> read(q).More?
      invariant out == Walked(read, page - 1)
    {
      var answer := read(page);
      if answer.Broken? {
        NoEnd(read, page);
        return Err;
      }
      out := out + answer.items;
      if answer.Ended? {
        assert EndsAt(read, page);
        EndUnique(read);
        return Ok(out);
      }
      if page >= PAGE_CAP {
        NoEnd(read, page);
        return Err;
      }
    }
    assert false;
    r := Err;
  }

  /** The answer for one lot of a library. */
  function LotAnswer(l: Library, lot: nat): Answer<seq<WatchItem>> {
    WalkAnswer(PagesOf(l, lot))
  }

  /** The boundary instant itself is kept. */
  predicate NotBefore(it: WatchItem, since: Instant) {
    IsZero(since) || it.watchedAt >= since
  }

  /** A failed walk reads as an empty answer; otherwise both lots, movies first, from since on. */
  function HistoryAnswer(l: Library, since: Instant): seq<WatchItem> {
    match LotAnswer(l, 0)
    case Err => []
    case Ok(movies) =>
      match LotAnswer(l, 1)
      case Err => []
      case Ok(shows) => Select(movies + shows, (it: WatchItem) => NotBefore(it, since))
  }

  method KeepFrom(out: seq<WatchItem>, since: Instant) returns (items: seq<WatchItem>)
    ensures items == Select(out, (it: WatchItem) => NotBefore(it, since))
  {
    items := [];
    assert out[..|out|] == out;
    for i := 0 to |out|
      invariant items == Select(out[..i], (it: WatchItem) => NotBefore(it, since))
    {
      SelectNext(out, i, (it: WatchItem) => NotBefore(it, since));
      if !IsZero(since) && !(out[i].watchedAt > since) && !(out[i].watchedAt == since) {
        continue;
      }
      items := items + [out[i]];
    }
  }

  /** History swallows a failed walk into an empty answer; otherwise it returns every item of every page of both
      lots, movies first, dated at or after since. */
  method History(l: Library, since: Instant) returns (items: seq<WatchItem>)
    ensures items == HistoryAnswer(l, since)
  {
    var movies := WalkLot(PagesOf(l, 0));
    if movies.Err? {
      return [];
    }
    var shows := WalkLot(PagesOf(l, 1));
    if shows.Err? {
      return [];
    }
    items := KeepFrom(movies.value + shows.value, since);
  }

  // ---------- what a read lists ----------

  /** The alias answers for a TMDB entry, and one of its finished rows reads as the item: under the number and title
      of the entry, a movie without numbering or, in the show lot, the episode of the row. */
  ghost predicate AliasReadsAs(a: Alias, it: WatchItem) {
    && a.details.Some? && a.seen.Some? && a.details.value.fromTmdb && a.details.value.tmdb != 0
    && exists row :: row in a.seen.value && RowReadsAs(a.details.value, row, it)
  }

  ghost predicate RowReadsAs(d: DetailPart, row: SeenRow, it: WatchItem) {
    && row.finished == Some(it.watchedAt) && it.title == d.title && it.year == 0
    && it.ids.tmdb == d.tmdb && it.ids.trakt == 0 && it.ids.simkl == 0 && it.ids.imdb == "" && it.ids.tvdb == 0
    && (d.isShow ==> it.mediaType == "episode" && row.numbering == Some((it.season, it.episode)))
    && (!d.isShow ==> it.mediaType == "movie" && it.season == 0 && it.episode == 0)
  }

  lemma {:induction false} RowsMember(d: DetailPart, rows: seq<SeenRow>, it: WatchItem)
    ensures it in RowItems(d, rows) <==> exists row :: row in rows && RowReadsAs(d, row, it)
  {
    if rows != [] {
      RowsMember(d, Init(rows), it);
      assert rows == Init(rows) + [Last(rows)];
      assert RowItem(d, Last(rows)) == Some(it) <==> RowReadsAs(d, Last(rows), it);
    }
  }

  lemma AliasMember(a: Alias, it: WatchItem)
    ensures it in ReadOne(a) <==> AliasReadsAs(a, it)
  {
    if a.details.Some? && a.seen.Some? {
      RowsMember(a.details.value, a.seen.value, it);
    }
  }

  /** Page p of a lot answers, and so does every chunk of 16 of its ids. */
  ghost predicate PageUp(l: Library, lot: nat, p: nat) {
    l.page(lot, p).ListPage? && forall c: nat :: c * 16 < |l.page(lot, p).ids| ==> l.up(lot, p, c)
  }

  /** Page last of a lot is the first that is empty or announces no other, and every page up to it answers with all
      its details. */
  ghost predicate LotEnds(l: Library, lot: nat, last: nat) {
    && 1 <= last && PageUp(l, lot, last) && (l.page(lot, last).ids == [] || !l.page(lot, last).more)
    && forall q: nat :: 1 <= q < last ==> PageUp(l, lot, q) && l.page(lot, q).ids != [] && l.page(lot, q).more
  }

  lemma ChunksAre(up: nat -> bool, n: nat)
    ensures ChunksUp(up, n) <==> forall c: nat :: c * 16 < n ==> up(c)
  {
    if ChunksUp(up, n) {
      forall c: nat | c * 16 < n ensures up(c) {
        assert c * DETAIL_CHUNK < n;
      }
    }
  }

  lemma PageIs(l: Library, lot: nat, p: nat)
    ensures !PageOf(l, lot, p).Broken? <==> PageUp(l, lot, p)
    ensures PageOf(l, lot, p).More? <==> PageUp(l, lot, p) && l.page(lot, p).ids != [] && l.page(lot, p).more
  {
    if l.page(lot, p).ListPage? {
      var up, n := ChunkAnswers(l, lot, p), |l.page(lot, p).ids|;
      ChunksAre(up, n);
      assert forall c: nat :: up(c) == l.up(lot, p, c);
    }
  }

  lemma LotEndIs(l: Library, lot: nat, last: nat)
    ensures EndsAt(PagesOf(l, lot), last) <==> LotEnds(l, lot, last)
  {
    var read := PagesOf(l, lot);
    PageIs(l, lot, last);
    forall q: nat ensures read(q).More? <==> PageUp(l, lot, q) && l.page(lot, q).ids != [] && l.page(lot, q).more {
      PageIs(l, lot, q);
    }
  }

  /** Some id on the first pages of a lot reads as the item. */
  ghost predicate LotGives(l: Library, lot: nat, last: nat, it: WatchItem) {
    exists p: nat, id :: 1 <= p <= last && l.page(lot, p).ListPage? && id in l.page(lot, p).ids
                         && AliasReadsAs(l.alias(id), it)
  }

  lemma WalkedMember(l: Library, lot: nat, last: nat, it: WatchItem)
    requires LotEnds(l, lot, last)
    ensures it in Walked(PagesOf(l, lot), last) <==> LotGives(l, lot, last, it)
  {
    var part := ItemsOf(PagesOf(l, lot));
    if it in Walked(PagesOf(l, lot), last) {
      var p := ConcatSource(part, last, it);
      PageIs(l, lot, p);
      assert it in PageOf(l, lot, p).items;
      var id := GatherSource(l.page(lot, p).ids, Entries(l.alias), it);
      AliasMember(l.alias(id), it);
    }
    if p: nat, id :| 1 <= p <= last && l.page(lot, p).ListPage? && id in l.page(lot, p).ids && AliasReadsAs(l.alias(id), it) {
      PageIs(l, lot, p);
      AliasMember(l.alias(id), it);
      PageHolds(l, lot, p, id, it);
      ConcatMember(part, last, p, it);
    }
  }

  /** A lot reads exactly if it ends within 100 pages, and then lists exactly what the ids on them read as. */
  lemma LotLists(l: Library, lot: nat, it: WatchItem)
    ensures LotAnswer(l, lot).Ok? <==> exists last: nat :: last <= 100 && LotEnds(l, lot, last)
    ensures forall last: nat :: last <= 100 && LotEnds(l, lot, last) ==>
              LotAnswer(l, lot).Ok? && (it in LotAnswer(l, lot).value <==> LotGives(l, lot, last, it))
  {
    var read := PagesOf(l, lot);
    EndUnique(read);
    forall last: nat ensures EndsAt(read, last) <==> LotEnds(l, lot, last) {
      LotEndIs(l, lot, last);
    }
    if last: nat :| last <= 100 && LotEnds(l, lot, last) {
      WalkedMember(l, lot, last, it);
    }
    if LotAnswer(l, lot).Ok? {
      var last := AnswerEnds(read);
      assert LotEnds(l, lot, last);
    }
  }

  /** Both lots end, and an id of one of them reads as the item, which is dated at the cursor or later. */
  ghost predicate Offers(l: Library, since: Instant, it: WatchItem) {
    exists m: nat, s: nat ::
      && m <= 100 && s <= 100 && LotEnds(l, 0, m) && LotEnds(l, 1, s)
      && (LotGives(l, 0, m, it) || LotGives(l, 1, s, it))
      && (since == 0 || since <= it.watchedAt)
  }

  /** A history holds exactly what the ids of both lots read as from the cursor on, the cursor's own instant
      included, if both lots end within 100 pages, and otherwise nothing. */
  lemma HistoryLists(l: Library, since: Instant, it: WatchItem)
    ensures it in HistoryAnswer(l, since) <==> Offers(l, since, it)
  {
    LotLists(l, 0, it);
    LotLists(l, 1, it);
    if LotAnswer(l, 0).Ok? && LotAnswer(l, 1).Ok? {
      var all := LotAnswer(l, 0).value + LotAnswer(l, 1).value;
      SelectMember(all, (x: WatchItem) => NotBefore(x, since), it);
    }
  }

  /** Reading a lot to its end lists exactly that; so it does when pages stand still and every alias answers. */
  ghost predicate Yields(l: Library, lot: nat, listing: seq<WatchItem>) {
    forall p: nat :: EndsAt(PagesOf(l, lot), p) ==> Walked(PagesOf(l, lot), p) == listing
  }

  /** A read is empty or leaves out only entries dated before the cursor, and keeps their order, if what it reads is
      the whole library, whatever fails. */
  lemma HistoryIsWindow(l: Library, since: Instant, movies: seq<WatchItem>, shows: seq<WatchItem>)
    requires Yields(l, 0, movies) && Yields(l, 1, shows)
    ensures HistoryAnswer(l, since) == [] || Window(HistoryAnswer(l, since), movies + shows, since)
  {
    SelectIsWindow(movies + shows, (it: WatchItem) => NotBefore(it, since), since);
  }

  const PAGE_TAKE: nat := 200

  /** The pages of a lot are cut from a list of ids that may gain ids at its front while they are read. */
  ghost predicate Paged(l: Library, lot: nat, ids: nat -> seq<string>) {
    && Paging.Grows(ids)
    && forall p: nat :: 1 <= p && l.page(lot, p).ListPage? ==>
         l.page(lot, p) == ListPage(Paging.Slice(ids(p), p, PAGE_TAKE), |ids(p)| > p * PAGE_TAKE)
  }

  lemma EndOfList(l: Library, lot: nat, ids: nat -> seq<string>, last: nat)
    requires Paged(l, lot, ids) && 1 <= last && PageOf(l, lot, last).Ended?
    ensures |ids(last)| <= last * PAGE_TAKE
  {
    Paging.SliceBounds(last, PAGE_TAKE);
    if l.page(lot, last).ids == [] {
      Paging.EmptySlice(ids(last), last, PAGE_TAKE);
    }
  }

  /** A page that was read gives everything its ids read as. */
  lemma PageHolds(l: Library, lot: nat, p: nat, id: string, it: WatchItem)
    requires !PageOf(l, lot, p).Broken? && id in l.page(lot, p).ids && it in ReadOne(l.alias(id))
    ensures it in ItemsOf(PagesOf(l, lot))(p)
  {
    GatherMember(l.page(lot, p).ids, Entries(l.alias), id, it);
  }

  lemma PageWithId(l: Library, lot: nat, ids: nat -> seq<string>, last: nat, id: string) returns (p: nat)
    requires Paged(l, lot, ids) && EndsAt(PagesOf(l, lot), last) && id in ids(1)
    ensures 1 <= p <= last && !PageOf(l, lot, p).Broken? && id in l.page(lot, p).ids
  {
    EndOfList(l, lot, ids, last);
    p := Paging.NothingMissed(ids, PAGE_TAKE, last, id);
    assert !PagesOf(l, lot)(p).Broken?;
  }

  lemma AnswerEnds(read: nat -> PageRead) returns (last: nat)
    requires WalkAnswer(read).Ok?
    ensures last <= PAGE_CAP && EndsAt(read, last) && WalkAnswer(read) == Ok(Walked(read, last))
  {
    last :| last <= PAGE_CAP && EndsAt(read, last) && WalkAnswer(read) == Ok(Walked(read, last));
  }

  /** A walk that ends returns everything read of every id that was listed when its first page was. */
  lemma WalkHolds(l: Library, lot: nat, ids: nat -> seq<string>, id: string, it: WatchItem)
    requires Paged(l, lot, ids) && LotAnswer(l, lot).Ok? && id in ids(1) && it in ReadOne(l.alias(id))
    ensures it in LotAnswer(l, lot).value
  {
    var read := PagesOf(l, lot);
    var last := AnswerEnds(read);
    var p := PageWithId(l, lot, ids, last, id);
    assert it in ItemsOf(read)(p) by {
      PageHolds(l, lot, p, id, it);
    }
    ConcatMember(ItemsOf(read), last, p, it);
  }

  /** A server that lists, when the first page of each lot is asked for, an id that reads as it for every entry held
      that is dated from since on and before until, however the lists shift afterwards. */
  ghost predicate Serves(l: Library, since: Instant, until: Instant, held: seq<WatchItem>,
      movies: nat -> seq<string>, shows: nat -> seq<string>) {
    && Paged(l, 0, movies) && Paged(l, 1, shows)
    && forall it :: it in held && !Protocol.Before(it, since) && it.watchedAt < until ==>
         Readable(l, movies(1), it) || Readable(l, shows(1), it)
  }

  ghost predicate Readable(l: Library, ids: seq<string>, it: WatchItem) {
    exists id :: id in ids && it in ReadOne(l.alias(id))
  }

  /** Whatever fails or shifts on the way, a read is empty or covers what the server held. */
  lemma HistoryCovers(l: Library, since: Instant, until: Instant, hash: WatchItem -> string, held: seq<WatchItem>,
      movies: nat -> seq<string>, shows: nat -> seq<string>)
    requires Serves(l, since, until, held, movies, shows)
    ensures HistoryAnswer(l, since) == [] || Covers(hash, HistoryAnswer(l, since), held, since, until)
  {
    if LotAnswer(l, 0).Ok? && LotAnswer(l, 1).Ok? {
      var all := LotAnswer(l, 0).value + LotAnswer(l, 1).value;
      forall it | it in held && !Protocol.Before(it, since) && it.watchedAt < until ensures HoldsHash(hash, HistoryAnswer(l, since), it) {
        if Readable(l, movies(1), it) {
          var id :| id in movies(1) && it in ReadOne(l.alias(id));
          WalkHolds(l, 0, movies, id, it);
        } else {
          var id :| id in shows(1) && it in ReadOne(l.alias(id));
          WalkHolds(l, 1, shows, id, it);
        }
        assert it in all;
        SelectMember(all, (x: WatchItem) => NotBefore(x, since), it);
      }
    }
  }

  /** Every item read is a movie or an episode. */
  lemma {:induction false} RowsListable(d: DetailPart, rows: seq<SeenRow>)
    ensures forall it :: it in RowItems(d, rows) ==> Listable(it)
  {
    if rows != [] {
      RowsListable(d, Init(rows));
    }
  }

  lemma ReadListable(ids: seq<string>, alias: string -> Alias)
    ensures forall it :: it in ReadEach(ids, alias) ==> Listable(it)
  {
    forall id, it | it in Entries(alias)(id) ensures Listable(it) {
      RowsListable(alias(id).details.value, alias(id).seen.value);
    }
    GatherAll(ids, Entries(alias), Listable);
  }

  lemma PageListable(l: Library, lot: nat, p: nat)
    ensures var r := PageOf(l, lot, p); !r.Broken? ==> forall it :: it in r.items ==> Listable(it)
  {
    if l.page(lot, p).ListPage? {
      ReadListable(l.page(lot, p).ids, l.alias);
    }
  }

  lemma LotAnswerListable(l: Library, lot: nat)
    ensures LotAnswer(l, lot).Ok? ==> forall it :: it in LotAnswer(l, lot).value ==> Listable(it)
  {
    var read := PagesOf(l, lot);
    if WalkAnswer(read).Ok? {
      var p := AnswerEnds(read);
      forall q: nat, it | it in ItemsOf(read)(q) ensures Listable(it) {
        PageListable(l, lot, q);
      }
      ConcatAll(ItemsOf(read), p, Listable);
    }
  }

  lemma HistoryListable(l: Library, since: Instant)
    ensures forall it :: it in HistoryAnswer(l, since) ==> Listable(it)
  {
    LotAnswerListable(l, 0);
    LotAnswerListable(l, 1);
    if LotAnswer(l, 0).Ok? && LotAnswer(l, 1).Ok? {
      forall it | it in HistoryAnswer(l, since) ensures Listable(it) {
        SelectMember(LotAnswer(l, 0).value + LotAnswer(l, 1).value, (x: WatchItem) => NotBefore(x, since), it);
      }
    }
  }
}
