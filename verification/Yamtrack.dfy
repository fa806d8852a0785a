/** The Yamtrack connector: one webhook per item (internal/yamtrack/yamtrack.go). */
module Yamtrack {
  import opened Text
  import opened Model
  import opened Lists
  import opened Engine
  import opened Options

  datatype Kind = Movie | Episode

  /** The stop event: provider ids are text; numbering and the series block ride on episodes only. */
  datatype Event = Event(
    kind: Kind, itemIds: map<string, string>, seriesName: string,
    numbering: Option<(int, int)>, seriesIds: Option<map<string, string>>)

  function ImdbIds(w: WatchItem): map<string, string> {
    if w.ids.imdb != "" then map["Imdb" := w.ids.imdb] else map[]
  }

  function WebhookPayload(w: WatchItem): Option<Event> {
    if w.mediaType == "movie" then
      if w.ids.tmdb == 0 then None
      else Some(Event(Movie, map["Tmdb" := Dec(w.ids.tmdb)] + ImdbIds(w), "", None, None))
    else if w.mediaType == "episode" then
      if w.ids.tmdb == 0 || (w.season == 0 && w.episode == 0) then None
      else Some(Event(Episode, ImdbIds(w), w.title, Some((w.season, w.episode)), Some(map["Tmdb" := Dec(w.ids.tmdb)])))
    else None
  }

  predicate Sendable(w: WatchItem) {
    WebhookPayload(w).Some?
  }

  /** Movies with a TMDB number, and numbered episodes of shows with one, can be sent. */
  ghost predicate CanSend(w: WatchItem) {
    w.ids.tmdb != 0 && (w.mediaType == "movie" || (w.mediaType == "episode" && (w.season != 0 || w.episode != 0)))
  }

  /** The item's TMDB number stands with the item itself for a movie and with the series for an episode, which alone
      has numbering and the series name; an IMDB id stands with the item, and nothing else does. */
  lemma PayloadSays(w: WatchItem)
    ensures Sendable(w) <==> CanSend(w)
    ensures Sendable(w) ==> var e := WebhookPayload(w).value;
      && (forall k :: k in e.itemIds ==> k == "Imdb" || (k == "Tmdb" && w.mediaType == "movie"))
      && ("Imdb" in e.itemIds <==> w.ids.imdb != "") && ("Imdb" in e.itemIds ==> e.itemIds["Imdb"] == w.ids.imdb)
      && (w.mediaType == "movie" ==>
            && e.kind == Movie && e.seriesName == "" && e.numbering == None && e.seriesIds == None
            && "Tmdb" in e.itemIds && e.itemIds["Tmdb"] == Dec(w.ids.tmdb))
      && (w.mediaType == "episode" ==>
            && e.kind == Episode && e.seriesName == w.title && e.numbering == Some((w.season, w.episode))
            && e.seriesIds == Some(map["Tmdb" := Dec(w.ids.tmdb)]))
  {
    if Sendable(w) {
      var e := WebhookPayload(w).value;
      assert w.ids.imdb != "" ==> "Imdb" in ImdbIds(w);
      assert w.mediaType == "movie" ==> "Tmdb" in e.itemIds && e.itemIds["Tmdb"] == Dec(w.ids.tmdb);
    }
  }

  /** What the intake receives pins the entry down: equal events mean the same kind, the same TMDB id and, for
      episodes, the same numbering; an episode never carries an item-level id other than its IMDB id. */
  lemma PayloadPinsEntry(w: WatchItem, v: WatchItem)
    requires Sendable(w) && Sendable(v)
    ensures WebhookPayload(w) == WebhookPayload(v) ==>
              && w.mediaType == v.mediaType && w.ids.tmdb == v.ids.tmdb && w.ids.imdb == v.ids.imdb
              && (w.mediaType == "episode" ==> w.season == v.season && w.episode == v.episode)
    ensures w.mediaType == "episode" ==> WebhookPayload(w).value.itemIds.Keys <= {"Imdb"}
  {
    DecRoundTrip(w.ids.tmdb);
    DecRoundTrip(v.ids.tmdb);
    if WebhookPayload(w) == WebhookPayload(v) {
      var a, b := WebhookPayload(w).value, WebhookPayload(v).value;
      assert "Imdb" in a.itemIds <==> w.ids.imdb != "";
      assert "Imdb" in b.itemIds <==> v.ids.imdb != "";
      assert w.mediaType == v.mediaType;
      assert w.mediaType == "movie" ==> a.itemIds["Tmdb"] == Dec(w.ids.tmdb) && b.itemIds["Tmdb"] == Dec(v.ids.tmdb);
      assert w.mediaType == "episode" ==>
        a.seriesIds.value["Tmdb"] == Dec(w.ids.tmdb) && b.seriesIds.value["Tmdb"] == Dec(v.ids.tmdb);
    }
  }

  /** How many of the first n posts, counted from j, succeed before the first failure. */
  function Leading(post: nat -> bool, j: nat, n: nat): (r: nat)
    requires j <= n
    ensures j <= r <= n
    ensures forall k: nat :: j <= k < r ==> post(k)
    ensures r < n ==> !post(r)
    decreases n - j
  {
    if j == n || !post(j) then j else Leading(post, j + 1, n)
  }

  lemma LeadingIs(post: nat -> bool, r: nat, n: nat)
    requires r <= n && (forall k: nat :: k < r ==> post(k)) && (r < n ==> !post(r))
    ensures Leading(post, 0, n) == r
  {
    var l := Leading(post, 0, n);
    if r < n {
      assert r < l ==> post(r);
    }
  }

  /** Push as a function: the sendable items up to the first failing post. */
  function Reply(items: seq<WatchItem>, post: nat -> bool): PushReply {
    var sendable := Select(items, Sendable);
    var n := Leading(post, 0, |sendable|);
    PushReply(sendable[..n], n < |sendable|)
  }

  method Push(items: seq<WatchItem>, post: nat -> bool) returns (reply: PushReply, posts: nat)
    ensures reply == Reply(items, post)
    ensures posts == |reply.delivered| + if reply.failed then 1 else 0
  {
    var delivered: seq<WatchItem> := [];
    posts := 0;
    assert items[..|items|] == items;
    for i := 0 to |items|
      invariant delivered == Select(items[..i], Sendable)
      invariant posts == |delivered|
      invariant forall k: nat :: k < posts ==> post(k)
    {
      SelectNext(items, i, Sendable);
      if !WebhookPayload(items[i]).Some? {
        continue;
      }
      var ok := post(posts);
      posts := posts + 1;
      if !ok {
        SelectGrows(items, i + 1, Sendable);
        LeadingIs(post, |delivered|, |Select(items, Sendable)|);
        return PushReply(delivered, true), posts;
      }
      delivered := delivered + [items[i]];
    }
    LeadingIs(post, |delivered|, |delivered|);
    return PushReply(delivered, false), posts;
  }

  lemma {:induction false} SelectGrows(items: seq<WatchItem>, i: nat, p: WatchItem -> bool)
    requires i <= |items|
    ensures Select(items[..i], p) <= Select(items, p)
    decreases |items| - i
  {
    if i == |items| {
      assert items[..i] == items;
    } else {
      SelectGrows(items, i + 1, p);
      SelectNext(items, i, p);
    }
  }

  /** Whatever the intake answers, what is reported delivered is part of what was offered; a clean answer means
      every sendable item arrived, and an error leaves out the item whose post failed and everything after it. */
  lemma ReplyKeepsContract(items: seq<WatchItem>, post: nat -> bool)
    ensures var r, sendable := Reply(items, post), Select(items, Sendable);
      && Subseq(r.delivered, items)
      && (!r.failed <==> r.delivered == sendable)
      && (r.failed ==> r.delivered + [sendable[|r.delivered|]] <= sendable && !post(|r.delivered|))
      && (forall k: nat :: k < |r.delivered| ==> post(k))
  {
    SelectIsSubseq(items, Sendable);
    var r, sendable := Reply(items, post), Select(items, Sendable);
    PrefixSubseq(r.delivered, sendable);
    SubseqTransitive(r.delivered, sendable, items);
  }
}
