/** The Simkl connector: deduplicated category reads, the activity dirty-check, the grouped push and the
    request throttle (internal/simkl/client.go). */
module Simkl {
  import opened Calendar
  import opened Model
  import opened Lists
  import opened StoreModel
  import opened Engine
  import P = Protocol
  import opened Windows

  // ---------- one category ----------

  /** Timestamps are already parsed; the zero time stands for an empty or unparseable one. */
  datatype Media = Media(title: string, year: int, ids: IDs)
  datatype EpisodeEntry = EpisodeEntry(number: int, watchedAt: Instant)
  datatype Season = Season(number: int, episodes: seq<EpisodeEntry>)
  datatype ListEntry = ListEntry(lastWatchedAt: Instant, movie: Media, show: Media, seasons: seq<Season>)

  datatype BucketAnswer = NoBucket | Bucket(list: seq<ListEntry>)

  function ToIds(ids: IDs): IDs {
    ids.(trakt := 0)
  }

  function MovieItem(e: ListEntry): WatchItem {
    WatchItem(ToIds(e.movie.ids), "movie", e.movie.title, e.movie.year, 0, 0, e.lastWatchedAt)
  }

  function ShowOf(e: ListEntry): Media {
    if e.show.title == "" && e.movie.title != "" then e.movie else e.show
  }

  function EpisodeItem(s: Media, season: int, ep: EpisodeEntry): WatchItem {
    WatchItem(ToIds(s.ids), "episode", s.title, s.year, season, ep.number, ep.watchedAt)
  }

  function EpisodesOf(s: Media, season: int, eps: seq<EpisodeEntry>): seq<WatchItem> {
    if eps == [] then [] else EpisodesOf(s, season, Init(eps)) + [EpisodeItem(s, season, Last(eps))]
  }

  function SeasonsOf(s: Media, seasons: seq<Season>): seq<WatchItem> {
    if seasons == [] then []
    else SeasonsOf(s, Init(seasons)) + EpisodesOf(s, Last(seasons).number, Last(seasons).episodes)
  }

  function EntriesOf(cat: string, list: seq<ListEntry>): seq<WatchItem> {
    Gather(list, ItemsIn(cat))
  }

  function ItemsIn(cat: string): ListEntry -> seq<WatchItem> {
    (e: ListEntry) => EntryItems(cat, e)
  }

  function EntryItems(cat: string, e: ListEntry): seq<WatchItem> {
    if cat == "movies" then [MovieItem(e)] else SeasonsOf(ShowOf(e), e.seasons)
  }

  function BucketItems(cat: string, a: BucketAnswer): seq<WatchItem> {
    match a case Bucket(list) => EntriesOf(cat, list) case NoBucket => []
  }

  /** Everything the buckets list, flattened in reading order. */
  function Flattened(cat: string, buckets: seq<BucketAnswer>): seq<WatchItem> {
    if buckets == [] then [] else Flattened(cat, Init(buckets)) + BucketItems(cat, Last(buckets))
  }

  predicate Dated(it: WatchItem) {
    !IsZero(it.watchedAt)
  }

  function Hashes(s: seq<WatchItem>, hash: WatchItem -> string): set<string> {
    set it | it in s :: hash(it)
  }

  /** The first dated occurrence of each hash. */
  function Firsts(s: seq<WatchItem>, hash: WatchItem -> string): seq<WatchItem> {
    if s == [] then []
    else
      var earlier, it := Firsts(Init(s), hash), Last(s);
      if !Dated(it) || hash(it) in Hashes(earlier, hash) then earlier else earlier + [it]
  }

  /** The collector that every nesting level of the loop feeds: out and seen move together. */
  ghost predicate Collected(out: seq<WatchItem>, seen: set<string>, read: seq<WatchItem>, hash: WatchItem -> string) {
    out == Firsts(read, hash) && seen == Hashes(out, hash)
  }

  method Collect(it: WatchItem, hash: WatchItem -> string, out: seq<WatchItem>, seen: set<string>,
      ghost read: seq<WatchItem>)
    returns (out': seq<WatchItem>, seen': set<string>)
    requires Collected(out, seen, read, hash)
    ensures Collected(out', seen', read + [it], hash)
  {
    assert Init(read + [it]) == read;
    if IsZero(it.watchedAt) {
      return out, seen;
    }
    var h := hash(it);
    if h in seen {
      return out, seen;
    }
    out', seen' := out + [it], seen + {h};
    assert forall x :: x in out' <==> x in out || x == it;
  }

  lemma EpisodesNext(s: Media, season: int, eps: seq<EpisodeEntry>, j: nat, read: seq<WatchItem>)
    requires j < |eps|
    ensures read + EpisodesOf(s, season, eps[..j + 1]) == read + EpisodesOf(s, season, eps[..j]) + [EpisodeItem(s, season, eps[j])]
  {
    assert Init(eps[..j + 1]) == eps[..j];
  }

  lemma SeasonsNext(s: Media, seasons: seq<Season>, i: nat, read: seq<WatchItem>)
    requires i < |seasons|
    ensures read + SeasonsOf(s, seasons[..i + 1])
            == read + SeasonsOf(s, seasons[..i]) + EpisodesOf(s, seasons[i].number, seasons[i].episodes)
  {
    assert Init(seasons[..i + 1]) == seasons[..i];
  }

  method CollectShow(e: ListEntry, hash: WatchItem -> string, out: seq<WatchItem>, seen: set<string>,
      ghost read: seq<WatchItem>)
    returns (out': seq<WatchItem>, seen': set<string>)
    requires Collected(out, seen, read, hash)
    ensures Collected(out', seen', read + SeasonsOf(ShowOf(e), e.seasons), hash)
  {
    out', seen' := out, seen;
    var s := ShowOf(e);
    assert read + [] == read;
    for i := 0 to |e.seasons|
      invariant Collected(out', seen', read + SeasonsOf(s, e.seasons[..i]), hash)
    {
      var sn := e.seasons[i];
      ghost var before := read + SeasonsOf(s, e.seasons[..i]);
      assert before + EpisodesOf(s, sn.number, sn.episodes[..0]) == before;
      for j := 0 to |sn.episodes|
        invariant Collected(out', seen', before + EpisodesOf(s, sn.number, sn.episodes[..j]), hash)
      {
        ghost var upTo := before + EpisodesOf(s, sn.number, sn.episodes[..j]);
        out', seen' := Collect(EpisodeItem(s, sn.number, sn.episodes[j]), hash, out', seen', upTo);
        EpisodesNext(s, sn.number, sn.episodes, j, before);
      }
      assert sn.episodes[..|sn.episodes|] == sn.episodes;
      SeasonsNext(s, e.seasons, i, read);
    }
    assert e.seasons[..|e.seasons|] == e.seasons;
  }

  lemma EntriesNext(cat: string, list: seq<ListEntry>, i: nat, read: seq<WatchItem>)
    requires i < |list|
    ensures read + EntriesOf(cat, list[..i + 1]) == read + EntriesOf(cat, list[..i]) + EntryItems(cat, list[i])
  {
    GatherNext(list, i, ItemsIn(cat));
  }

  lemma FlattenedNext(cat: string, buckets: seq<BucketAnswer>, b: nat)
    requires b < |buckets| && buckets[b].Bucket?
    ensures Flattened(cat, buckets[..b + 1]) == Flattened(cat, buckets[..b]) + EntriesOf(cat, buckets[b].list)
  {
    assert Init(buckets[..b + 1]) == buckets[..b];
  }

  method CollectBucket(cat: string, list: seq<ListEntry>, hash: WatchItem -> string, out: seq<WatchItem>,
      seen: set<string>,
                       ghost read: seq<WatchItem>)
    returns (out': seq<WatchItem>, seen': set<string>)
    requires Collected(out, seen, read, hash)
    ensures Collected(out', seen', read + EntriesOf(cat, list), hash)
  {
    out', seen' := out, seen;
    assert read + [] == read;
    for i := 0 to |list|
      invariant Collected(out', seen', read + EntriesOf(cat, list[..i]), hash)
    {
      ghost var upTo := read + EntriesOf(cat, list[..i]);
      EntriesNext(cat, list, i, read);
      if cat == "movies" {
        out', seen' := Collect(MovieItem(list[i]), hash, out', seen', upTo);
      } else {
        out', seen' := CollectShow(list[i], hash, out', seen', upTo);
      }
    }
    assert list[..|list|] == list;
  }

  /** Movies are read from one bucket, shows and anime from two. */
  function BucketCount(cat: string): nat {
    if cat == "movies" then 1 else 2
  }

  function Category(cat: string, buckets: seq<BucketAnswer>, hash: WatchItem -> string): Answer<seq<WatchItem>> {
    if NoBucket in buckets then Err else Ok(Firsts(Flattened(cat, buckets), hash))
  }

  /** The nested reading loops compute exactly the first dated occurrence of each hash in the flattened lists;
      a bucket that does not answer fails the read. */
  method FetchCategory(cat: string, buckets: seq<BucketAnswer>,
      hash: WatchItem -> string) returns (r: Answer<seq<WatchItem>>)
    requires |buckets| == BucketCount(cat)
    ensures r == Category(cat, buckets, hash)
  {
    var out: seq<WatchItem>, seen: set<string> := [], {};
    for b := 0 to |buckets|
      invariant NoBucket !in buckets[..b]
      invariant Collected(out, seen, Flattened(cat, buckets[..b]), hash)
    {
      var answer := buckets[b];
      if answer.NoBucket? {
        return Err;
      }
      out, seen := CollectBucket(cat, answer.list, hash, out, seen, Flattened(cat, buckets[..b]));
      FlattenedNext(cat, buckets, b);
    }
    assert buckets[..|buckets|] == buckets;
    r := Ok(out);
  }

  /** No hash comes out twice, nothing undated comes out, order is kept, and no dated entry's hash is lost. */
  lemma {:induction false} FirstsAreExact(s: seq<WatchItem>, hash: WatchItem -> string)
    ensures var out := Firsts(s, hash);
      && Subseq(out, s)
      && (forall i, j :: 0 <= i < j < |out| ==> hash(out[i]) != hash(out[j]))
      && (forall it :: it in out ==> it in s && Dated(it))
      && (forall it :: it in s && Dated(it) ==> hash(it) in Hashes(out, hash))
  {
    if s != [] {
      FirstsAreExact(Init(s), hash);
      assert s == Init(s) + [Last(s)];
      var earlier := Firsts(Init(s), hash);
      SubseqSnoc(earlier, Init(s), Last(s));
      forall i | 0 <= i < |earlier| ensures hash(earlier[i]) in Hashes(earlier, hash) {}
      forall h | h in Hashes(earlier, hash) ensures h in Hashes(Firsts(s, hash), hash) {
        var x :| x in earlier && hash(x) == h;
        assert x in Firsts(s, hash);
      }
    }
  }

  /** Each entry kept is the first dated one with its hash. */
  lemma {:induction false} FirstsKeepFirst(s: seq<WatchItem>, hash: WatchItem -> string, i: nat)
    requires i < |s| && Dated(s[i]) && forall k :: 0 <= k < i ==> !Dated(s[k]) || hash(s[k]) != hash(s[i])
    ensures s[i] in Firsts(s, hash)
  {
    if i == |s| - 1 {
      FirstsAreExact(Init(s), hash);
      forall x | x in Firsts(Init(s), hash) ensures hash(x) != hash(s[i]) {
        var k :| 0 <= k < i && Init(s)[k] == x;
        assert s[k] == x;
      }
    } else {
      FirstsKeepFirst(Init(s), hash, i);
    }
  }

  // ---------- what an entry reads as ----------

  /** The show object of an entry, or its movie object when only that one is named. */
  ghost predicate Names(e: ListEntry, s: Media) {
    if e.show.title == "" && e.movie.title != "" then s == e.movie else s == e.show
  }

  /** The item is the episode: the title, year and ids of the show, the numbers of season and episode, and the
      instant the episode was watched; Simkl has no Trakt ids. */
  ghost predicate EpisodeReadsAs(s: Media, sn: Season, ep: EpisodeEntry, it: WatchItem) {
    && it.mediaType == "episode" && it.season == sn.number && it.episode == ep.number && it.watchedAt == ep.watchedAt
    && it.title == s.title && it.year == s.year && it.ids.trakt == 0 && it.ids.simkl == s.ids.simkl
    && it.ids.imdb == s.ids.imdb && it.ids.tmdb == s.ids.tmdb && it.ids.tvdb == s.ids.tvdb
  }

  /** The item is the movie, watched at the last instant of its entry. */
  ghost predicate MovieReadsAs(e: ListEntry, it: WatchItem) {
    && it.mediaType == "movie" && it.season == 0 && it.episode == 0 && it.watchedAt == e.lastWatchedAt
    && it.title == e.movie.title && it.year == e.movie.year && it.ids.trakt == 0 && it.ids.simkl == e.movie.ids.simkl
    && it.ids.imdb == e.movie.ids.imdb && it.ids.tmdb == e.movie.ids.tmdb && it.ids.tvdb == e.movie.ids.tvdb
  }

  /** Some season of the entry has an episode that reads as the item. */
  ghost predicate ShowReadsAs(e: ListEntry, it: WatchItem) {
    exists s, sn, ep :: Names(e, s) && sn in e.seasons && ep in sn.episodes && EpisodeReadsAs(s, sn, ep, it)
  }

  ghost predicate EntryReadsAs(cat: string, e: ListEntry, it: WatchItem) {
    if cat == "movies" then MovieReadsAs(e, it) else ShowReadsAs(e, it)
  }

  /** Some entry of some bucket reads as the item. */
  ghost predicate Gives(cat: string, buckets: seq<BucketAnswer>, it: WatchItem) {
    exists b, e :: b in buckets && b.Bucket? && e in b.list && EntryReadsAs(cat, e, it)
  }

  lemma {:induction false} EpisodesMember(s: Media, sn: Season, eps: seq<EpisodeEntry>, it: WatchItem)
    ensures it in EpisodesOf(s, sn.number, eps) <==> exists ep :: ep in eps && EpisodeReadsAs(s, sn, ep, it)
  {
    if eps != [] {
      EpisodesMember(s, sn, Init(eps), it);
      assert eps == Init(eps) + [Last(eps)];
      assert it == EpisodeItem(s, sn.number, Last(eps)) <==> EpisodeReadsAs(s, sn, Last(eps), it);
    }
  }

  ghost predicate SeasonReadsAs(s: Media, sn: Season, it: WatchItem) {
    exists ep :: ep in sn.episodes && EpisodeReadsAs(s, sn, ep, it)
  }

  lemma {:induction false} SeasonsMember(s: Media, seasons: seq<Season>, it: WatchItem)
    ensures it in SeasonsOf(s, seasons) <==> exists sn :: sn in seasons && SeasonReadsAs(s, sn, it)
  {
    if seasons != [] {
      SeasonsMember(s, Init(seasons), it);
      assert seasons == Init(seasons) + [Last(seasons)];
      EpisodesMember(s, Last(seasons), Last(seasons).episodes, it);
      assert it in SeasonsOf(s, seasons)
        <==> it in SeasonsOf(s, Init(seasons)) || SeasonReadsAs(s, Last(seasons), it);
    }
  }

  lemma EntryMember(cat: string, e: ListEntry, it: WatchItem)
    ensures it in EntryItems(cat, e) <==> EntryReadsAs(cat, e, it)
  {
    if cat == "movies" {
      assert it == MovieItem(e) <==> MovieReadsAs(e, it);
    } else {
      SeasonsMember(ShowOf(e), e.seasons, it);
      assert Names(e, ShowOf(e)) && forall s :: Names(e, s) ==> s == ShowOf(e);
      if sn :| sn in e.seasons && SeasonReadsAs(ShowOf(e), sn, it) {
        var ep :| ep in sn.episodes && EpisodeReadsAs(ShowOf(e), sn, ep, it);
      }
      if s, sn, ep :| Names(e, s) && sn in e.seasons && ep in sn.episodes && EpisodeReadsAs(s, sn, ep, it) {
        assert SeasonReadsAs(s, sn, it);
      }
    }
  }

  lemma ListMember(cat: string, list: seq<ListEntry>, it: WatchItem)
    ensures it in EntriesOf(cat, list) <==> exists e :: e in list && EntryReadsAs(cat, e, it)
  {
    if it in EntriesOf(cat, list) {
      var e := GatherSource(list, ItemsIn(cat), it);
      EntryMember(cat, e, it);
    }
    if e :| e in list && EntryReadsAs(cat, e, it) {
      EntryMember(cat, e, it);
      GatherMember(list, ItemsIn(cat), e, it);
    }
  }

  lemma {:induction false} FlattenedMember(cat: string, buckets: seq<BucketAnswer>, it: WatchItem)
    ensures it in Flattened(cat, buckets) <==> Gives(cat, buckets, it)
  {
    if buckets != [] {
      var init, last := Init(buckets), Last(buckets);
      FlattenedMember(cat, init, it);
      assert buckets == init + [last];
      if last.Bucket? {
        ListMember(cat, last.list, it);
      }
      GivesSnoc(cat, init, last, it);
    }
  }

  lemma GivesSnoc(cat: string, buckets: seq<BucketAnswer>, b: BucketAnswer, it: WatchItem)
    ensures Gives(cat, buckets + [b], it)
            <==> Gives(cat, buckets, it) || (b.Bucket? && exists e :: e in b.list && EntryReadsAs(cat, e, it))
  {
  }

  /** A category reads if every bucket answers. It then lists dated items only, each of which some entry of some
      bucket reads as, and for each dated item that an entry reads as one with its hash. */
  lemma CategoryGives(cat: string, buckets: seq<BucketAnswer>, hash: WatchItem -> string, it: WatchItem)
    ensures Category(cat, buckets, hash).Ok? <==> NoBucket !in buckets
    ensures NoBucket !in buckets ==>
      && (it in Category(cat, buckets, hash).value ==> it.watchedAt != 0 && Gives(cat, buckets, it))
      && (it.watchedAt != 0 && Gives(cat, buckets, it) ==>
            exists w :: w in Category(cat, buckets, hash).value && hash(w) == hash(it))
  {
    var read := Flattened(cat, buckets);
    FirstsAreExact(read, hash);
    FlattenedMember(cat, buckets, it);
  }

  // ---------- dirty-checked history ----------

  const CATEGORIES: seq<string> := ["movies", "shows", "anime"]

  /** activity(k) is the parsed activity time of category k; zero when missing or unparseable. */
  predicate Skips(activity: nat -> Instant, since: Instant, k: nat) {
    !IsZero(since) && !IsZero(activity(k)) && activity(k) <= since
  }

  /** The concatenated answers of the first n categories, skipped ones contributing nothing. */
  function Joined(activity: nat -> Instant, since: Instant, fetch: nat -> Answer<seq<WatchItem>>,
      n: nat): Answer<seq<WatchItem>> {
    if n == 0 then Ok([])
    else match Joined(activity, since, fetch, n - 1)
      case Err => Err
      case Ok(earlier) =>
        if Skips(activity, since, n - 1) then Ok(earlier)
        else match fetch(n - 1) { case Err => Err case Ok(items) => Ok(earlier + items) }
  }

  /** A server: whether and with which times it answers the activity request, and its bucket lists by category
      and date_from. */
  datatype Service = Service(activitiesUp: bool, activity: nat -> Instant, buckets: (nat, Instant) -> seq<BucketAnswer>)

  function Fetched(sv: Service, since: Instant, hash: WatchItem -> string): nat -> Answer<seq<WatchItem>> {
    (k: nat) => if k < |CATEGORIES| then Category(CATEGORIES[k], sv.buckets(k, since), hash) else Err
  }

  function HistoryAnswer(sv: Service, since: Instant, hash: WatchItem -> string): Answer<seq<WatchItem>> {
    if sv.activitiesUp then Joined(sv.activity, since, Fetched(sv, since, hash), |CATEGORIES|) else Err
  }

  /** The activity request, then the categories in order, a failing one failing the read. */
  method History(sv: Service, since: Instant, hash: WatchItem -> string) returns (r: Answer<seq<WatchItem>>)
    requires forall k: nat :: k < |CATEGORIES| ==> |sv.buckets(k, since)| == BucketCount(CATEGORIES[k])
    ensures r == HistoryAnswer(sv, since, hash)
  {
    if !sv.activitiesUp {
      return Err;
    }
    var out: seq<WatchItem> := [];
    ghost var fetch := Fetched(sv, since, hash);
    for k := 0 to |CATEGORIES|
      invariant Joined(sv.activity, since, fetch, k) == Ok(out)
    {
      JoinedNext(sv.activity, since, fetch, k, out);
      if !IsZero(since) {
        var t := sv.activity(k);
        if !IsZero(t) && t <= since {
          continue;
        }
      }
      var items := FetchCategory(CATEGORIES[k], sv.buckets(k, since), hash);
      if items.Err? {
        JoinedFails(sv.activity, since, fetch, k + 1, |CATEGORIES|);
        return Err;
      }
      out := out + items.value;
    }
    r := Ok(out);
  }

  lemma JoinedNext(activity: nat -> Instant, since: Instant, fetch: nat -> Answer<seq<WatchItem>>, k: nat,
      out: seq<WatchItem>)
    requires Joined(activity, since, fetch, k) == Ok(out)
    ensures Joined(activity, since, fetch, k + 1)
            == if Skips(activity, since, k) then Ok(out) else if fetch(k).Err? then Err else Ok(out + fetch(k).value)
  {
  }

  lemma {:induction false} JoinedFails(activity: nat -> Instant, since: Instant,
      fetch: nat -> Answer<seq<WatchItem>>, k: nat, n: nat)
    requires k <= n && Joined(activity, since, fetch, k).Err?
    ensures Joined(activity, since, fetch, n).Err?
    decreases n - k
  {
    if k < n {
      JoinedFails(activity, since, fetch, k, n - 1);
    }
  }

  /** The dirty-check loses nothing: if each known activity time bounds the change times of its category and a
      fetch with date_from lists at least every entry changed after since, then every entry changed after
      since that an unconditional read would return is in the dirty-checked one. */
  lemma {:induction false} DirtyCheckLossless(activity: nat -> Instant, since: Instant,
      full: nat -> seq<WatchItem>, fetch: nat -> Answer<seq<WatchItem>>, changed: WatchItem -> Instant, n: nat, k: nat, it: WatchItem)
    requires forall c: nat, x :: x in full(c) && !IsZero(activity(c)) ==> changed(x) <= activity(c)
    requires forall c: nat :: fetch(c).Ok? ==> forall x :: x in full(c) && (IsZero(since) || since < changed(x)) ==> x in fetch(c).value
    requires Joined(activity, since, fetch, n).Ok?
    requires k < n && it in full(k) && (IsZero(since) || since < changed(it))
    ensures it in Joined(activity, since, fetch, n).value
  {
    if k < n - 1 {
      DirtyCheckLossless(activity, since, full, fetch, changed, n - 1, k, it);
    }
  }

  /** A fetch with date_from lists nothing but the category and, of it, at least what changed after since. */
  ghost predicate Fetches(full: nat -> seq<WatchItem>, fetch: nat -> Answer<seq<WatchItem>>, since: Instant,
      changed: WatchItem -> Instant) {
    forall c: nat :: fetch(c).Ok? ==>
      && (forall x :: x in fetch(c).value ==> x in full(c))
      && (forall x :: x in full(c) && (IsZero(since) || since < changed(x)) ==> x in fetch(c).value)
  }

  /** An entry changed after since is read exactly if some category that lists it is not skipped. */
  lemma {:induction false} ReadExactly(activity: nat -> Instant, since: Instant,
      full: nat -> seq<WatchItem>, fetch: nat -> Answer<seq<WatchItem>>, changed: WatchItem -> Instant, n: nat, it: WatchItem)
    requires Fetches(full, fetch, since, changed) && Joined(activity, since, fetch, n).Ok?
    requires IsZero(since) || since < changed(it)
    ensures it in Joined(activity, since, fetch, n).value
            <==> exists k: nat :: k < n && it in full(k) && !Skips(activity, since, k)
  {
    if n > 0 {
      ReadExactly(activity, since, full, fetch, changed, n - 1, it);
      assert !Skips(activity, since, n - 1) ==> (it in fetch(n - 1).value <==> it in full(n - 1));
    }
  }

  function SecondOf(t: Instant): int {
    t / SECOND
  }

  /** A category whose activity time is its latest change cut to the second, and that changed after the cursor,
      is skipped exactly when the latest change falls into the cursor's own second. */
  lemma SecondSkipsExactly(activity: nat -> Instant, since: Instant, k: nat, latest: Instant)
    requires !IsZero(since) && since < latest && activity(k) == SecondOf(latest) * SECOND
    ensures Skips(activity, since, k) <==> SecondOf(latest) != 0 && SecondOf(latest) == SecondOf(since)
  {
    var a, b := SecondOf(latest), SecondOf(since);
    assert a * SECOND <= latest < (a + 1) * SECOND && b * SECOND <= since < (b + 1) * SECOND;
  }

  /** With activity times cut to the second the dirty-check loses an entry changed after the cursor exactly when
      every category listing it last changed within the cursor's own second. */
  lemma {:induction false} SecondGranularityExactly(activity: nat -> Instant, since: Instant, full: nat -> seq<WatchItem>,
      fetch: nat -> Answer<seq<WatchItem>>, changed: WatchItem -> Instant, latest: nat -> Instant, n: nat, it: WatchItem)
    requires Fetches(full, fetch, since, changed) && Joined(activity, since, fetch, n).Ok?
    requires !IsZero(since) && since < changed(it)
    requires forall k: nat :: k < n ==> activity(k) == SecondOf(latest(k)) * SECOND
    requires forall k: nat, x :: k < n && x in full(k) ==> changed(x) <= latest(k)
    ensures it in Joined(activity, since, fetch, n).value
            <==> exists k: nat :: k < n && it in full(k) && (SecondOf(latest(k)) == 0 || SecondOf(latest(k)) != SecondOf(since))
  {
    ReadExactly(activity, since, full, fetch, changed, n, it);
    forall k: nat | k < n && it in full(k)
      ensures Skips(activity, since, k) <==> SecondOf(latest(k)) != 0 && SecondOf(latest(k)) == SecondOf(since)
    {
      SecondSkipsExactly(activity, since, k, latest(k));
    }
  }

  /** An instance: a category of one entry that changed after the cursor but within its second. */
  lemma SecondGranularityLoses(it: WatchItem, since: Instant, at: Instant)
    returns (full: nat -> seq<WatchItem>, changed: WatchItem -> Instant, activity: nat -> Instant, fetch: nat -> Answer<seq<WatchItem>>)
    requires !IsZero(since) && since < at && SecondOf(at) == SecondOf(since) != 0
    ensures full(0) == [it] && fetch(0) == Ok([it]) && changed(it) == at && activity(0) == SecondOf(at) * SECOND
    ensures Fetches(full, fetch, since, changed) && Joined(activity, since, fetch, 1).Ok?
    ensures it !in Joined(activity, since, fetch, 1).value
  {
    full, changed := (k: nat) => [it], (x: WatchItem) => at;
    activity, fetch := (k: nat) => SecondOf(at) * SECOND, (k: nat) => Ok([it]);
    assert Joined(activity, since, fetch, 0) == Ok([]);
    SecondGranularityExactly(activity, since, full, fetch, changed, (k: nat) => at, 1, it);
  }

  // ---------- the dirty-checked history as a window ----------

  /** What reading the first n categories unconditionally gives. */
  function FullHistory(full: nat -> seq<WatchItem>, n: nat): seq<WatchItem> {
    if n == 0 then [] else FullHistory(full, n - 1) + full(n - 1)
  }

  /** Leaving out a category that holds nothing dated after the cursor fits the engine's hypothesis exactly if
      it holds nothing dated at the cursor itself either. */
  lemma {:induction false} SkipIsWindowExactly(entries: seq<WatchItem>, since: Instant)
    requires !IsZero(since) && forall x :: x in entries ==> x.watchedAt <= since
    ensures P.Window([], entries, since) <==> forall x :: x in entries ==> x.watchedAt != since
  {
    if entries != [] {
      assert entries == Init(entries) + [Last(entries)];
      SkipIsWindowExactly(Init(entries), since);
    }
  }

  /** No skipped category holds an entry dated exactly at the cursor. */
  ghost predicate NoneAtCursor(activity: nat -> Instant, since: Instant, full: nat -> seq<WatchItem>, n: nat) {
    forall c: nat, x :: c < n && x in full(c) && Skips(activity, since, c) ==> x.watchedAt != since
  }

  ghost predicate FetchesWindows(full: nat -> seq<WatchItem>, fetch: nat -> Answer<seq<WatchItem>>, since: Instant) {
    forall c: nat :: fetch(c).Ok? ==> P.Window(fetch(c).value, full(c), since)
  }

  ghost predicate SkippedAreOld(activity: nat -> Instant, since: Instant, full: nat -> seq<WatchItem>, n: nat) {
    forall c: nat, x :: c < n && x in full(c) && Skips(activity, since, c) ==> x.watchedAt <= since
  }

  /** The dirty-checked history leaves out only entries dated before the cursor exactly if no skipped category
      holds one dated at the cursor, given that a fetch does, that an entry changes no earlier than it was
      watched, and that known activity times bound change times. */
  lemma HistoryIsWindowExactly(activity: nat -> Instant, since: Instant,
      full: nat -> seq<WatchItem>, fetch: nat -> Answer<seq<WatchItem>>, changed: WatchItem -> Instant, n: nat)
    requires forall c: nat, x :: c < n && x in full(c) ==>
               x.watchedAt <= changed(x) && (IsZero(activity(c)) || changed(x) <= activity(c))
    requires FetchesWindows(full, fetch, since) && Joined(activity, since, fetch, n).Ok?
    ensures P.Window(Joined(activity, since, fetch, n).value, FullHistory(full, n), since)
            <==> NoneAtCursor(activity, since, full, n)
  {
    JoinedIsWindowExactly(activity, since, full, fetch, n);
  }

  lemma JoinedIsWindowExactly(activity: nat -> Instant, since: Instant,
      full: nat -> seq<WatchItem>, fetch: nat -> Answer<seq<WatchItem>>, n: nat)
    requires SkippedAreOld(activity, since, full, n)
    requires FetchesWindows(full, fetch, since) && Joined(activity, since, fetch, n).Ok?
    ensures P.Window(Joined(activity, since, fetch, n).value, FullHistory(full, n), since)
            <==> NoneAtCursor(activity, since, full, n)
  {
    if NoneAtCursor(activity, since, full, n) {
      JoinedIsWindow(activity, since, full, fetch, n);
    } else {
      var c: nat, x :| c < n && x in full(c) && Skips(activity, since, c) && x.watchedAt == since;
      JoinedMisses(activity, since, full, fetch, n, c, x);
      if P.Window(Joined(activity, since, fetch, n).value, FullHistory(full, n), since) {
        WindowCounts(Joined(activity, since, fetch, n).value, FullHistory(full, n), since, x);
      }
    }
  }

  lemma {:induction false} JoinedIsWindow(activity: nat -> Instant, since: Instant,
      full: nat -> seq<WatchItem>, fetch: nat -> Answer<seq<WatchItem>>, n: nat)
    requires SkippedAreOld(activity, since, full, n) && NoneAtCursor(activity, since, full, n)
    requires FetchesWindows(full, fetch, since) && Joined(activity, since, fetch, n).Ok?
    ensures P.Window(Joined(activity, since, fetch, n).value, FullHistory(full, n), since)
  {
    if n > 0 {
      JoinedIsWindow(activity, since, full, fetch, n - 1);
      var earlier := Joined(activity, since, fetch, n - 1).value;
      var part := if Skips(activity, since, n - 1) then [] else fetch(n - 1).value;
      if Skips(activity, since, n - 1) {
        SkipIsWindowExactly(full(n - 1), since);
      }
      WindowConcat(earlier, FullHistory(full, n - 1), part, full(n - 1), since);
      assert earlier + [] == earlier;
    }
  }

  /** No entry that is not before the cursor is read more often than it is held. */
  lemma {:induction false} JoinedCounts(activity: nat -> Instant, since: Instant,
      full: nat -> seq<WatchItem>, fetch: nat -> Answer<seq<WatchItem>>, n: nat, x: WatchItem)
    requires FetchesWindows(full, fetch, since) && Joined(activity, since, fetch, n).Ok? && !P.Before(x, since)
    ensures multiset(Joined(activity, since, fetch, n).value)[x] <= multiset(FullHistory(full, n))[x]
  {
    if n > 0 {
      JoinedCounts(activity, since, full, fetch, n - 1, x);
      if !Skips(activity, since, n - 1) {
        WindowCounts(fetch(n - 1).value, full(n - 1), since, x);
      }
    }
  }

  /** One that a skipped category holds is read less often. */
  lemma {:induction false} JoinedMisses(activity: nat -> Instant, since: Instant,
      full: nat -> seq<WatchItem>, fetch: nat -> Answer<seq<WatchItem>>, n: nat, c: nat, x: WatchItem)
    requires FetchesWindows(full, fetch, since) && Joined(activity, since, fetch, n).Ok? && !P.Before(x, since)
    requires c < n && x in full(c) && Skips(activity, since, c)
    ensures multiset(Joined(activity, since, fetch, n).value)[x] < multiset(FullHistory(full, n))[x]
  {
    if c == n - 1 {
      JoinedCounts(activity, since, full, fetch, n - 1, x);
      assert x in multiset(full(c));
    } else {
      JoinedMisses(activity, since, full, fetch, n - 1, c, x);
      if !Skips(activity, since, n - 1) {
        WindowCounts(fetch(n - 1).value, full(n - 1), since, x);
      }
    }
  }

  // ---------- the service as a source ----------

  /** date_from is since with its fraction of a second cut off; the zero time asks for everything. */
  function Recent(list: seq<ListEntry>, since: Instant, changed: ListEntry -> Instant): seq<ListEntry> {
    if IsZero(since) then list else Select(list, (e: ListEntry) => since / SECOND * SECOND <= changed(e))
  }

  /** What a server that honours date_from lists of its buckets. */
  function Answers(lists: seq<seq<ListEntry>>, since: Instant, changed: ListEntry -> Instant): seq<BucketAnswer> {
    if lists == [] then [] else Answers(Init(lists), since, changed) + [Bucket(Recent(Last(lists), since, changed))]
  }

  /** What an unconditional read of a category gives. */
  function Held(cat: string, lists: seq<seq<ListEntry>>, hash: WatchItem -> string,
      changed: ListEntry -> Instant): seq<WatchItem> {
    Firsts(Flattened(cat, Answers(lists, 0, changed)), hash)
  }

  /** An entry changes no earlier than anything in it was watched. */
  ghost predicate ChangesLate(cat: string, list: seq<ListEntry>, changed: ListEntry -> Instant) {
    forall e, it :: e in list && it in EntryItems(cat, e) ==> it.watchedAt <= changed(e)
  }

  lemma {:induction false} EntriesWindow(cat: string, list: seq<ListEntry>, since: Instant, changed: ListEntry -> Instant)
    requires ChangesLate(cat, list, changed)
    ensures P.Window(EntriesOf(cat, Recent(list, since, changed)), EntriesOf(cat, list), since)
  {
    if IsZero(since) {
      WindowSelf(EntriesOf(cat, list), since);
    } else if list != [] {
      var e, init := Last(list), Init(list);
      assert e in list && forall x :: x in init ==> x in list;
      EntriesWindow(cat, init, since, changed);
      var kept, items := Recent(init, since, changed), EntryItems(cat, e);
      if since / SECOND * SECOND <= changed(e) {
        assert Init(kept + [e]) == kept;
        WindowSelf(items, since);
        WindowConcat(EntriesOf(cat, kept), EntriesOf(cat, init), items, items, since);
      } else {
        WindowNone(items, since);
        WindowConcat(EntriesOf(cat, kept), EntriesOf(cat, init), [], items, since);
        assert EntriesOf(cat, kept) + [] == EntriesOf(cat, kept);
      }
    }
  }

  lemma FlattenedSnoc(cat: string, buckets: seq<BucketAnswer>, list: seq<ListEntry>)
    ensures Flattened(cat, buckets + [Bucket(list)]) == Flattened(cat, buckets) + EntriesOf(cat, list)
  {
    assert Init(buckets + [Bucket(list)]) == buckets;
  }

  // ---------- repetitions that change together ----------

  /** Some listed entry that changed at or after from holds a dated item with this item's hash. */
  ghost predicate RecentHash(cat: string, list: seq<ListEntry>, hash: WatchItem -> string,
      changed: ListEntry -> Instant, from: Instant,
      it: WatchItem) {
    exists e, x :: e in list && x in EntryItems(cat, e) && Dated(x) && hash(x) == hash(it) && from <= changed(e)
  }

  /** Entries that list the same dated item changed at the same time. */
  ghost predicate ChangeTogether(cat: string, list: seq<ListEntry>, hash: WatchItem -> string,
      changed: ListEntry -> Instant) {
    forall d, e, x, y ::
      d in list && e in list && x in EntryItems(cat, d) && y in EntryItems(cat, e) && Dated(x) && Dated(y) && hash(x) == hash(y) ==>
        changed(d) == changed(e)
  }

  /** Keeping the first of each hash commutes with a selection that depends on the hash only. */
  lemma {:induction false} FirstsSelect(s: seq<WatchItem>, hash: WatchItem -> string, p: WatchItem -> bool)
    requires forall x, y :: x in s && y in s && Dated(x) && Dated(y) && hash(x) == hash(y) ==> p(x) == p(y)
    ensures Firsts(Select(s, p), hash) == Select(Firsts(s, hash), p)
  {
    if s != [] {
      var init, it := Init(s), Last(s);
      assert s == init + [it];
      FirstsSelect(init, hash, p);
      var kept, earlier := Select(init, p), Firsts(init, hash);
      assert Init(kept + [it]) == kept && Init(earlier + [it]) == earlier;
      FirstsAreExact(init, hash);
      if p(it) && Dated(it) {
        SameHashes(init, hash, p, it);
      }
    }
  }

  lemma SameHashes(s: seq<WatchItem>, hash: WatchItem -> string, p: WatchItem -> bool, it: WatchItem)
    requires Dated(it) && p(it) && forall x :: x in s && Dated(x) && hash(x) == hash(it) ==> p(x)
    ensures hash(it) in Hashes(Select(Firsts(s, hash), p), hash) <==> hash(it) in Hashes(Firsts(s, hash), hash)
  {
    FirstsAreExact(s, hash);
    if hash(it) in Hashes(Firsts(s, hash), hash) {
      var x :| x in Firsts(s, hash) && hash(x) == hash(it);
      SelectMember(Firsts(s, hash), p, x);
    }
    if hash(it) in Hashes(Select(Firsts(s, hash), p), hash) {
      var x :| x in Select(Firsts(s, hash), p) && hash(x) == hash(it);
      SelectMember(Firsts(s, hash), p, x);
    }
  }

  lemma {:induction false} FirstsDated(s: seq<WatchItem>, hash: WatchItem -> string)
    ensures Firsts(Select(s, Dated), hash) == Firsts(s, hash)
  {
    if s != [] {
      FirstsDated(Init(s), hash);
      var kept := Select(Init(s), Dated);
      assert Init(kept + [Last(s)]) == kept;
    }
  }

  /** Of the dated items, those of recent entries are the ones with a recent hash. */
  lemma RecentItems(cat: string, list: seq<ListEntry>, hash: WatchItem -> string, changed: ListEntry -> Instant,
      from: Instant)
    requires ChangeTogether(cat, list, hash, changed)
    ensures Select(EntriesOf(cat, list), (it: WatchItem) => Dated(it) && RecentHash(cat, list, hash, changed, from, it))
            == Select(EntriesOf(cat, Select(list, (e: ListEntry) => from <= changed(e))), Dated)
  {
    var q := (it: WatchItem) => Dated(it) && RecentHash(cat, list, hash, changed, from, it);
    var keep := (e: ListEntry) => from <= changed(e);
    forall e | e in list ensures Select(ItemsIn(cat)(e), q) == if keep(e) then Select(ItemsIn(cat)(e), Dated) else [] {
      EntryRecent(cat, e, list, hash, changed, from);
    }
    SelectGather(list, ItemsIn(cat), keep, q, Dated);
  }

  lemma EntryRecent(cat: string, e: ListEntry, list: seq<ListEntry>, hash: WatchItem -> string,
      changed: ListEntry -> Instant, from: Instant)
    requires ChangeTogether(cat, list, hash, changed) && e in list
    ensures Select(EntryItems(cat, e), (it: WatchItem) => Dated(it) && RecentHash(cat, list, hash, changed, from, it))
            == if from <= changed(e) then Select(EntryItems(cat, e), Dated) else []
  {
    var q := (it: WatchItem) => Dated(it) && RecentHash(cat, list, hash, changed, from, it);
    var items := EntryItems(cat, e);
    forall x | x in items && Dated(x) ensures RecentHash(cat, list, hash, changed, from, x) <==> from <= changed(e) {
      if RecentHash(cat, list, hash, changed, from, x) {
        var d, y :| d in list && y in EntryItems(cat, d) && Dated(y) && hash(y) == hash(x) && from <= changed(d);
        assert changed(d) == changed(e);
      }
    }
    if from <= changed(e) {
      SelectSame(items, q, Dated);
    } else {
      SelectSame(items, q, (it: WatchItem) => false);
      SelectNone(items);
    }
  }

  lemma {:induction false} SelectNone(items: seq<WatchItem>)
    ensures Select(items, (it: WatchItem) => false) == []
  {
    if items != [] {
      SelectNone(Init(items));
    }
  }

  lemma {:induction false} ItemHasEntry(cat: string, list: seq<ListEntry>, it: WatchItem)
    requires it in EntriesOf(cat, list)
    ensures exists e :: e in list && it in EntryItems(cat, e)
  {
    if it !in EntryItems(cat, Last(list)) {
      ItemHasEntry(cat, Init(list), it);
    }
  }

  /** Deduplicating the recent entries gives the deduplicated list with some items dated before the cursor left out. */
  lemma ListIsWindow(cat: string, list: seq<ListEntry>, since: Instant, hash: WatchItem -> string,
      changed: ListEntry -> Instant)
    requires ChangesLate(cat, list, changed) && ChangeTogether(cat, list, hash, changed)
    ensures P.Window(Firsts(EntriesOf(cat, Recent(list, since, changed)), hash), Firsts(EntriesOf(cat, list), hash), since)
  {
    var all := EntriesOf(cat, list);
    if IsZero(since) {
      WindowSelf(Firsts(all, hash), since);
    } else {
      var from := since / SECOND * SECOND;
      var q := (it: WatchItem) => Dated(it) && RecentHash(cat, list, hash, changed, from, it);
      var recent := EntriesOf(cat, Recent(list, since, changed));
      RecentItems(cat, list, hash, changed, from);
      assert Select(all, q) == Select(recent, Dated);
      FirstsDated(recent, hash);
      FirstsSelect(all, hash, q);
      FirstsAreExact(all, hash);
      forall it | it in Firsts(all, hash) && !q(it) ensures P.Before(it, since) {
        ItemHasEntry(cat, list, it);
        var e :| e in list && it in EntryItems(cat, e);
        assert changed(e) < from <= since;
      }
      SelectIsWindow(Firsts(all, hash), q, since);
    }
  }

  // ---------- categories and the whole read ----------

  /** The entries of all buckets in reading order. */
  function AllEntries(lists: seq<seq<ListEntry>>): seq<ListEntry> {
    if lists == [] then [] else AllEntries(Init(lists)) + Last(lists)
  }

  lemma RecentConcat(a: seq<ListEntry>, b: seq<ListEntry>, since: Instant, changed: ListEntry -> Instant)
    ensures Recent(a + b, since, changed) == Recent(a, since, changed) + Recent(b, since, changed)
  {
    SelectConcat(a, b, (e: ListEntry) => since / SECOND * SECOND <= changed(e));
  }

  lemma {:induction false} AnswersFlatten(cat: string, lists: seq<seq<ListEntry>>, since: Instant,
      changed: ListEntry -> Instant)
    ensures Flattened(cat, Answers(lists, since, changed)) == EntriesOf(cat, Recent(AllEntries(lists), since, changed))
  {
    if lists != [] {
      var init, list := Init(lists), Last(lists);
      AnswersFlatten(cat, init, since, changed);
      FlattenedSnoc(cat, Answers(init, since, changed), Recent(list, since, changed));
      RecentConcat(AllEntries(init), list, since, changed);
      GatherConcat(Recent(AllEntries(init), since, changed), Recent(list, since, changed), ItemsIn(cat));
    }
  }

  /** A category read from a server that honours date_from leaves out only entries dated before the cursor and keeps
      their order, if entries that list the same dated item change together. */
  lemma CategoryIsWindow(cat: string, lists: seq<seq<ListEntry>>, since: Instant, hash: WatchItem -> string,
      changed: ListEntry -> Instant)
    requires ChangesLate(cat, AllEntries(lists), changed) && ChangeTogether(cat, AllEntries(lists), hash, changed)
    ensures P.Window(Firsts(Flattened(cat, Answers(lists, since, changed)), hash), Held(cat, lists, hash, changed), since)
  {
    AnswersFlatten(cat, lists, since, changed);
    AnswersFlatten(cat, lists, 0, changed);
    ListIsWindow(cat, AllEntries(lists), since, hash, changed);
  }

  /** A category read from a server that honours date_from covers what the category holds: it may give another
      entry with the same hash, when the first one of the unconditional read is left out. */
  lemma CategoryCovers(cat: string, lists: seq<seq<ListEntry>>, since: Instant, until: Instant, hash: WatchItem -> string,
      changed: ListEntry -> Instant)
    requires ChangesLate(cat, AllEntries(lists), changed)
    ensures P.Covers(hash, Firsts(Flattened(cat, Answers(lists, since, changed)), hash), Held(cat, lists, hash, changed), since, until)
  {
    var list := AllEntries(lists);
    var part, all := EntriesOf(cat, Recent(list, since, changed)), EntriesOf(cat, list);
    AnswersFlatten(cat, lists, since, changed);
    AnswersFlatten(cat, lists, 0, changed);
    EntriesWindow(cat, list, since, changed);
    FirstsAreExact(part, hash);
    FirstsAreExact(all, hash);
    forall it | it in Firsts(all, hash) && !P.Before(it, since) ensures P.HoldsHash(hash, Firsts(part, hash), it) {
      P.WindowMembers(part, all, since, it);
      assert hash(it) in Hashes(Firsts(part, hash), hash);
    }
  }

  /** And it lists nothing else. */
  lemma CategoryListsHeld(cat: string, lists: seq<seq<ListEntry>>, since: Instant, hash: WatchItem -> string,
      changed: ListEntry -> Instant)
    requires ChangesLate(cat, AllEntries(lists), changed)
    ensures forall w :: w in Firsts(Flattened(cat, Answers(lists, since, changed)), hash) ==>
              P.HoldsHash(hash, Held(cat, lists, hash, changed), w)
  {
    var list := AllEntries(lists);
    var part, all := EntriesOf(cat, Recent(list, since, changed)), EntriesOf(cat, list);
    AnswersFlatten(cat, lists, since, changed);
    AnswersFlatten(cat, lists, 0, changed);
    EntriesWindow(cat, list, since, changed);
    FirstsAreExact(part, hash);
    FirstsAreExact(all, hash);
    forall w | w in Firsts(part, hash) ensures P.HoldsHash(hash, Firsts(all, hash), w) {
      P.WindowMembers(part, all, since, w);
      assert hash(w) in Hashes(Firsts(all, hash), hash);
    }
  }

  /** A sound server for one category: it fails or honours date_from, entries change no earlier than they were
      watched, and a known activity time is no earlier than anything the category holds. */
  ghost predicate Sound(sv: Service, k: nat, lists: seq<seq<ListEntry>>, since: Instant, hash: WatchItem -> string,
      changed: ListEntry -> Instant)
    requires k < |CATEGORIES|
  {
    && (NoBucket in sv.buckets(k, since) || sv.buckets(k, since) == Answers(lists, since, changed))
    && ChangesLate(CATEGORIES[k], AllEntries(lists), changed)
    && (IsZero(sv.activity(k)) || forall it :: it in Held(CATEGORIES[k], lists, hash, changed) ==> it.watchedAt <= sv.activity(k))
  }

  /** What the categories hold. */
  function Library(lists: nat -> seq<seq<ListEntry>>, hash: WatchItem -> string,
      changed: ListEntry -> Instant): nat -> seq<WatchItem> {
    (k: nat) => if k < |CATEGORIES| then Held(CATEGORIES[k], lists(k), hash, changed) else []
  }

  ghost predicate Serves(sv: Service, lists: nat -> seq<seq<ListEntry>>, since: Instant, hash: WatchItem -> string,
      changed: ListEntry -> Instant) {
    forall k: nat :: k < |CATEGORIES| ==> Sound(sv, k, lists(k), since, hash, changed)
  }

  lemma ServedAreOld(sv: Service, lists: nat -> seq<seq<ListEntry>>, since: Instant, hash: WatchItem -> string,
      changed: ListEntry -> Instant)
    requires Serves(sv, lists, since, hash, changed)
    ensures SkippedAreOld(sv.activity, since, Library(lists, hash, changed), |CATEGORIES|)
  {
    forall c: nat, x | c < |CATEGORIES| && x in Library(lists, hash, changed)(c) && Skips(sv.activity, since, c)
      ensures x.watchedAt <= since
    {
      assert Sound(sv, c, lists(c), since, hash, changed);
    }
  }

  /** The whole read, from the activity request to the joined categories, against a sound server whose repetitions
      change together: it leaves out only entries dated before the cursor, and keeps their order, exactly if no
      skipped category holds one dated at the cursor. */
  lemma HistoryIsWindow(sv: Service, lists: nat -> seq<seq<ListEntry>>, since: Instant, hash: WatchItem -> string,
      changed: ListEntry -> Instant)
    requires Serves(sv, lists, since, hash, changed) && HistoryAnswer(sv, since, hash).Ok?
    requires forall k: nat :: k < |CATEGORIES| ==> ChangeTogether(CATEGORIES[k], AllEntries(lists(k)), hash, changed)
    ensures P.Window(HistoryAnswer(sv, since, hash).value, FullHistory(Library(lists, hash, changed), |CATEGORIES|), since)
            <==> NoneAtCursor(sv.activity, since, Library(lists, hash, changed), |CATEGORIES|)
  {
    var full, fetch := Library(lists, hash, changed), Fetched(sv, since, hash);
    forall c: nat | fetch(c).Ok? ensures P.Window(fetch(c).value, full(c), since) {
      assert Sound(sv, c, lists(c), since, hash, changed);
      CategoryIsWindow(CATEGORIES[c], lists(c), since, hash, changed);
    }
    ServedAreOld(sv, lists, since, hash, changed);
    JoinedIsWindowExactly(sv.activity, since, full, fetch, |CATEGORIES|);
  }

  /** Every entry of a skipped category dated at the cursor is listed, under its hash and date, by one not skipped. */
  ghost predicate ElsewhereAtCursor(activity: nat -> Instant, since: Instant, full: nat -> seq<WatchItem>, n: nat,
      hash: WatchItem -> string) {
    forall c: nat, x :: c < n && x in full(c) && Skips(activity, since, c) && x.watchedAt == since ==>
      ReadElsewhere(activity, since, full, n, hash, x)
  }

  ghost predicate ReadElsewhere(activity: nat -> Instant, since: Instant, full: nat -> seq<WatchItem>, n: nat,
      hash: WatchItem -> string, x: WatchItem) {
    exists k: nat, y :: k < n && !Skips(activity, since, k) && y in full(k) && hash(y) == hash(x) && y.watchedAt == x.watchedAt
  }

  /** A fetch lists only hashes the category holds, and covers it. */
  ghost predicate FetchesCover(full: nat -> seq<WatchItem>, fetch: nat -> Answer<seq<WatchItem>>, since: Instant,
      until: Instant,
      hash: WatchItem -> string) {
    forall c: nat :: fetch(c).Ok? ==>
      && P.Covers(hash, fetch(c).value, full(c), since, until)
      && (forall w :: w in fetch(c).value ==> P.HoldsHash(hash, full(c), w))
  }

  lemma {:induction false} JoinedMember(activity: nat -> Instant, since: Instant,
      fetch: nat -> Answer<seq<WatchItem>>, n: nat, w: WatchItem)
    requires Joined(activity, since, fetch, n).Ok?
    ensures w in Joined(activity, since, fetch, n).value
            <==> exists k: nat :: k < n && !Skips(activity, since, k) && fetch(k).Ok? && w in fetch(k).value
    ensures forall k: nat :: k < n && !Skips(activity, since, k) ==> fetch(k).Ok?
  {
    if n > 0 {
      JoinedMember(activity, since, fetch, n - 1, w);
    }
  }

  lemma {:induction false} FullMember(full: nat -> seq<WatchItem>, n: nat, x: WatchItem)
    ensures x in FullHistory(full, n) <==> exists c: nat :: c < n && x in full(c)
  {
    if n > 0 {
      FullMember(full, n - 1, x);
    }
  }

  lemma ReadCovers(activity: nat -> Instant, since: Instant, until: Instant, full: nat -> seq<WatchItem>,
      fetch: nat -> Answer<seq<WatchItem>>, n: nat, hash: WatchItem -> string, k: nat, y: WatchItem)
    requires FetchesCover(full, fetch, since, until, hash) && Joined(activity, since, fetch, n).Ok?
    requires k < n && !Skips(activity, since, k) && y in full(k) && !P.Before(y, since) && y.watchedAt < until
    ensures P.HoldsHash(hash, Joined(activity, since, fetch, n).value, y)
  {
    JoinedMember(activity, since, fetch, n, y);
    assert P.HoldsHash(hash, fetch(k).value, y);
    var w :| w in fetch(k).value && hash(w) == hash(y);
    JoinedMember(activity, since, fetch, n, w);
  }

  /** Whatever repeats, the joined read covers what the categories hold exactly if every entry of a skipped category
      dated at the cursor is listed by one that is not skipped, for a hash that determines the date. */
  lemma HistoryCoversExactly(activity: nat -> Instant, since: Instant, until: Instant, full: nat -> seq<WatchItem>,
      fetch: nat -> Answer<seq<WatchItem>>, n: nat, hash: WatchItem -> string)
    requires SkippedAreOld(activity, since, full, n) && FetchesCover(full, fetch, since, until, hash)
    requires Joined(activity, since, fetch, n).Ok?
    ensures ElsewhereAtCursor(activity, since, full, n, hash) ==>
              P.Covers(hash, Joined(activity, since, fetch, n).value, FullHistory(full, n), since, until)
    ensures since < until && (forall a, b :: hash(a) == hash(b) ==> a.watchedAt == b.watchedAt)
            && P.Covers(hash, Joined(activity, since, fetch, n).value, FullHistory(full, n), since, until) ==>
              ElsewhereAtCursor(activity, since, full, n, hash)
  {
    var read := Joined(activity, since, fetch, n).value;
    if ElsewhereAtCursor(activity, since, full, n, hash) {
      forall x | x in FullHistory(full, n) && !P.Before(x, since) && x.watchedAt < until ensures P.HoldsHash(hash, read, x) {
        FullMember(full, n, x);
        var c: nat :| c < n && x in full(c);
        if !Skips(activity, since, c) {
          ReadCovers(activity, since, until, full, fetch, n, hash, c, x);
        } else {
          assert ReadElsewhere(activity, since, full, n, hash, x);
          var k: nat, y :| k < n && !Skips(activity, since, k) && y in full(k) && hash(y) == hash(x) && y.watchedAt == x.watchedAt;
          ReadCovers(activity, since, until, full, fetch, n, hash, k, y);
        }
      }
    }
    if since < until && (forall a, b :: hash(a) == hash(b) ==> a.watchedAt == b.watchedAt)
       && P.Covers(hash, read, FullHistory(full, n), since, until) {
      forall c: nat, x | c < n && x in full(c) && Skips(activity, since, c) && x.watchedAt == since
        ensures ReadElsewhere(activity, since, full, n, hash, x)
      {
        FullMember(full, n, x);
        assert P.HoldsHash(hash, read, x);
        var w :| w in read && hash(w) == hash(x);
        JoinedMember(activity, since, fetch, n, w);
        var k: nat :| k < n && !Skips(activity, since, k) && fetch(k).Ok? && w in fetch(k).value;
        assert P.HoldsHash(hash, full(k), w);
      }
    }
  }

  /** The whole read against a sound server, whatever repeats: it covers what the server holds if every entry of a
      skipped category dated at the cursor is listed by one that is not skipped. */
  lemma HistoryCovers(sv: Service, lists: nat -> seq<seq<ListEntry>>, since: Instant, until: Instant,
      hash: WatchItem -> string, changed: ListEntry -> Instant)
    requires Serves(sv, lists, since, hash, changed) && HistoryAnswer(sv, since, hash).Ok?
    requires ElsewhereAtCursor(sv.activity, since, Library(lists, hash, changed), |CATEGORIES|, hash)
    ensures P.Covers(hash, HistoryAnswer(sv, since, hash).value,
                     FullHistory(Library(lists, hash, changed), |CATEGORIES|), since, until)
  {
    var full, fetch := Library(lists, hash, changed), Fetched(sv, since, hash);
    forall c: nat | fetch(c).Ok?
      ensures P.Covers(hash, fetch(c).value, full(c), since, until)
      ensures forall w :: w in fetch(c).value ==> P.HoldsHash(hash, full(c), w)
    {
      assert Sound(sv, c, lists(c), since, hash, changed);
      CategoryCovers(CATEGORIES[c], lists(c), since, until, hash, changed);
      CategoryListsHeld(CATEGORIES[c], lists(c), since, hash, changed);
    }
    ServedAreOld(sv, lists, since, hash, changed);
    HistoryCoversExactly(sv.activity, since, until, full, fetch, |CATEGORIES|, hash);
  }

  // ---------- what the whole read lists ----------

  /** The names of the three categories, in reading order. */
  ghost function CategoryName(k: nat): string {
    if k == 0 then "movies" else if k == 1 then "shows" else "anime"
  }

  /** Category k is asked for: it is a first read, or its activity time is unknown or later than the cursor. */
  ghost predicate Asked(sv: Service, since: Instant, k: nat) {
    k < 3 && (since == 0 || sv.activity(k) == 0 || sv.activity(k) > since)
  }

  /** An entry of a category that is asked for reads as the item. */
  ghost predicate Offers(sv: Service, since: Instant, it: WatchItem) {
    it.watchedAt != 0 && exists k: nat :: Asked(sv, since, k) && Gives(CategoryName(k), sv.buckets(k, since), it)
  }

  lemma {:induction false} JoinedUp(activity: nat -> Instant, since: Instant, fetch: nat -> Answer<seq<WatchItem>>,
      n: nat)
    ensures Joined(activity, since, fetch, n).Ok?
            <==> forall k: nat :: k < n && !Skips(activity, since, k) ==> fetch(k).Ok?
  {
    if n > 0 {
      JoinedUp(activity, since, fetch, n - 1);
    }
  }

  lemma FetchedIs(sv: Service, since: Instant, hash: WatchItem -> string, k: nat)
    requires k < 3
    ensures Fetched(sv, since, hash)(k) == Category(CategoryName(k), sv.buckets(k, since), hash)
    ensures Skips(sv.activity, since, k) <==> !Asked(sv, since, k)
  {
  }

  /** The read succeeds exactly if the activities and every bucket of every category asked for answer. It then lists
      only items that an entry of such a category reads as, and for each of those one with its hash. */
  lemma HistoryGives(sv: Service, since: Instant, hash: WatchItem -> string, it: WatchItem)
    ensures HistoryAnswer(sv, since, hash).Ok?
            <==> sv.activitiesUp && forall k: nat :: Asked(sv, since, k) ==> NoBucket !in sv.buckets(k, since)
    ensures HistoryAnswer(sv, since, hash).Ok? ==>
      && (it in HistoryAnswer(sv, since, hash).value ==> Offers(sv, since, it))
      && (Offers(sv, since, it) ==> exists w :: w in HistoryAnswer(sv, since, hash).value && hash(w) == hash(it))
  {
    var fetch := Fetched(sv, since, hash);
    JoinedUp(sv.activity, since, fetch, 3);
    forall k: nat | k < 3
      ensures fetch(k) == Category(CategoryName(k), sv.buckets(k, since), hash)
      ensures Skips(sv.activity, since, k) <==> !Asked(sv, since, k)
      ensures fetch(k).Ok? <==> NoBucket !in sv.buckets(k, since)
    {
      FetchedIs(sv, since, hash, k);
      CategoryGives(CategoryName(k), sv.buckets(k, since), hash, it);
    }
    if HistoryAnswer(sv, since, hash).Ok? {
      ReadGives(sv, since, hash, it);
    }
  }

  lemma ReadGives(sv: Service, since: Instant, hash: WatchItem -> string, it: WatchItem)
    requires HistoryAnswer(sv, since, hash).Ok?
    ensures it in HistoryAnswer(sv, since, hash).value ==> Offers(sv, since, it)
    ensures Offers(sv, since, it) ==> exists w :: w in HistoryAnswer(sv, since, hash).value && hash(w) == hash(it)
  {
    var fetch := Fetched(sv, since, hash);
    JoinedMember(sv.activity, since, fetch, 3, it);
    if it in HistoryAnswer(sv, since, hash).value {
      var k: nat :| k < 3 && !Skips(sv.activity, since, k) && fetch(k).Ok? && it in fetch(k).value;
      FetchedIs(sv, since, hash, k);
      CategoryGives(CategoryName(k), sv.buckets(k, since), hash, it);
    }
    if Offers(sv, since, it) {
      var k: nat :| Asked(sv, since, k) && Gives(CategoryName(k), sv.buckets(k, since), it);
      FetchedIs(sv, since, hash, k);
      CategoryGives(CategoryName(k), sv.buckets(k, since), hash, it);
      var w :| w in fetch(k).value && hash(w) == hash(it);
      JoinedMember(sv.activity, since, fetch, 3, w);
    }
  }

  /** Every item read is a movie or an episode. */
  lemma {:induction false} SeasonsListable(s: Media, seasons: seq<Season>)
    ensures forall it :: it in SeasonsOf(s, seasons) ==> Listable(it)
  {
    if seasons != [] {
      SeasonsListable(s, Init(seasons));
      EpisodesListable(s, Last(seasons).number, Last(seasons).episodes);
    }
  }

  lemma {:induction false} EpisodesListable(s: Media, season: int, eps: seq<EpisodeEntry>)
    ensures forall it :: it in EpisodesOf(s, season, eps) ==> Listable(it)
  {
    if eps != [] {
      EpisodesListable(s, season, Init(eps));
    }
  }

  lemma {:induction false} EntriesListable(cat: string, list: seq<ListEntry>)
    ensures forall it :: it in EntriesOf(cat, list) ==> Listable(it)
  {
    if list != [] {
      EntriesListable(cat, Init(list));
      SeasonsListable(ShowOf(Last(list)), Last(list).seasons);
    }
  }

  lemma {:induction false} FlattenedListable(cat: string, buckets: seq<BucketAnswer>)
    ensures forall it :: it in Flattened(cat, buckets) ==> Listable(it)
  {
    if buckets != [] {
      FlattenedListable(cat, Init(buckets));
      if Last(buckets).Bucket? {
        EntriesListable(cat, Last(buckets).list);
      }
    }
  }

  lemma {:induction false} JoinedListable(activity: nat -> Instant, since: Instant,
      fetch: nat -> Answer<seq<WatchItem>>, n: nat)
    requires forall c: nat :: fetch(c).Ok? ==> forall it :: it in fetch(c).value ==> Listable(it)
    ensures Joined(activity, since, fetch, n).Ok? ==> forall it :: it in Joined(activity, since, fetch, n).value ==> Listable(it)
  {
    if n > 0 {
      JoinedListable(activity, since, fetch, n - 1);
    }
  }

  lemma HistoryListable(sv: Service, since: Instant, hash: WatchItem -> string)
    ensures HistoryAnswer(sv, since, hash).Ok? ==> forall it :: it in HistoryAnswer(sv, since, hash).value ==> Listable(it)
  {
    var fetch := Fetched(sv, since, hash);
    forall c: nat | fetch(c).Ok? ensures forall it :: it in fetch(c).value ==> Listable(it) {
      var read := Flattened(CATEGORIES[c], sv.buckets(c, since));
      FirstsAreExact(read, hash);
      FlattenedListable(CATEGORIES[c], sv.buckets(c, since));
    }
    JoinedListable(sv.activity, since, fetch, |CATEGORIES|);
  }

  // ---------- push ----------

  datatype NotFound = NotFound(movies: seq<IDs>, shows: seq<IDs>, episodes: seq<IDs>)

  datatype PostAnswer = NoAnswer | Malformed(code: int) | Answered(code: int, notFound: NotFound)

  datatype MovieEntry = MovieEntry(at: int, ids: IDs)
  /** A show on its own, or with one episode of one season. */
  datatype ShowEntry = BareShow(ids: IDs) | ShowEpisode(ids: IDs, season: int, number: int, at: int)

  predicate Supported(it: WatchItem) {
    it.mediaType == "movie" || it.mediaType == "episode" || it.mediaType == "show"
  }

  /** watched_at to the second; an undated item is stamped with the clock. */
  function Stamp(it: WatchItem, now: Instant): int {
    (if IsZero(it.watchedAt) then now else it.watchedAt) / SECOND
  }

  function MovieSection(items: seq<WatchItem>, now: Instant): seq<MovieEntry> {
    if items == [] then []
    else
      var earlier, it := MovieSection(Init(items), now), Last(items);
      if it.mediaType == "movie" then earlier + [MovieEntry(Stamp(it, now), ToIds(it.ids))] else earlier
  }

  function ShowSection(items: seq<WatchItem>, now: Instant): seq<ShowEntry> {
    if items == [] then []
    else
      var earlier, it := ShowSection(Init(items), now), Last(items);
      if it.mediaType == "show" && it.season == 0 && it.episode == 0 then earlier + [BareShow(ToIds(it.ids))]
      else if it.mediaType == "show" || it.mediaType == "episode"
      then earlier + [ShowEpisode(ToIds(it.ids), it.season, it.episode, Stamp(it, now))]
      else earlier
  }

  predicate SharesId(ids: IDs, nf: IDs) {
    || (nf.simkl != 0 && nf.simkl == ids.simkl)
    || (nf.imdb != "" && nf.imdb == ids.imdb)
    || (nf.tmdb != 0 && nf.tmdb == ids.tmdb)
    || (nf.tvdb != 0 && nf.tvdb == ids.tvdb)
  }

  predicate Unresolved(ids: IDs, list: seq<IDs>) {
    exists k :: 0 <= k < |list| && SharesId(ids, list[k])
  }

  function CategoryList(mediaType: string, nf: NotFound): seq<IDs> {
    if mediaType == "movie" then nf.movies else if mediaType == "show" then nf.shows else nf.episodes
  }

  predicate Taken(it: WatchItem, nf: NotFound) {
    Supported(it) && !Unresolved(it.ids, CategoryList(it.mediaType, nf))
  }

  predicate Accepts(a: PostAnswer) {
    a.Answered? && (a.code == 200 || a.code == 201)
  }

  function Reply(items: seq<WatchItem>, a: PostAnswer): PushReply {
    if !Accepts(a) then PushReply([], true)
    else PushReply(Select(items, (it: WatchItem) => Taken(it, a.notFound)), false)
  }

  method Push(items: seq<WatchItem>, now: Instant, a: PostAnswer)
    returns (reply: PushReply, movies: seq<MovieEntry>, shows: seq<ShowEntry>)
    ensures reply == Reply(items, a)
    ensures movies == MovieSection(items, now) && shows == ShowSection(items, now)
  {
    movies, shows := [], [];
    var delivered: seq<WatchItem> := [];
    assert items[..|items|] == items;
    for i := 0 to |items|
      invariant delivered == Select(items[..i], Supported)
      invariant movies == MovieSection(items[..i], now) && shows == ShowSection(items[..i], now)
    {
      var it := items[i];
      assert Init(items[..i + 1]) == items[..i];
      var at := Stamp(it, now);
      if it.mediaType == "movie" {
        movies := movies + [MovieEntry(at, ToIds(it.ids))];
        delivered := delivered + [it];
      } else if it.mediaType == "episode" || it.mediaType == "show" {
        if it.mediaType == "show" && it.season == 0 && it.episode == 0 {
          shows := shows + [BareShow(ToIds(it.ids))];
          delivered := delivered + [it];
          continue;
        }
        shows := shows + [ShowEpisode(ToIds(it.ids), it.season, it.episode, at)];
        delivered := delivered + [it];
      }
    }
    if a.NoAnswer? || (a.code != 200 && a.code != 201) || a.Malformed? {
      return PushReply([], true), movies, shows;
    }
    var nf := a.notFound;
    var kept: seq<WatchItem> := [];
    assert delivered[..|delivered|] == delivered;
    for i := 0 to |delivered|
      invariant kept == Select(delivered[..i], (it: WatchItem) => Taken(it, nf))
    {
      var it := delivered[i];
      SelectMember(items, Supported, it);
      SelectNext(delivered, i, (it: WatchItem) => Taken(it, nf));
      if !Unresolved(it.ids, CategoryList(it.mediaType, nf)) {
        kept := kept + [it];
      }
    }
    SelectTwice(items, Supported, (it: WatchItem) => Taken(it, nf));
    return PushReply(kept, false), movies, shows;
  }

  lemma AlwaysSubseq(items: seq<WatchItem>, a: PostAnswer)
    ensures Subseq(Reply(items, a).delivered, items)
  {
    if Accepts(a) {
      SelectIsSubseq(items, (it: WatchItem) => Taken(it, a.notFound));
    }
  }

  /** What is reported delivered is part of what was offered, nothing on any error; on success an occurrence is
      left out exactly when its media type is unknown or it is reported unresolved in its own category. */
  lemma ReplyKeepsContract(items: seq<WatchItem>, a: PostAnswer, it: WatchItem)
    ensures Subseq(Reply(items, a).delivered, items)
    ensures Reply(items, a).failed <==> !(a.Answered? && (a.code == 200 || a.code == 201))
    ensures Reply(items, a).failed ==> Reply(items, a).delivered == []
    ensures !Reply(items, a).failed ==>
              multiset(Reply(items, a).delivered)[it] == if Kept(it, a.notFound) then multiset(items)[it] else 0
  {
    AlwaysSubseq(items, a);
    if Accepts(a) {
      SelectOccurrences(items, (it: WatchItem) => Taken(it, a.notFound), it);
      KeptIsTaken(it, a.notFound);
    }
  }

  /** A movie, show or episode that shares no id with an unresolved entry of its own category. */
  ghost predicate Kept(it: WatchItem, nf: NotFound) {
    && (it.mediaType == "movie" || it.mediaType == "show" || it.mediaType == "episode")
    && (it.mediaType == "movie" ==> forall n :: n in nf.movies ==> Differs(it.ids, n))
    && (it.mediaType == "show" ==> forall n :: n in nf.shows ==> Differs(it.ids, n))
    && (it.mediaType == "episode" ==> forall n :: n in nf.episodes ==> Differs(it.ids, n))
  }

  /** No id that is set in n is the same in ids; Simkl has no Trakt ids. */
  ghost predicate Differs(ids: IDs, n: IDs) {
    (n.simkl == 0 || n.simkl != ids.simkl) && (n.imdb == "" || n.imdb != ids.imdb)
    && (n.tmdb == 0 || n.tmdb != ids.tmdb) && (n.tvdb == 0 || n.tvdb != ids.tvdb)
  }

  lemma KeptIsTaken(it: WatchItem, nf: NotFound)
    ensures Kept(it, nf) <==> Taken(it, nf)
  {
    var list := CategoryList(it.mediaType, nf);
    if k :| 0 <= k < |list| && SharesId(it.ids, list[k]) {
      assert list[k] in list && !Differs(it.ids, list[k]);
    }
    if n :| n in list && !Differs(it.ids, n) {
      var k :| 0 <= k < |list| && list[k] == n;
      assert SharesId(it.ids, list[k]);
    }
  }

  /** What is unresolved in one category never drops an item of another, although their id spaces overlap. */
  lemma CategoriesIndependent(items: seq<WatchItem>, nf: NotFound, other: NotFound, mediaType: string)
    requires mediaType == "movie" ==> nf.movies == other.movies
    requires mediaType == "show" ==> nf.shows == other.shows
    requires mediaType == "episode" ==> nf.episodes == other.episodes
    ensures Select(Select(items, (it: WatchItem) => Taken(it, nf)), (it: WatchItem) => it.mediaType == mediaType)
            == Select(Select(items, (it: WatchItem) => Taken(it, other)), (it: WatchItem) => it.mediaType == mediaType)
  {
    var p, q := (it: WatchItem) => Taken(it, nf), (it: WatchItem) => Taken(it, other);
    var typed := (it: WatchItem) => it.mediaType == mediaType;
    var both := (it: WatchItem) => p(it) && typed(it);
    forall it: WatchItem | it.mediaType == mediaType ensures Taken(it, nf) <==> Taken(it, other) {
      SameTaken(it, nf, other);
    }
    SelectBoth(items, p, typed, both);
    SelectBoth(items, q, typed, both);
  }

  lemma SameTaken(it: WatchItem, nf: NotFound, other: NotFound)
    requires it.mediaType == "movie" ==> nf.movies == other.movies
    requires it.mediaType == "show" ==> nf.shows == other.shows
    requires it.mediaType == "episode" ==> nf.episodes == other.episodes
    ensures Taken(it, nf) <==> Taken(it, other)
  {
  }

  predicate IsMovie(it: WatchItem) {
    it.mediaType == "movie"
  }

  predicate IsShow(it: WatchItem) {
    it.mediaType == "show" || it.mediaType == "episode"
  }

  /** Every id Simkl knows of is sent as it is, and no other. */
  predicate SameIds(sent: IDs, ids: IDs) {
    sent.trakt == 0 && sent.simkl == ids.simkl && sent.imdb == ids.imdb && sent.tmdb == ids.tmdb && sent.tvdb == ids.tvdb
  }

  /** The second sent is the one the item was watched in or, for an undated item, the current one. */
  predicate StampedAs(at: int, it: WatchItem, now: Instant) {
    var t := if it.watchedAt != 0 then it.watchedAt else now;
    at * SECOND <= t < (at + 1) * SECOND
  }

  /** The movie section is the movies in order, each with its own ids and its own instant cut to the second. */
  lemma {:induction false} MoviesMatchItems(items: seq<WatchItem>, now: Instant)
    ensures var sent, chosen := MovieSection(items, now), Select(items, IsMovie);
      |sent| == |chosen| && forall k :: 0 <= k < |sent| ==>
        SameIds(sent[k].ids, chosen[k].ids) && StampedAs(sent[k].at, chosen[k], now)
  {
    if items != [] {
      MoviesMatchItems(Init(items), now);
    }
  }

  /** The show section is the shows and episodes in order, each with its own ids; numbering and second are sent
      unless a show has no numbering. */
  lemma {:induction false} ShowsMatchItems(items: seq<WatchItem>, now: Instant)
    ensures var sent, chosen := ShowSection(items, now), Select(items, IsShow);
      |sent| == |chosen| && forall k :: 0 <= k < |sent| ==>
        && SameIds(sent[k].ids, chosen[k].ids)
        && (sent[k].BareShow? <==> chosen[k].mediaType == "show" && chosen[k].season == 0 && chosen[k].episode == 0)
        && (sent[k].ShowEpisode? ==> sent[k].season == chosen[k].season && sent[k].number == chosen[k].episode
                                     && StampedAs(sent[k].at, chosen[k], now))
  {
    if items != [] {
      ShowsMatchItems(Init(items), now);
    }
  }

  // ---------- throttle ----------

  const GET_SPACING: nat := 100_000_000
  const POST_SPACING: nat := 1_000_000_000

  /** When a call that finds the clock at arrival records its stamp: after the spacing has passed and after any
      overshoot of the sleep. */
  function NextStamp(last: Instant, arrival: Instant, overshoot: nat, d: nat): Instant {
    (if !IsZero(last) && arrival - last < d then last + d else arrival) + overshoot
  }

  class Throttle {
    var lastGET: Instant
    var lastPOST: Instant

    constructor ()
      ensures IsZero(lastGET) && IsZero(lastPOST)
    {
      lastGET, lastPOST := 0, 0;
    }

    method Get(arrival: Instant, overshoot: nat) returns (slept: nat)
      modifies this`lastGET
      ensures lastGET == NextStamp(old(lastGET), arrival, overshoot, GET_SPACING)
      ensures slept == if old(lastGET) != 0 && arrival < old(lastGET) + 100_000_000
                       then old(lastGET) + 100_000_000 - arrival else 0
      ensures lastGET == arrival + slept + overshoot
    {
      slept := Pause(lastGET, arrival, GET_SPACING);
      lastGET := arrival + slept + overshoot;
    }

    method Post(arrival: Instant, overshoot: nat) returns (slept: nat)
      modifies this`lastPOST
      ensures lastPOST == NextStamp(old(lastPOST), arrival, overshoot, POST_SPACING)
      ensures slept == if old(lastPOST) != 0 && arrival < old(lastPOST) + 1_000_000_000
                       then old(lastPOST) + 1_000_000_000 - arrival else 0
      ensures lastPOST == arrival + slept + overshoot
    {
      slept := Pause(lastPOST, arrival, POST_SPACING);
      lastPOST := arrival + slept + overshoot;
    }

    static method Pause(last: Instant, arrival: Instant, d: nat) returns (slept: nat)
      ensures arrival + slept == NextStamp(last, arrival, 0, d)
    {
      slept := 0;
      if !IsZero(last) {
        var s := d - (arrival - last);
        if s > 0 {
          slept := s;
        }
      }
    }
  }

  /** Stamps of a sequence of serialised calls (arrival, overshoot), from a fresh client. */
  function Stamps(calls: seq<(Instant, nat)>, d: nat): seq<Instant> {
    if calls == [] then []
    else
      var earlier := Stamps(Init(calls), d);
      earlier + [NextStamp(if earlier == [] then 0 else Last(earlier), Last(calls).0, Last(calls).1, d)]
  }

  /** The clock is monotone: no call arrives before the previous stamp, and it reads later than the zero time. */
  ghost predicate Serialised(calls: seq<(Instant, nat)>, d: nat) {
    calls == [] ||
    (var earlier := Stamps(Init(calls), d);
     Serialised(Init(calls), d) && Last(calls).0 > 0 && (earlier != [] ==> Last(earlier) <= Last(calls).0))
  }

  lemma {:induction false} StampsApart(calls: seq<(Instant, nat)>, d: nat)
    requires Serialised(calls, d)
    ensures forall t :: t in Stamps(calls, d) ==> t > 0
    ensures Spaced(Stamps(calls, d), d)
  {
    if calls != [] {
      StampsApart(Init(calls), d);
      var earlier := Stamps(Init(calls), d);
      assert earlier != [] ==> Last(earlier) in earlier;
    }
  }

  /** How many stamps fall into the half-open interval. */
  function CountWithin(s: seq<Instant>, from: Instant, to: Instant): nat {
    if s == [] then 0 else CountWithin(Init(s), from, to) + if from <= Last(s) < to then 1 else 0
  }

  ghost predicate Spaced(s: seq<Instant>, d: nat) {
    forall k :: 0 < k < |s| ==> s[k] - s[k - 1] >= d
  }

  lemma {:induction false} LastIsLate(s: seq<Instant>, d: nat, from: Instant, to: Instant)
    requires Spaced(s, d) && CountWithin(s, from, to) > 0
    ensures Last(s) >= from + (CountWithin(s, from, to) - 1) * d
  {
    var c := CountWithin(Init(s), from, to);
    if c > 0 {
      LastIsLate(Init(s), d, from, to);
      assert Last(s) >= Last(Init(s)) + d;
      assert c * d == (c - 1) * d + d;
    }
  }

  lemma {:induction false} SpacedCount(s: seq<Instant>, d: nat, from: Instant, n: nat)
    requires Spaced(s, d)
    ensures CountWithin(s, from, from + n * d) <= n
  {
    if s != [] {
      SpacedCount(Init(s), d, from, n);
      var c := CountWithin(s, from, from + n * d);
      if from <= Last(s) < from + n * d {
        LastIsLate(s, d, from, from + n * d);
        SmallerFactor(c - 1, n, d);
      }
    }
  }

  lemma SmallerFactor(a: int, b: int, d: nat)
    ensures a >= b ==> a * d >= b * d
  {
    if a >= b {
      assert (a - b) * d >= 0;
    }
  }

  /** Rate bound: whatever the arrivals and overshoots, at most n requests fall into any half-open interval of
      length n times the spacing: ten reads a second and one write a second. */
  lemma RateBound(calls: seq<(Instant, nat)>, d: nat, from: Instant, n: nat)
    requires Serialised(calls, d)
    ensures CountWithin(Stamps(calls, d), from, from + n * d) <= n
  {
    StampsApart(calls, d);
    SpacedCount(Stamps(calls, d), d, from, n);
  }
}
