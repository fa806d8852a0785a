/** The Trakt connector: capped history paging and the grouped push (internal/trakt/client.go). */
module Trakt {
  import opened Calendar
  import opened Model
  import opened Lists
  import opened StoreModel
  import opened Engine
  import opened Protocol
  import opened Windows
  import Paging

  // ---------- history paging ----------

  /** A history row as listed; an unreadable timestamp is the zero time. */
  datatype HistoryRow =
    | MovieRow(at: Instant, title: string, year: int, ids: IDs)
    | EpisodeRow(at: Instant, season: int, number: int, ids: IDs, showTitle: string, showYear: int, showIds: IDs)

  /** An episode keeps its own Trakt id, takes the TMDB id of its show, and falls back to the show's IMDB and
      TVDB ids when it has none. */
  function ItemOf(r: HistoryRow): WatchItem {
    match r
    case MovieRow(at, title, year, ids) => WatchItem(ids.(simkl := 0), "movie", title, year, 0, 0, at)
    case EpisodeRow(at, season, number, ids, title, year, show) =>
      WatchItem(IDs(ids.trakt, 0, if ids.imdb != "" then ids.imdb else show.imdb, show.tmdb,
                    if ids.tvdb != 0 then ids.tvdb else show.tvdb),
                "episode", title, year, season, number, at)
  }

  function Items(rows: seq<HistoryRow>): seq<WatchItem> {
    if rows == [] then [] else Items(Init(rows)) + [ItemOf(Last(rows))]
  }

  method ReadRows(rows: seq<HistoryRow>) returns (entries: seq<WatchItem>)
    ensures entries == Items(rows)
  {
    entries := [];
    assert rows[..|rows|] == rows;
    for i := 0 to |rows|
      invariant entries == Items(rows[..i])
    {
      assert Init(rows[..i + 1]) == rows[..i];
      entries := entries + [ItemOf(rows[i])];
    }
  }

  datatype PageAnswer = NoPage | Page(rows: seq<HistoryRow>)

  const MAX_PAGES: nat := 100

  predicate FullPage(a: PageAnswer) {
    a.Page? && a.rows != []
  }

  function PageItems(a: PageAnswer): seq<WatchItem> {
    match a case Page(rows) => Items(rows) case NoPage => []
  }

  /** The entries of pages 1 to n. */
  function Pages(page: nat -> PageAnswer, n: nat): seq<WatchItem> {
    Concat(ItemsOf(page), n)
  }

  function ItemsOf(page: nat -> PageAnswer): nat -> seq<WatchItem> {
    (p: nat) => PageItems(page(p))
  }

  /** Pages 1 to last - 1 hold entries and page last is the first empty one. */
  predicate EndsAt(page: nat -> PageAnswer, last: nat) {
    1 <= last && page(last) == Page([]) && FullTo(page, last)
  }

  predicate FullTo(page: nat -> PageAnswer, last: nat) {
    forall p: nat :: 1 <= p < last ==> FullPage(page(p))
  }

  /** Every entry before the first empty page, if that is within the cap or the probe beyond it. */
  function FetchAnswer(page: nat -> PageAnswer): Answer<seq<WatchItem>> {
    if exists last: nat :: last <= MAX_PAGES + 1 && EndsAt(page, last) then
      EndUnique(page);
      var last: nat :| last <= MAX_PAGES + 1 && EndsAt(page, last);
      Ok(Pages(page, last - 1))
    else Err
  }

  lemma EndUnique(page: nat -> PageAnswer)
    ensures forall a: nat, b: nat :: EndsAt(page, a) && EndsAt(page, b) ==> a == b
  {
    forall a: nat, b: nat | EndsAt(page, a) && EndsAt(page, b) ensures a == b {
      assert a < b ==> FullPage(page(a));
      assert b < a ==> FullPage(page(b));
    }
  }

  /** Paging has read pages 1 to n - 1, all full, into out. */
  ghost predicate Progress(page: nat -> PageAnswer, n: nat, out: seq<WatchItem>) {
    1 <= n && FullTo(page, n) && out == Pages(page, n - 1)
  }

  lemma PageEnds(page: nat -> PageAnswer, n: nat, out: seq<WatchItem>)
    requires Progress(page, n, out) && n <= MAX_PAGES + 1 && page(n) == Page([])
    ensures EndsAt(page, n) && FetchAnswer(page) == Ok(out)
  {
    assert EndsAt(page, n);
    EndUnique(page);
  }

  lemma PageBreaks(page: nat -> PageAnswer, n: nat, out: seq<WatchItem>)
    requires Progress(page, n, out) && page(n) != Page([]) && (page(n).NoPage? || n > MAX_PAGES)
    ensures FetchAnswer(page) == Err
  {
    forall last: nat | EndsAt(page, last) ensures last > MAX_PAGES + 1 {
      assert last < n ==> FullPage(page(last));
      assert n < last ==> FullPage(page(n));
    }
  }

  lemma PageNext(page: nat -> PageAnswer, n: nat, out: seq<WatchItem>)
    requires Progress(page, n, out) && FullPage(page(n))
    ensures Progress(page, n + 1, out + Items(page(n).rows))
  {
  }

  /** The row is listed as this item: a movie with its own title, year and ids; an episode with the numbering and the
      Trakt id of the episode, the title, year and TMDB id of the show, and the IMDB and TVDB ids of the episode or,
      where it has none, of the show. */
  ghost predicate ReadsAs(r: HistoryRow, it: WatchItem) {
    match r
    case MovieRow(at, title, year, ids) =>
      && it.mediaType == "movie" && it.title == title && it.year == year && it.season == 0 && it.episode == 0
      && it.watchedAt == at && it.ids.simkl == 0
      && it.ids.trakt == ids.trakt && it.ids.imdb == ids.imdb && it.ids.tmdb == ids.tmdb && it.ids.tvdb == ids.tvdb
    case EpisodeRow(at, season, number, own, title, year, show) =>
      && it.mediaType == "episode" && it.title == title && it.year == year
      && it.season == season && it.episode == number && it.watchedAt == at
      && it.ids.trakt == own.trakt && it.ids.simkl == 0 && it.ids.tmdb == show.tmdb
      && (own.imdb != "" ==> it.ids.imdb == own.imdb) && (own.imdb == "" ==> it.ids.imdb == show.imdb)
      && (own.tvdb != 0 ==> it.ids.tvdb == own.tvdb) && (own.tvdb == 0 ==> it.ids.tvdb == show.tvdb)
  }

  /** Rows are read one by one and in order. */
  lemma {:induction false} ItemsAt(rows: seq<HistoryRow>, k: nat)
    requires k < |rows|
    ensures |Items(rows)| == |rows| && ReadsAs(rows[k], Items(rows)[k])
  {
    ItemsLength(rows);
    if k < |rows| - 1 {
      ItemsLength(Init(rows));
      ItemsAt(Init(rows), k);
    }
  }

  lemma {:induction false} ItemsLength(rows: seq<HistoryRow>)
    ensures |Items(rows)| == |rows|
  {
    if rows != [] {
      ItemsLength(Init(rows));
    }
  }

  lemma ItemOfReadsAs(r: HistoryRow, it: WatchItem)
    ensures ReadsAs(r, it) <==> it == ItemOf(r)
  {
  }

  /** Page last is the first one without rows, and every page before it answers. */
  ghost predicate FirstEmpty(page: nat -> PageAnswer, last: nat) {
    && 1 <= last && page(last) == Page([])
    && forall p: nat :: 1 <= p < last ==> page(p) != NoPage && page(p) != Page([])
  }

  lemma EndsAtFirstEmpty(page: nat -> PageAnswer, last: nat)
    ensures EndsAt(page, last) <==> FirstEmpty(page, last)
  {
    if FirstEmpty(page, last) {
      forall p: nat | 1 <= p < last ensures FullPage(page(p)) {
        assert page(p) != NoPage && page(p) != Page([]);
      }
    }
    if EndsAt(page, last) {
      forall p: nat | 1 <= p < last ensures page(p) != NoPage && page(p) != Page([]) {
        assert FullPage(page(p));
      }
    }
  }

  /** Some row of pages 1 to last - 1 reads as the item. */
  ghost predicate Gives(page: nat -> PageAnswer, last: nat, it: WatchItem) {
    exists p: nat, r :: 1 <= p < last && page(p).Page? && r in page(p).rows && ReadsAs(r, it)
  }

  lemma PagesList(page: nat -> PageAnswer, last: nat, it: WatchItem)
    requires 1 <= last
    ensures it in Pages(page, last - 1) <==> Gives(page, last, it)
  {
    if it in Pages(page, last - 1) {
      var p := ConcatSource(ItemsOf(page), last - 1, it);
      assert it in PageItems(page(p));
      RowOfItem(page(p).rows, it);
      var r :| r in page(p).rows && ItemOf(r) == it;
      ItemOfReadsAs(r, it);
    }
    if p: nat, r :| 1 <= p < last && page(p).Page? && r in page(p).rows && ReadsAs(r, it) {
      ItemOfReadsAs(r, it);
      ItemsMember(page(p).rows, r);
      ConcatMember(ItemsOf(page), last - 1, p, it);
    }
  }

  /** One of the first 101 pages is empty and every page before it answers. */
  ghost predicate Ends(page: nat -> PageAnswer) {
    exists last: nat :: last <= 101 && FirstEmpty(page, last)
  }

  /** And a row before it reads as the item. */
  ghost predicate EndLists(page: nat -> PageAnswer, it: WatchItem) {
    exists last: nat :: last <= 101 && FirstEmpty(page, last) && Gives(page, last, it)
  }

  /** Paging succeeds exactly if it ends, and then lists exactly what the rows before its end read as. */
  lemma FetchLists(page: nat -> PageAnswer, it: WatchItem)
    ensures FetchAnswer(page).Ok? <==> Ends(page)
    ensures FetchAnswer(page).Ok? ==> (it in FetchAnswer(page).value <==> EndLists(page, it))
  {
    EndUnique(page);
    forall last: nat ensures EndsAt(page, last) <==> FirstEmpty(page, last) {
      EndsAtFirstEmpty(page, last);
    }
    if FetchAnswer(page).Ok? {
      var last: nat :| last <= MAX_PAGES + 1 && EndsAt(page, last) && FetchAnswer(page).value == Pages(page, last - 1);
      PagesList(page, last, it);
    }
  }

  /** Paging never truncates silently: it returns every entry before the first empty page, if there is one within
      the cap or as the probe beyond it, and otherwise fails at a page that did not answer or is one too many. */
  method FetchKind(page: nat -> PageAnswer) returns (r: Answer<seq<WatchItem>>, requests: nat)
    ensures r == FetchAnswer(page)
    ensures r.Ok? <==> exists last: nat :: last <= 101 && EndsAt(page, last)
    ensures 1 <= requests <= 101
    ensures r.Ok? ==> EndsAt(page, requests)
    ensures r.Err? ==> page(requests) != Page([]) && FullTo(page, requests)
  {
    var out: seq<WatchItem> := [];
    var n := 1;
    while n <= MAX_PAGES + 1
      invariant 1 <= n <= MAX_PAGES + 1 && Progress(page, n, out)
      decreases MAX_PAGES + 2 - n
    {
      var answer := page(n);
      if answer.NoPage? {
        PageBreaks(page, n, out);
        return Err, n;
      }
      if answer.rows == [] {
        PageEnds(page, n, out);
        return Ok(out), n;
      }
      if n > MAX_PAGES {
        PageBreaks(page, n, out);
        return Err, n;
      }
      PageNext(page, n, out);
      var entries := ReadRows(answer.rows);
      out := out + entries;
      n := n + 1;
    }
    assert false;
    r := Err;
  }

  // ---------- history ----------

  /** A server's answers to the two history kinds, by start and page. */
  datatype Feed = Feed(movies: (Instant, nat) -> PageAnswer, episodes: (Instant, nat) -> PageAnswer)

  function From(list: (Instant, nat) -> PageAnswer, since: Instant): nat -> PageAnswer {
    (p: nat) => list(since, p)
  }

  /** Movies first, then episodes; either failing fails the read. */
  function HistoryAnswer(f: Feed, since: Instant): Answer<seq<WatchItem>> {
    match FetchAnswer(From(f.movies, since))
    case Err => Err
    case Ok(movies) =>
      match FetchAnswer(From(f.episodes, since))
      case Err => Err
      case Ok(episodes) => Ok(movies + episodes)
  }

  method History(f: Feed, since: Instant) returns (r: Answer<seq<WatchItem>>)
    ensures r == HistoryAnswer(f, since)
  {
    var movies, n := FetchKind(From(f.movies, since));
    if movies.Err? {
      return Err;
    }
    var episodes, m := FetchKind(From(f.episodes, since));
    if episodes.Err? {
      return Err;
    }
    r := Ok(movies.value + episodes.value);
  }

  /** The paging of both kinds ends, and a row of one of them reads as the item. */
  ghost predicate Offers(f: Feed, since: Instant, it: WatchItem) {
    && Ends(From(f.movies, since)) && Ends(From(f.episodes, since))
    && (EndLists(From(f.movies, since), it) || EndLists(From(f.episodes, since), it))
  }

  /** A read succeeds exactly if the paging of both kinds ends, and then lists exactly what their rows read as. */
  lemma HistoryLists(f: Feed, since: Instant, it: WatchItem)
    ensures forall p: nat :: From(f.movies, since)(p) == f.movies(since, p) && From(f.episodes, since)(p) == f.episodes(since, p)
    ensures HistoryAnswer(f, since).Ok? <==> Ends(From(f.movies, since)) && Ends(From(f.episodes, since))
    ensures HistoryAnswer(f, since).Ok? ==> (it in HistoryAnswer(f, since).value <==> Offers(f, since, it))
  {
    FetchLists(From(f.movies, since), it);
    FetchLists(From(f.episodes, since), it);
  }

  predicate DatedFrom(it: WatchItem, start: Instant) {
    start <= it.watchedAt
  }

  /** start_at is since with its fraction of a second cut off; the zero time asks for everything. */
  function StartAt(since: Instant): Instant {
    since / SECOND * SECOND
  }

  /** What a server lists of its history when asked from since. */
  function Listed(history: seq<WatchItem>, since: Instant): seq<WatchItem> {
    if IsZero(since) then history else Select(history, (it: WatchItem) => DatedFrom(it, StartAt(since)))
  }

  /** If the pages end, the ones before the end list exactly that. */
  ghost predicate Yields(page: nat -> PageAnswer, listing: seq<WatchItem>) {
    forall last: nat :: EndsAt(page, last) ==> Pages(page, last - 1) == listing
  }

  /** A server that honours start_at over a history of movies and one of episodes that stand still while they are
      read, if it answers at all. */
  ghost predicate ServesInOrder(f: Feed, since: Instant, movies: seq<WatchItem>, episodes: seq<WatchItem>) {
    Yields(From(f.movies, since), Listed(movies, since)) && Yields(From(f.episodes, since), Listed(episodes, since))
  }

  /** Whatever fails on the way, a read that succeeds against such a server leaves out only entries dated before
      the cursor, movies and episodes together, and keeps their order. */
  lemma HistoryIsWindow(f: Feed, since: Instant, movies: seq<WatchItem>, episodes: seq<WatchItem>)
    requires ServesInOrder(f, since, movies, episodes) && HistoryAnswer(f, since).Ok?
    ensures Window(HistoryAnswer(f, since).value, movies + episodes, since)
  {
    ListedIsWindow(movies, since);
    ListedIsWindow(episodes, since);
    WindowConcat(Listed(movies, since), movies, Listed(episodes, since), episodes, since);
  }

  const PAGE_LIMIT: nat := 100

  /** The pages are cut from a list that may gain rows at its front while they are read. */
  ghost predicate Paged(page: nat -> PageAnswer, list: nat -> seq<HistoryRow>) {
    && Paging.Grows(list)
    && forall p: nat :: 1 <= p && page(p).Page? ==> page(p).rows == Paging.Slice(list(p), p, PAGE_LIMIT)
  }

  lemma {:induction false} ItemsMember(rows: seq<HistoryRow>, r: HistoryRow)
    requires r in rows
    ensures ItemOf(r) in Items(rows)
  {
    if r != Last(rows) {
      ItemsMember(Init(rows), r);
    }
  }

  lemma {:induction false} RowOfItem(rows: seq<HistoryRow>, it: WatchItem)
    requires it in Items(rows)
    ensures exists r :: r in rows && ItemOf(r) == it
  {
    if it != ItemOf(Last(rows)) {
      RowOfItem(Init(rows), it);
    }
  }

  /** An end of the paging lies behind every row that was listed when the first page was. */
  lemma EndIsFar(page: nat -> PageAnswer, list: nat -> seq<HistoryRow>, last: nat, r: HistoryRow)
    requires Paged(page, list) && EndsAt(page, last) && r in list(1)
    ensures last > 1 && |list(last - 1)| <= (last - 1) * PAGE_LIMIT
  {
    Paging.EmptySlice(list(last), last, PAGE_LIMIT);
    if last > 1 {
      assert Paging.Tail(list(last - 1), list(last - 1 + 1));
    }
  }

  lemma RowHolds(page: nat -> PageAnswer, list: nat -> seq<HistoryRow>, last: nat, r: HistoryRow)
    requires Paged(page, list) && EndsAt(page, last) && r in list(1)
    ensures ItemOf(r) in Pages(page, last - 1)
  {
    EndIsFar(page, list, last, r);
    var p := Paging.NothingMissed(list, PAGE_LIMIT, last - 1, r);
    assert FullPage(page(p));
    ItemsMember(page(p).rows, r);
    ConcatMember(ItemsOf(page), last - 1, p, ItemOf(r));
  }

  /** Paging that succeeds returns every entry that was listed when its first page was. */
  lemma FetchHolds(page: nat -> PageAnswer, list: nat -> seq<HistoryRow>, it: WatchItem)
    requires Paged(page, list) && FetchAnswer(page).Ok? && it in Items(list(1))
    ensures it in FetchAnswer(page).value
  {
    RowOfItem(list(1), it);
    var r :| r in list(1) && ItemOf(r) == it;
    var last: nat :| last <= MAX_PAGES + 1 && EndsAt(page, last) && FetchAnswer(page).value == Pages(page, last - 1);
    RowHolds(page, list, last, r);
  }

  /** A server that lists, when the first page of each kind is asked for, every entry held that is dated from since on
      and before until, however the lists shift afterwards. */
  ghost predicate Serves(f: Feed, since: Instant, until: Instant, held: seq<WatchItem>,
      movies: nat -> seq<HistoryRow>, episodes: nat -> seq<HistoryRow>) {
    && Paged(From(f.movies, since), movies) && Paged(From(f.episodes, since), episodes)
    && forall it :: it in held && !Before(it, since) && it.watchedAt < until ==>
         it in Items(movies(1)) || it in Items(episodes(1))
  }

  /** Whatever fails or shifts on the way, a read that succeeds covers what the server held. */
  lemma HistoryCovers(f: Feed, since: Instant, until: Instant, hash: WatchItem -> string, held: seq<WatchItem>,
      movies: nat -> seq<HistoryRow>, episodes: nat -> seq<HistoryRow>)
    requires Serves(f, since, until, held, movies, episodes) && HistoryAnswer(f, since).Ok?
    ensures Covers(hash, HistoryAnswer(f, since).value, held, since, until)
  {
    forall it | it in held && !Before(it, since) && it.watchedAt < until
      ensures HoldsHash(hash, HistoryAnswer(f, since).value, it)
    {
      if it in Items(movies(1)) {
        FetchHolds(From(f.movies, since), movies, it);
      } else {
        FetchHolds(From(f.episodes, since), episodes, it);
      }
      assert it in HistoryAnswer(f, since).value;
    }
  }

  lemma ListedIsWindow(history: seq<WatchItem>, since: Instant)
    ensures Window(Listed(history, since), history, since)
  {
    if IsZero(since) {
      WindowSelf(history, since);
    } else {
      SelectIsWindow(history, (it: WatchItem) => DatedFrom(it, StartAt(since)), since);
    }
  }

  /** Every row reads as a movie or an episode. */
  lemma {:induction false} RowsListable(rows: seq<HistoryRow>)
    ensures forall it :: it in Items(rows) ==> Listable(it)
  {
    if rows != [] {
      RowsListable(Init(rows));
    }
  }

  lemma PagesListable(page: nat -> PageAnswer, n: nat)
    ensures forall it :: it in Pages(page, n) ==> Listable(it)
  {
    forall p: nat, it | it in ItemsOf(page)(p) ensures Listable(it) {
      if page(p).Page? {
        RowsListable(page(p).rows);
      }
    }
    ConcatAll(ItemsOf(page), n, Listable);
  }

  lemma FetchListable(page: nat -> PageAnswer)
    ensures FetchAnswer(page).Ok? ==> forall it :: it in FetchAnswer(page).value ==> Listable(it)
  {
    if FetchAnswer(page).Ok? {
      var last: nat :| last <= MAX_PAGES + 1 && EndsAt(page, last) && FetchAnswer(page).value == Pages(page, last - 1);
      PagesListable(page, last - 1);
    }
  }

  lemma HistoryListable(f: Feed, since: Instant)
    ensures HistoryAnswer(f, since).Ok? ==> forall it :: it in HistoryAnswer(f, since).value ==> Listable(it)
  {
    FetchListable(From(f.movies, since));
    FetchListable(From(f.episodes, since));
  }

  // ---------- push ----------

  datatype NotFound = NotFound(movies: seq<IDs>, episodes: seq<IDs>)

  /** No answer at all, a status with an unreadable body, or a status with its not_found section. */
  datatype PostAnswer = NoAnswer | Malformed(code: int) | Answered(code: int, notFound: NotFound)

  /** One element of the request: watched_at to the second, and the ids. */
  datatype Entry = Entry(at: int, ids: IDs)

  predicate Supported(it: WatchItem) {
    !IsZero(it.watchedAt) && (it.mediaType == "movie" || it.mediaType == "episode")
  }

  function PushIds(ids: IDs): IDs {
    ids.(simkl := 0)
  }

  /** The request section for one media type. */
  function Section(items: seq<WatchItem>, mediaType: string): seq<Entry> {
    if items == [] then []
    else
      var earlier, it := Section(Init(items), mediaType), Last(items);
      if Supported(it) && it.mediaType == mediaType
      then earlier + [Entry(it.watchedAt / SECOND, PushIds(it.ids))] else earlier
  }

  /** The dated movies, or the dated episodes. */
  function DatedOf(mediaType: string): WatchItem -> bool {
    (it: WatchItem) =>
      it.watchedAt != 0 && it.mediaType == mediaType && (mediaType == "movie" || mediaType == "episode")
  }

  /** The request carries exactly the supported items of each type, in order, each with its own ids and its own
      instant cut to the second. */
  lemma {:induction false} SectionMatchesItems(items: seq<WatchItem>, mediaType: string)
    ensures var sent, chosen := Section(items, mediaType), Select(items, DatedOf(mediaType));
      |sent| == |chosen| && forall k :: 0 <= k < |sent| ==>
        && sent[k].at * SECOND <= chosen[k].watchedAt < (sent[k].at + 1) * SECOND
        && sent[k].ids.trakt == chosen[k].ids.trakt && sent[k].ids.imdb == chosen[k].ids.imdb
        && sent[k].ids.tmdb == chosen[k].ids.tmdb && sent[k].ids.tvdb == chosen[k].ids.tvdb && sent[k].ids.simkl == 0
  {
    if items != [] {
      SectionMatchesItems(Init(items), mediaType);
    }
  }

  predicate SharesId(ids: IDs, nf: IDs) {
    || (nf.trakt != 0 && nf.trakt == ids.trakt)
    || (nf.imdb != "" && nf.imdb == ids.imdb)
    || (nf.tmdb != 0 && nf.tmdb == ids.tmdb)
    || (nf.tvdb != 0 && nf.tvdb == ids.tvdb)
  }

  predicate Unresolved(ids: IDs, list: seq<IDs>) {
    exists k :: 0 <= k < |list| && SharesId(ids, list[k])
  }

  /** An item is matched against the not_found list of its own category only. */
  predicate Taken(it: WatchItem, nf: NotFound) {
    Supported(it) && !Unresolved(it.ids, if it.mediaType == "movie" then nf.movies else nf.episodes)
  }

  predicate Accepts(a: PostAnswer) {
    a.Answered? && (a.code == 200 || a.code == 201)
  }

  function Reply(items: seq<WatchItem>, a: PostAnswer): PushReply {
    if !Accepts(a) then PushReply([], true)
    else PushReply(Select(items, (it: WatchItem) => Taken(it, a.notFound)), false)
  }

  method Push(items: seq<WatchItem>, a: PostAnswer) returns (reply: PushReply, movies: seq<Entry>, episodes: seq<Entry>)
    ensures reply == Reply(items, a)
    ensures movies == Section(items, "movie") && episodes == Section(items, "episode")
  {
    movies, episodes := [], [];
    var delivered: seq<WatchItem> := [];
    assert items[..|items|] == items;
    for i := 0 to |items|
      invariant delivered == Select(items[..i], Supported)
      invariant movies == Section(items[..i], "movie") && episodes == Section(items[..i], "episode")
    {
      var it := items[i];
      assert Init(items[..i + 1]) == items[..i];
      if IsZero(it.watchedAt) {
        continue;
      }
      var at := it.watchedAt / SECOND;
      if it.mediaType == "movie" {
        movies := movies + [Entry(at, PushIds(it.ids))];
        delivered := delivered + [it];
      } else if it.mediaType == "episode" {
        episodes := episodes + [Entry(at, PushIds(it.ids))];
        delivered := delivered + [it];
      }
    }
    if a.NoAnswer? || (a.code != 200 && a.code != 201) || a.Malformed? {
      return PushReply([], true), movies, episodes;
    }
    var nf := a.notFound;
    var kept: seq<WatchItem> := [];
    assert delivered[..|delivered|] == delivered;
    for i := 0 to |delivered|
      invariant kept == Select(delivered[..i], (it: WatchItem) => Taken(it, nf))
    {
      var it := delivered[i];
      SelectMember(items, Supported, it);
      SelectNext(delivered, i, (it: WatchItem) => Taken(it, nf));
      var list := if it.mediaType == "movie" then nf.movies else nf.episodes;
      if !Unresolved(it.ids, list) {
        kept := kept + [it];
      }
    }
    SelectTwice(items, Supported, (it: WatchItem) => Taken(it, nf));
    return PushReply(kept, false), movies, episodes;
  }

  lemma AlwaysSubseq(items: seq<WatchItem>, a: PostAnswer)
    ensures Subseq(Reply(items, a).delivered, items)
  {
    if Accepts(a) {
      SelectIsSubseq(items, (it: WatchItem) => Taken(it, a.notFound));
    }
  }

  /** What is reported delivered is part of what was offered, nothing on any error; on success an occurrence is
      left out exactly when it is unsupported, undated or reported unresolved in its own category. */
  lemma ReplyKeepsContract(items: seq<WatchItem>, a: PostAnswer, it: WatchItem)
    ensures Subseq(Reply(items, a).delivered, items)
    ensures Reply(items, a).failed <==> !(a.Answered? && (a.code == 200 || a.code == 201))
    ensures Reply(items, a).failed ==> Reply(items, a).delivered == []
    ensures !Reply(items, a).failed ==>
              multiset(Reply(items, a).delivered)[it] == if Kept(it, a.notFound) then multiset(items)[it] else 0
  {
    AlwaysSubseq(items, a);
    if Accepts(a) {
      SelectOccurrences(items, (it: WatchItem) => Taken(it, a.notFound), it);
      KeptIsTaken(it, a.notFound);
    }
  }

  lemma KeptIsTaken(it: WatchItem, nf: NotFound)
    ensures Kept(it, nf) <==> Taken(it, nf)
  {
    var list := if it.mediaType == "movie" then nf.movies else nf.episodes;
    if k :| 0 <= k < |list| && SharesId(it.ids, list[k]) {
      assert list[k] in list && !Differs(it.ids, list[k]);
    }
    if n :| n in list && !Differs(it.ids, n) {
      var k :| 0 <= k < |list| && list[k] == n;
      assert SharesId(it.ids, list[k]);
    }
  }

  /** A dated movie or episode that shares no id with an unresolved entry of its own category. */
  ghost predicate Kept(it: WatchItem, nf: NotFound) {
    && it.watchedAt != 0 && (it.mediaType == "movie" || it.mediaType == "episode")
    && (it.mediaType == "movie" ==> forall n :: n in nf.movies ==> Differs(it.ids, n))
    && (it.mediaType == "episode" ==> forall n :: n in nf.episodes ==> Differs(it.ids, n))
  }

  /** No id that is set in n is the same in ids; Trakt has no Simkl ids. */
  ghost predicate Differs(ids: IDs, n: IDs) {
    (n.trakt == 0 || n.trakt != ids.trakt) && (n.imdb == "" || n.imdb != ids.imdb)
    && (n.tmdb == 0 || n.tmdb != ids.tmdb) && (n.tvdb == 0 || n.tvdb != ids.tvdb)
  }

  /** An unresolved episode never drops a movie, although their id spaces overlap, and the other way round. */
  lemma CategoriesIndependent(items: seq<WatchItem>, nf: NotFound, other: NotFound, mediaType: string)
    requires if mediaType == "movie" then nf.movies == other.movies else nf.episodes == other.episodes
    ensures Select(Select(items, (it: WatchItem) => Taken(it, nf)), (it: WatchItem) => it.mediaType == mediaType)
            == Select(Select(items, (it: WatchItem) => Taken(it, other)), (it: WatchItem) => it.mediaType == mediaType)
  {
    var p, q := (it: WatchItem) => Taken(it, nf), (it: WatchItem) => Taken(it, other);
    var typed := (it: WatchItem) => it.mediaType == mediaType;
    var both := (it: WatchItem) => p(it) && typed(it);
    forall it: WatchItem | it.mediaType == mediaType ensures Taken(it, nf) <==> Taken(it, other) {
      SameTaken(it, nf, other);
    }
    SelectBoth(items, p, typed, both);
    SelectBoth(items, q, typed, both);
  }

  lemma SameTaken(it: WatchItem, nf: NotFound, other: NotFound)
    requires if it.mediaType == "movie" then nf.movies == other.movies else nf.episodes == other.episodes
    ensures Taken(it, nf) <==> Taken(it, other)
  {
  }
}
