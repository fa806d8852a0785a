/** Watch items and the canonical key string behind their dedup hash
    (internal/model/model.go). The digest itself is a hash function that the
    other modules take as a parameter. */
module Model {
  import opened Text
  import opened Calendar

  datatype IDs = IDs(trakt: int, simkl: int, imdb: string, tmdb: int, tvdb: int)

  datatype WatchItem = WatchItem(
    ids: IDs, mediaType: string, title: string, year: int,
    season: int, episode: int, watchedAt: Instant)

  function LowerChar(c: char): char {
    if 'A' <= c <= 'Z' then (c as int + 32) as char else c
  }

  function Lower(s: string): string {
    if s == [] then [] else [LowerChar(s[0])] + Lower(s[1..])
  }

  lemma {:induction false} LowerKeepsBars(s: string)
    ensures '|' in Lower(s) <==> '|' in s
  {
    if s != [] {
      LowerKeepsBars(s[1..]);
      assert s == [s[0]] + s[1..];
    }
  }

  /** Lower-casing keeps the length, moves each letter from A to Z to its small one and keeps every other character. */
  lemma {:induction false} LowerAt(s: string, i: nat)
    requires i < |s|
    ensures |Lower(s)| == |s|
    ensures 'A' <= s[i] <= 'Z' ==> Lower(s)[i] as int - 'a' as int == s[i] as int - 'A' as int
    ensures !('A' <= s[i] <= 'Z') ==> Lower(s)[i] == s[i]
  {
    LowerLength(s);
    if i > 0 {
      LowerAt(s[1..], i - 1);
    }
  }

  lemma {:induction false} LowerLength(s: string)
    ensures |Lower(s)| == |s|
  {
    if s != [] {
      LowerLength(s[1..]);
    }
  }

  /** What the key says about an item; title and year are absent. */
  datatype KeyFields = KeyFields(
    kind: string, trakt: int, simkl: int, imdb: string, tmdb: int, tvdb: int,
    season: int, episode: int, at: Instant)

  function FieldsOf(w: WatchItem): KeyFields {
    KeyFields(Lower(w.mediaType), w.ids.trakt, w.ids.simkl, w.ids.imdb, w.ids.tmdb, w.ids.tvdb,
              w.season, w.episode, w.watchedAt)
  }

  function Bar(a: string, b: string): string {
    a + ['|'] + b
  }

  function Head(f: KeyFields): string {
    Bar(f.kind, Bar(Dec(f.trakt), Bar(Dec(f.simkl), f.imdb)))
  }

  function PrintKey(f: KeyFields): string {
    Bar(Bar(Bar(Bar(Bar(Head(f), Dec(f.tmdb)), Dec(f.tvdb)), Dec(f.season)), Dec(f.episode)), UtcText(f.at))
  }

  /** The string whose digest identifies an item in seen_items. */
  function Key(w: WatchItem): string {
    PrintKey(FieldsOf(w))
  }

  /** Reads five fields from the right, then three from the left; what remains is the IMDB id. */
  function DecodeKey(s: string): KeyFields {
    var s1 := BeforeLast(s, '|');
    var s2 := BeforeLast(s1, '|');
    var s3 := BeforeLast(s2, '|');
    var s4 := BeforeLast(s3, '|');
    var head := BeforeLast(s4, '|');
    var rest := After(head, '|');
    KeyFields(
      Before(head, '|'), ParseDec(Before(rest, '|')), ParseDec(Before(After(rest, '|'), '|')),
      After(After(rest, '|'), '|'),
      ParseDec(LastField(s4, '|')), ParseDec(LastField(s3, '|')),
      ParseDec(LastField(s2, '|')), ParseDec(LastField(s1, '|')), ParseUtc(LastField(s, '|')))
  }

  /** Whatever the media type, the five rightmost fields and the head read back. */
  lemma TailDecodes(f: KeyFields)
    ensures var d := DecodeKey(PrintKey(f));
            d.tmdb == f.tmdb && d.tvdb == f.tvdb && d.season == f.season && d.episode == f.episode && d.at == f.at
    ensures BeforeLast(BeforeLast(BeforeLast(BeforeLast(BeforeLast(PrintKey(f), '|'), '|'), '|'), '|'), '|') == Head(f)
  {
    UtcRoundTrip(f.at);
    DecRoundTrip(f.tmdb);
    DecRoundTrip(f.tvdb);
    DecRoundTrip(f.season);
    DecRoundTrip(f.episode);
    var h := Head(f);
    var s4 := Bar(h, Dec(f.tmdb));
    var s3 := Bar(s4, Dec(f.tvdb));
    var s2 := Bar(s3, Dec(f.season));
    var s1 := Bar(s2, Dec(f.episode));
    SplitLast(s1, '|', UtcText(f.at));
    SplitLast(s2, '|', Dec(f.episode));
    SplitLast(s3, '|', Dec(f.season));
    SplitLast(s4, '|', Dec(f.tvdb));
    SplitLast(h, '|', Dec(f.tmdb));
  }

  /** The decoder inverts the printer whenever the media type holds no separator,
      whatever the IMDB id holds. */
  lemma KeyDecodes(f: KeyFields)
    requires '|' !in f.kind
    ensures DecodeKey(PrintKey(f)) == f
  {
    TailDecodes(f);
    DecRoundTrip(f.trakt);
    DecRoundTrip(f.simkl);
    var r2 := Bar(Dec(f.simkl), f.imdb);
    var r1 := Bar(Dec(f.trakt), r2);
    SplitFirst(f.kind, '|', r1);
    SplitFirst(Dec(f.trakt), '|', r2);
    SplitFirst(Dec(f.simkl), '|', f.imdb);
  }

  /** Two watches of the same thing: type up to case, all ids, numbering and instant agree. */
  predicate SameEntry(w: WatchItem, v: WatchItem) {
    && Lower(w.mediaType) == Lower(v.mediaType) && w.ids == v.ids
    && w.season == v.season && w.episode == v.episode && w.watchedAt == v.watchedAt
  }

  /** The key is the nine fields in order, a separator between each two. */
  lemma KeyReads(w: WatchItem)
    ensures Key(w) == Lower(w.mediaType) + "|" + Dec(w.ids.trakt) + "|" + Dec(w.ids.simkl) + "|" + w.ids.imdb
                      + "|" + Dec(w.ids.tmdb) + "|" + Dec(w.ids.tvdb) + "|" + Dec(w.season) + "|" + Dec(w.episode)
                      + "|" + UtcText(w.watchedAt)
  {
    JoinFour(Lower(w.mediaType), Dec(w.ids.trakt), Dec(w.ids.simkl), w.ids.imdb);
    AddFive(Head(FieldsOf(w)), Dec(w.ids.tmdb), Dec(w.ids.tvdb), Dec(w.season), Dec(w.episode), UtcText(w.watchedAt));
  }

  lemma JoinFour(k: string, t: string, s: string, i: string)
    ensures Bar(k, Bar(t, Bar(s, i))) == k + "|" + t + "|" + s + "|" + i
  {
    BarAssociates(k, t, Bar(s, i));
    BarAssociates(Bar(k, t), s, i);
  }

  lemma AddFive(h: string, a: string, b: string, c: string, d: string, e: string)
    ensures Bar(Bar(Bar(Bar(Bar(h, a), b), c), d), e) == h + "|" + a + "|" + b + "|" + c + "|" + d + "|" + e
  {
  }

  /** Two items share a key exactly when type, ids, numbering and instant agree; title and year never matter. */
  lemma KeyUnique(w: WatchItem, v: WatchItem)
    requires '|' !in w.mediaType && '|' !in v.mediaType
    ensures Key(w) == Key(v) <==>
              && Lower(w.mediaType) == Lower(v.mediaType)
              && w.ids.trakt == v.ids.trakt && w.ids.simkl == v.ids.simkl && w.ids.imdb == v.ids.imdb
              && w.ids.tmdb == v.ids.tmdb && w.ids.tvdb == v.ids.tvdb
              && w.season == v.season && w.episode == v.episode && w.watchedAt == v.watchedAt
  {
    LowerKeepsBars(w.mediaType);
    LowerKeepsBars(v.mediaType);
    KeyDecodes(FieldsOf(w));
    KeyDecodes(FieldsOf(v));
  }

  /** The media types that readers list. */
  predicate Listable(w: WatchItem) {
    w.mediaType == "movie" || w.mediaType == "episode"
  }

  /** The digest is taken to tell apart what the key tells apart. */
  ghost predicate CollisionFree(hash: WatchItem -> string) {
    forall w: WatchItem, v: WatchItem :: hash(w) == hash(v) ==> Key(w) == Key(v)
  }

  /** A shared hash then means the same entry: ids, numbering, type and instant. */
  lemma SameHashSameEntry(hash: WatchItem -> string, w: WatchItem, v: WatchItem)
    requires CollisionFree(hash) && hash(w) == hash(v)
    requires '|' !in w.mediaType && '|' !in v.mediaType
    ensures SameEntry(w, v)
  {
    KeyUnique(w, v);
  }

  /** Items that a reader lists are told apart whatever their ids hold. */
  lemma ListableSameEntry(hash: WatchItem -> string, w: WatchItem, v: WatchItem)
    requires CollisionFree(hash) && Listable(w) && Listable(v)
    ensures hash(w) == hash(v) ==> SameEntry(w, v)
  {
    if hash(w) == hash(v) {
      SameHashSameEntry(hash, w, v);
    }
  }

  // ---------- media types that do contain the separator ----------

  predicate IsNumeral(s: string) {
    Dec(ParseDec(s)) == s
  }

  /** long is short plus further fields that a reader could take for the Trakt and Simkl ids. */
  predicate Swallows(short: string, long: string) {
    && |short| < |long| && short <= long && long[|short|] == '|'
    && var rest := long[|short| + 1..];
       && IsNumeral(Before(rest, '|'))
       && ('|' in rest ==> IsNumeral(Before(After(rest, '|'), '|')))
  }

  lemma {:induction false} BeforeOfBar(a: string, z: string)
    ensures Before(Bar(a, z), '|') == Before(a, '|')
  {
    assert Bar(a, z)[1..] == if a == [] then z else Bar(a[1..], z);
    if a != [] {
      BeforeOfBar(a[1..], z);
    }
  }

  lemma {:induction false} AfterOfBar(a: string, z: string)
    ensures After(Bar(a, z), '|') == if '|' in a then Bar(After(a, '|'), z) else z
  {
    assert Bar(a, z)[1..] == if a == [] then z else Bar(a[1..], z);
    if a != [] {
      AfterOfBar(a[1..], z);
    }
  }

  lemma {:induction false} FirstBar(a: string)
    ensures a == if '|' in a then Bar(Before(a, '|'), After(a, '|')) else Before(a, '|')
  {
    if a != [] {
      FirstBar(a[1..]);
      assert a == [a[0]] + a[1..];
    }
  }

  /** Where the first separator of a ++ '|' ++ z falls. */
  lemma SplitOfBar(a: string, z: string)
    ensures Before(Bar(a, z), '|') == Before(a, '|')
    ensures After(Bar(a, z), '|') == if '|' in a then Bar(After(a, '|'), z) else z
    ensures a == if '|' in a then Bar(Before(a, '|'), After(a, '|')) else Before(a, '|')
  {
    BeforeOfBar(a, z);
    AfterOfBar(a, z);
    FirstBar(a);
  }

  lemma SharedHeadSwallows(f: KeyFields, g: KeyFields)
    requires Head(f) == Head(g) && |f.kind| < |g.kind|
    ensures Swallows(f.kind, g.kind)
  {
    var h := Head(f);
    var rest := g.kind[|f.kind| + 1..];
    assert g.kind == h[..|g.kind|] && f.kind == h[..|f.kind|];
    assert h[|f.kind|] == '|' && h[|f.kind|] == g.kind[|f.kind|];
    var fRest := Bar(Dec(f.trakt), Bar(Dec(f.simkl), f.imdb));
    var gRest := Bar(Dec(g.trakt), Bar(Dec(g.simkl), g.imdb));
    assert fRest == h[|f.kind| + 1..] == Bar(rest, gRest);
    DecRoundTrip(f.trakt);
    DecRoundTrip(f.simkl);
    SplitFirst(Dec(f.trakt), '|', Bar(Dec(f.simkl), f.imdb));
    SplitFirst(Dec(f.simkl), '|', f.imdb);
    SplitOfBar(rest, gRest);
    if '|' in rest {
      SplitOfBar(After(rest, '|'), gRest);
    }
  }

  lemma SameLengthKinds(f: KeyFields, g: KeyFields)
    requires Head(f) == Head(g) && |f.kind| == |g.kind|
    ensures f.kind == g.kind
  {
    assert f.kind == Head(f)[..|f.kind|] && g.kind == Head(g)[..|f.kind|];
  }

  /** Items of one media type never share a key, whatever the type holds. */
  lemma SameKindSameFields(f: KeyFields, g: KeyFields)
    requires f.kind == g.kind && PrintKey(f) == PrintKey(g)
    ensures f == g
  {
    TailDecodes(f);
    TailDecodes(g);
    IdsOfHead(f);
    IdsOfHead(g);
  }

  lemma IdsOfHead(f: KeyFields)
    ensures var rest := Head(f)[|f.kind| + 1..];
            ParseDec(Before(rest, '|')) == f.trakt && ParseDec(Before(After(rest, '|'), '|')) == f.simkl
            && After(After(rest, '|'), '|') == f.imdb
  {
    DecRoundTrip(f.trakt);
    DecRoundTrip(f.simkl);
    var ids := Bar(Dec(f.simkl), f.imdb);
    assert Head(f)[|f.kind| + 1..] == Bar(Dec(f.trakt), ids);
    SplitFirst(Dec(f.trakt), '|', ids);
    SplitFirst(Dec(f.simkl), '|', f.imdb);
  }

  lemma SameHeadSameKey(f: KeyFields, g: KeyFields)
    requires Head(f) == Head(g)
    requires f.(kind := g.kind, trakt := g.trakt, simkl := g.simkl, imdb := g.imdb) == g
    ensures PrintKey(f) == PrintKey(g)
  {
  }

  lemma BarAssociates(a: string, b: string, c: string)
    ensures Bar(Bar(a, b), c) == Bar(a, Bar(b, c))
  {
  }

  /** The numerals that follow a media type when the Trakt and Simkl ids are 0 and the IMDB id is empty. */
  function Zeros(): string {
    Bar(Dec(0), Bar(Dec(0), []))
  }

  lemma SwallowedHead(short: string, long: string) returns (f: KeyFields, g: KeyFields)
    requires Swallows(short, long)
    ensures f.kind == short && g.kind == long && PrintKey(f) == PrintKey(g)
  {
    var rest := long[|short| + 1..];
    assert long == Bar(short, rest);
    BarAssociates(short, rest, Zeros());
    g := KeyFields(long, 0, 0, [], 0, 0, 0, 0, 0);
    f := ShortReading(short, rest);
    SameHeadSameKey(f, g);
  }

  lemma ShortReading(short: string, rest: string) returns (f: KeyFields)
    requires IsNumeral(Before(rest, '|'))
    requires '|' in rest ==> IsNumeral(Before(After(rest, '|'), '|'))
    ensures f == KeyFields(short, f.trakt, f.simkl, f.imdb, 0, 0, 0, 0, 0)
    ensures Head(f) == Bar(short, Bar(rest, Zeros()))
  {
    SplitOfBar(rest, Zeros());
    if '|' !in rest {
      f := KeyFields(short, ParseDec(rest), 0, Bar(Dec(0), []), 0, 0, 0, 0, 0);
    } else {
      var n, more := Before(rest, '|'), After(rest, '|');
      BarAssociates(n, more, Zeros());
      f := SwallowedPair(short, n, more, Zeros());
    }
  }

  lemma SwallowedPair(short: string, n: string, more: string, tail: string) returns (f: KeyFields)
    requires IsNumeral(n) && IsNumeral(Before(more, '|'))
    ensures f == KeyFields(short, f.trakt, f.simkl, f.imdb, 0, 0, 0, 0, 0)
    ensures Head(f) == Bar(short, Bar(n, Bar(more, tail)))
  {
    SplitOfBar(more, tail);
    var m := Before(more, '|');
    if '|' in more {
      f := KeyFields(short, ParseDec(n), ParseDec(m), Bar(After(more, '|'), tail), 0, 0, 0, 0, 0);
      BarAssociates(m, After(more, '|'), tail);
    } else {
      f := KeyFields(short, ParseDec(n), ParseDec(m), tail, 0, 0, 0, 0, 0);
    }
  }

  /** Two different entries of media types k and l can share a key exactly when one type is the other plus
      numerals after separators; in particular never when neither holds a separator, or when k is l. */
  lemma KeyAmbiguousExactly(k: string, l: string)
    ensures (exists f: KeyFields, g: KeyFields :: f.kind == k && g.kind == l && f != g && PrintKey(f) == PrintKey(g))
            <==> Swallows(k, l) || Swallows(l, k)
  {
    if f: KeyFields, g: KeyFields :| f.kind == k && g.kind == l && f != g && PrintKey(f) == PrintKey(g) {
      TailDecodes(f);
      TailDecodes(g);
      if |k| < |l| {
        SharedHeadSwallows(f, g);
      } else if |l| < |k| {
        SharedHeadSwallows(g, f);
      } else {
        SameLengthKinds(f, g);
        SameKindSameFields(f, g);
      }
    }
    if Swallows(k, l) {
      var f, g := SwallowedHead(k, l);
    } else if Swallows(l, k) {
      var g, f := SwallowedHead(l, k);
    }
  }

  /** The precondition on media types is needed: two different items, of types no reader lists, with one key. */
  lemma KeyCollisionExample() returns (w: WatchItem, v: WatchItem)
    ensures Key(w) == Key(v) && w.ids.imdb != v.ids.imdb && w.ids.trakt != v.ids.trakt
  {
    w := WatchItem(IDs(1, 2, "3|tt9", 0, 0), "a", "", 0, 0, 0, 0);
    v := WatchItem(IDs(2, 3, "tt9", 0, 0), "a|1", "", 0, 0, 0, 0);
    assert Lower("|1") == "|1" by { assert Lower("1") == "1"; }
    var f, g := FieldsOf(w), FieldsOf(v);
    assert f.kind == "a" && g.kind == "a|1";
    assert Dec(1) == "1" && Dec(2) == "2" && Dec(3) == "3";
    assert Bar("3", "tt9") == "3|tt9";
    assert Bar("a", Bar("1", Bar("2", "3|tt9"))) == Bar("a|1", Bar("2", "3|tt9"));
    SameHeadSameKey(f, g);
  }
}
