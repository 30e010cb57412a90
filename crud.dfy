/**
 * The read-only queries over the `tracks` table: the filtered, sorted and
 * paginated track listing, the top-artists report and the summary.
 *
 * The table is a sequence of rows; every query is a function of it, so no
 * query can change the table. Where the store is free to choose (the order of
 * rows with equal sort keys, where NULLs go, the order of artists with equal
 * counts) the model makes one deterministic choice with an insertion sort,
 * and the lemmas state only what every admissible order satisfies.
 */
module Crud {
  import opened Wrappers
  import opened Text
  import opened Seqs
  import opened Models

  /** The arguments of a track listing, after the API has applied its defaults. */
  datatype TrackQuery = TrackQuery(
    limit: int,
    offset: int,
    q: Option<string>,
    artist: Option<string>,
    minDanceability: Option<real>,
    tempoMin: Option<real>,
    tempoMax: Option<real>,
    sort: Option<string>,
    order: string)

  // ---------------------------------------------------------------------------
  // Filtering
  // ---------------------------------------------------------------------------

  /** A text filter applies only when it is present and non-empty (Python truthiness). */
  predicate IsActive(s: Option<string>) {
    s.Some? && s.value != ""
  }

  /** `col ILIKE '%pat%'` on a nullable column: NULL never matches. */
  predicate NullableContains(col: Option<string>, pat: string) {
    col.Some? && ContainsIgnoringCase(col.value, pat)
  }

  /** `col >= bound` on a nullable column: NULL never satisfies it. */
  predicate AtLeast(col: Option<real>, bound: real) {
    col.Some? && col.value >= bound
  }

  /** `col <= bound` on a nullable column: NULL never satisfies it. */
  predicate AtMost(col: Option<real>, bound: real) {
    col.Some? && col.value <= bound
  }

  /** The conjunction of the WHERE clauses that the listing adds for its active filters. */
  predicate Matches(t: Track, query: TrackQuery) {
    (IsActive(query.q) ==>
      ContainsIgnoringCase(t.trackName, query.q.value)
      || ContainsIgnoringCase(t.artist, query.q.value)
      || NullableContains(t.album, query.q.value))
    && (IsActive(query.artist) ==> ContainsIgnoringCase(t.artist, query.artist.value))
    && (query.minDanceability.Some? ==> AtLeast(t.danceability, query.minDanceability.value))
    && (query.tempoMin.Some? ==> AtLeast(t.tempo, query.tempoMin.value))
    && (query.tempoMax.Some? ==> AtMost(t.tempo, query.tempoMax.value))
  }

  /** No filter is active: every row matches. */
  predicate Unfiltered(query: TrackQuery) {
    !IsActive(query.q) && !IsActive(query.artist) && query.minDanceability.None?
    && query.tempoMin.None? && query.tempoMax.None?
  }

  /** The rows the WHERE clauses keep. */
  function Filtered(rows: seq<Track>, query: TrackQuery): (r: seq<Track>)
    ensures |r| <= |rows|
    ensures forall t :: t in r ==> t in rows && Matches(t, query)
  {
    Filter(rows, t => Matches(t, query))
  }

  /** Without an active filter the WHERE clauses keep the table as it is. */
  lemma {:induction false} UnfilteredKeepsRows(rows: seq<Track>, query: TrackQuery)
    requires Unfiltered(query)
    ensures Filtered(rows, query) == rows
  {
    if rows != [] {
      UnfilteredKeepsRows(rows[1..], query);
      assert rows == [rows[0]] + rows[1..];
    }
  }

  /** The filtered row set holds each matching row as often as the table does, and no other row. */
  lemma FilteredRows(rows: seq<Track>, query: TrackQuery)
    ensures forall t :: multiset(Filtered(rows, query))[t] == if Matches(t, query) then multiset(rows)[t] else 0
  {
    forall t ensures multiset(Filtered(rows, query))[t] == if Matches(t, query) then multiset(rows)[t] else 0 {
      FilterMultiset(rows, t => Matches(t, query), t);
    }
  }

  // ---------------------------------------------------------------------------
  // Ordering
  // ---------------------------------------------------------------------------

  /** The column a listing is ordered by. */
  datatype SortKey = ById | ByDanceability | ByTempo | ByTrackName

  /** A `sort` outside the three sortable columns falls back to the id. */
  function SortKeyOf(sort: Option<string>): (key: SortKey)
    ensures key == ById <==> sort.None? || sort.value !in {"danceability", "tempo", "track_name"}
  {
    if sort == Some("danceability") then ByDanceability
    else if sort == Some("tempo") then ByTempo
    else if sort == Some("track_name") then ByTrackName
    else ById
  }

  /** Descending only for a sortable column with order exactly "desc"; the id order is ascending. */
  predicate Descending(query: TrackQuery) {
    SortKeyOf(query.sort) != ById && query.order == "desc"
  }

  /** Ascending order on a nullable number, NULL after every value. */
  predicate NullableLe(a: Option<real>, b: Option<real>) {
    b.None? || (a.Some? && a.value <= b.value)
  }

  predicate KeyLe(a: Track, b: Track, key: SortKey) {
    match key
    case ById => a.id <= b.id
    case ByDanceability => NullableLe(a.danceability, b.danceability)
    case ByTempo => NullableLe(a.tempo, b.tempo)
    case ByTrackName => StrLe(a.trackName, b.trackName)
  }

  /** The ORDER BY of a listing: `a` may come before `b`. */
  function Ordering(query: TrackQuery): (le: (Track, Track) -> bool)
    ensures TotalPreorder(le)
  {
    var key := SortKeyOf(query.sort);
    KeyLeTotalPreorder(key);
    if Descending(query) then (a: Track, b: Track) => KeyLe(b, a, key)
    else (a: Track, b: Track) => KeyLe(a, b, key)
  }

  lemma KeyLeTotalPreorder(key: SortKey)
    ensures TotalPreorder((a: Track, b: Track) => KeyLe(a, b, key))
    ensures TotalPreorder((a: Track, b: Track) => KeyLe(b, a, key))
  {
    if key == ByTrackName {
      forall a: Track, b: Track ensures KeyLe(a, b, key) || KeyLe(b, a, key) {
        StrLeTotal(a.trackName, b.trackName);
      }
      forall a: Track, b: Track, c: Track | KeyLe(a, b, key) && KeyLe(b, c, key)
        ensures KeyLe(a, c, key)
      {
        StrLeTransitive(a.trackName, b.trackName, c.trackName);
      }
    }
  }

  /** The filtered rows in the listing's order. */
  function Ordered(rows: seq<Track>, query: TrackQuery): (r: seq<Track>)
    ensures multiset(r) == multiset(Filtered(rows, query))
    ensures |r| == |Filtered(rows, query)|
  {
    Sort(Filtered(rows, query), Ordering(query))
  }

  /** The listing order is sorted by the requested key and direction. */
  lemma OrderedSorted(rows: seq<Track>, query: TrackQuery)
    ensures SortedBy(Ordered(rows, query), Ordering(query))
  {
    SortSorted(Filtered(rows, query), Ordering(query));
  }

  // ---------------------------------------------------------------------------
  // The listing
  // ---------------------------------------------------------------------------

  /** The row-to-dictionary conversion of a listed track: every column, unchanged. */
  function TrackToDict(t: Track): (r: TrackOut)
    ensures r.id == t.id && r.trackName == t.trackName && r.artist == t.artist
    ensures r.album == t.album && r.danceability == t.danceability && r.tempo == t.tempo
  {
    TrackOut(t.id, t.trackName, t.artist, t.album, t.danceability, t.tempo)
  }

  /** OFFSET `offset` LIMIT `limit`: the elements at positions offset .. offset + limit - 1 that exist. */
  function Window<T>(s: seq<T>, offset: nat, limit: nat): (w: seq<T>)
    ensures |w| == Min(limit, Max(0, |s| - offset))
    ensures forall k :: 0 <= k < |w| ==> w[k] == s[offset + k]
  {
    s[Min(offset, |s|)..Min(offset + limit, |s|)]
  }

  /** The rows of the requested page, in listing order. */
  function Page(rows: seq<Track>, query: TrackQuery): (p: seq<Track>)
    requires query.limit >= 0 && query.offset >= 0
    ensures |p| == Min(query.limit, Max(0, |Filtered(rows, query)| - query.offset))
    ensures forall k :: 0 <= k < |p| ==> p[k] == Ordered(rows, query)[query.offset + k]
  {
    Window(Ordered(rows, query), query.offset, query.limit)
  }

  function Dicts(ts: seq<Track>): (r: seq<TrackOut>)
    ensures |r| == |ts|
    ensures forall k :: 0 <= k < |ts| ==> r[k] == TrackToDict(ts[k])
  {
    Map(ts, TrackToDict)
  }

  /**
   * get_tracks: the total is taken over every filtered row, the items are the
   * window [offset, offset + limit) of the ordered rows, and the next offset is
   * offered exactly when rows remain beyond that window.
   */
  function GetTracks(rows: seq<Track>, query: TrackQuery): (r: TracksPage)
    requires query.limit >= 0 && query.offset >= 0
    ensures r.total == |Filtered(rows, query)|
    ensures |r.items| == Min(query.limit, Max(0, r.total - query.offset))
    ensures forall k :: 0 <= k < |r.items| ==>
      r.items[k] == TrackToDict(Ordered(rows, query)[query.offset + k])
    ensures r.nextOffset.Some? <==> query.offset + query.limit < r.total
    ensures r.nextOffset.Some? ==> r.nextOffset.value == query.offset + query.limit
  {
    var total := |Filtered(rows, query)|;
    var next := if query.offset + query.limit < total then Some(query.offset + query.limit) else None;
    TracksPage(Dicts(Page(rows, query)), total, next)
  }

  /** Every listed item is a row of the table that passes every active filter. */
  lemma ItemsComeFromMatchingRows(rows: seq<Track>, query: TrackQuery, k: nat)
    requires query.limit >= 0 && query.offset >= 0
    requires k < |GetTracks(rows, query).items|
    ensures var t := Ordered(rows, query)[query.offset + k];
      t in rows && Matches(t, query) && GetTracks(rows, query).items[k] == TrackToDict(t)
  {
    var s := Ordered(rows, query);
    var t := s[query.offset + k];
    FilteredRows(rows, query);
    assert t in multiset(s);
    assert multiset(Filtered(rows, query))[t] > 0;
  }

  /** The numeric filters are inclusive bounds that exclude NULLs from every listed item. */
  lemma ItemsWithinNumericBounds(rows: seq<Track>, query: TrackQuery)
    requires query.limit >= 0 && query.offset >= 0
    ensures forall item :: item in GetTracks(rows, query).items ==>
      (query.minDanceability.Some? ==> AtLeast(item.danceability, query.minDanceability.value))
      && (query.tempoMin.Some? ==> AtLeast(item.tempo, query.tempoMin.value))
      && (query.tempoMax.Some? ==> AtMost(item.tempo, query.tempoMax.value))
  {
    var items := GetTracks(rows, query).items;
    forall item | item in items
      ensures (query.minDanceability.Some? ==> AtLeast(item.danceability, query.minDanceability.value))
      && (query.tempoMin.Some? ==> AtLeast(item.tempo, query.tempoMin.value))
      && (query.tempoMax.Some? ==> AtMost(item.tempo, query.tempoMax.value))
    {
      var k :| 0 <= k < |items| && items[k] == item;
      ItemsComeFromMatchingRows(rows, query, k);
    }
  }

  /** With a text filter, every listed item contains it, ignoring case, in a column the filter covers. */
  lemma ItemsMatchTextFilters(rows: seq<Track>, query: TrackQuery)
    requires query.limit >= 0 && query.offset >= 0
    ensures forall item :: item in GetTracks(rows, query).items ==>
      (IsActive(query.q) ==>
        ContainsIgnoringCase(item.trackName, query.q.value)
        || ContainsIgnoringCase(item.artist, query.q.value)
        || NullableContains(item.album, query.q.value))
      && (IsActive(query.artist) ==> ContainsIgnoringCase(item.artist, query.artist.value))
  {
    var items := GetTracks(rows, query).items;
    forall item | item in items
      ensures (IsActive(query.q) ==>
        ContainsIgnoringCase(item.trackName, query.q.value)
        || ContainsIgnoringCase(item.artist, query.q.value)
        || NullableContains(item.album, query.q.value))
      && (IsActive(query.artist) ==> ContainsIgnoringCase(item.artist, query.artist.value))
    {
      var k :| 0 <= k < |items| && items[k] == item;
      ItemsComeFromMatchingRows(rows, query, k);
    }
  }

  /** Two listings with the same filters report the same total, whatever their paging and sorting. */
  lemma TotalIgnoresPagingAndSorting(rows: seq<Track>, a: TrackQuery, b: TrackQuery)
    requires a.limit >= 0 && a.offset >= 0 && b.limit >= 0 && b.offset >= 0
    requires a.q == b.q && a.artist == b.artist && a.minDanceability == b.minDanceability
    requires a.tempoMin == b.tempoMin && a.tempoMax == b.tempoMax
    ensures GetTracks(rows, a).total == GetTracks(rows, b).total
  {
    var fa, fb := Filtered(rows, a), Filtered(rows, b);
    FilteredRows(rows, a);
    FilteredRows(rows, b);
    assert multiset(fa) == multiset(fb) by {
      forall t ensures multiset(fa)[t] == multiset(fb)[t] {
        assert Matches(t, a) == Matches(t, b);
      }
    }
    assert |fa| == |multiset(fa)| == |multiset(fb)| == |fb|;
  }

  /** Without filters the total is the number of rows in the table. */
  lemma UnfilteredTotalIsTableSize(rows: seq<Track>, query: TrackQuery)
    requires query.limit >= 0 && query.offset >= 0 && Unfiltered(query)
    ensures GetTracks(rows, query).total == |rows|
  {
    var f := Filtered(rows, query);
    FilteredRows(rows, query);
    assert multiset(f) == multiset(rows) by {
      forall t ensures multiset(f)[t] == multiset(rows)[t] {
        assert Matches(t, query);
      }
    }
    assert |f| == |multiset(f)| == |multiset(rows)| == |rows|;
  }

  /** An inverted tempo range is not an error: it matches nothing. */
  lemma InvertedTempoRangeIsEmpty(rows: seq<Track>, query: TrackQuery)
    requires query.limit >= 0 && query.offset >= 0
    requires query.tempoMin.Some? && query.tempoMax.Some? && query.tempoMin.value > query.tempoMax.value
    ensures GetTracks(rows, query) == TracksPage([], 0, None)
  {
    var f := Filtered(rows, query);
    FilteredRows(rows, query);
    forall t ensures multiset(f)[t] == 0 {
      assert !Matches(t, query);
    }
    assert multiset(f) == multiset{};
    assert |f| == |multiset(f)| == 0;
  }

  /**
   * Two listed items in page order, as the client sees them: ordered by the
   * requested column (descending exactly when order is "desc"; items with a
   * NULL key are left unconstrained), and by ascending id when the sort column
   * is not one of the three sortable ones.
   */
  predicate InListedOrder(x: TrackOut, y: TrackOut, sort: Option<string>, order: string) {
    if sort == Some("danceability") then
      x.danceability.Some? && y.danceability.Some? ==>
        if order == "desc" then x.danceability.value >= y.danceability.value
        else x.danceability.value <= y.danceability.value
    else if sort == Some("tempo") then
      x.tempo.Some? && y.tempo.Some? ==>
        if order == "desc" then x.tempo.value >= y.tempo.value else x.tempo.value <= y.tempo.value
    else if sort == Some("track_name") then
      if order == "desc" then StrLe(y.trackName, x.trackName) else StrLe(x.trackName, y.trackName)
    else x.id <= y.id
  }

  lemma OrderingIsListedOrder(a: Track, b: Track, query: TrackQuery)
    requires Ordering(query)(a, b)
    ensures InListedOrder(TrackToDict(a), TrackToDict(b), query.sort, query.order)
  {
    var x, y := TrackToDict(a), TrackToDict(b);
    match SortKeyOf(query.sort)
    case ById =>
      assert a.id <= b.id;
    case ByDanceability =>
      if query.order == "desc" {
        assert NullableLe(b.danceability, a.danceability);
      } else {
        assert NullableLe(a.danceability, b.danceability);
      }
    case ByTempo =>
      if query.order == "desc" {
        assert NullableLe(b.tempo, a.tempo);
      } else {
        assert NullableLe(a.tempo, b.tempo);
      }
    case ByTrackName =>
      if query.order == "desc" {
        assert StrLe(b.trackName, a.trackName);
      } else {
        assert StrLe(a.trackName, b.trackName);
      }
  }

  lemma ItemsInListedOrder(rows: seq<Track>, query: TrackQuery)
    requires query.limit >= 0 && query.offset >= 0
    ensures var items := GetTracks(rows, query).items;
      forall i, j :: 0 <= i < j < |items| ==> InListedOrder(items[i], items[j], query.sort, query.order)
  {
    var items := GetTracks(rows, query).items;
    var s := Ordered(rows, query);
    OrderedSorted(rows, query);
    forall i, j | 0 <= i < j < |items| ensures InListedOrder(items[i], items[j], query.sort, query.order) {
      var a, b := s[query.offset + i], s[query.offset + j];
      assert items[i] == TrackToDict(a) && items[j] == TrackToDict(b);
      assert Ordering(query)(a, b);
      OrderingIsListedOrder(a, b, query);
    }
  }

  /**
   * In a table whose ids increase in row order (as the store keeps them), the
   * default ordering by id is the table order: the listing pages through the
   * matching rows in the order they were inserted.
   */
  lemma DefaultOrderIsInsertionOrder(rows: seq<Track>, query: TrackQuery)
    requires IdsIncreasing(rows) && SortKeyOf(query.sort) == ById
    ensures Ordered(rows, query) == Filtered(rows, query)
  {
    var le := Ordering(query);
    var f := Filter(rows, t => Matches(t, query));
    FilterKeepsOrder(rows, t => Matches(t, query), le);
    SortOfSorted(f, le);
  }

  // ---------------------------------------------------------------------------
  // Top artists
  // ---------------------------------------------------------------------------

  /** The artist column of the table. */
  function ArtistColumn(rows: seq<Track>): (r: seq<string>)
    ensures |r| == |rows|
    ensures forall i :: 0 <= i < |rows| ==> r[i] == rows[i].artist
  {
    if rows == [] then [] else [rows[0].artist] + ArtistColumn(rows[1..])
  }

  /** How many rows carry artist `a`: count(*) of its group. */
  function Occurrences(rows: seq<Track>, a: string): (n: nat)
    ensures n == multiset(ArtistColumn(rows))[a]
  {
    if rows == [] then 0
    else
      assert ArtistColumn(rows) == [rows[0].artist] + ArtistColumn(rows[1..]);
      (if rows[0].artist == a then 1 else 0) + Occurrences(rows[1..], a)
  }

  /** The GROUP BY artist keys: each artist of the table exactly once. */
  function Artists(rows: seq<Track>): (r: seq<string>)
    ensures NoDup(r)
    ensures forall a :: a in r <==> a in ArtistColumn(rows)
  {
    if rows == [] then []
    else
      var rest := Artists(rows[1..]);
      assert ArtistColumn(rows) == [rows[0].artist] + ArtistColumn(rows[1..]);
      if rows[0].artist in rest then rest else [rows[0].artist] + rest
  }

  /** One (artist, count) pair per artist of `keys`. */
  function Groups(rows: seq<Track>, keys: seq<string>): (r: seq<TopArtist>)
    ensures |r| == |keys|
    ensures forall i :: 0 <= i < |keys| ==> r[i] == TopArtist(keys[i], Occurrences(rows, keys[i]))
  {
    if keys == [] then [] else [TopArtist(keys[0], Occurrences(rows, keys[0]))] + Groups(rows, keys[1..])
  }

  /** ORDER BY count DESC. */
  function ByCountDesc(): (TopArtist, TopArtist) -> bool {
    (x: TopArtist, y: TopArtist) => x.count >= y.count
  }

  /** Every group, in descending order of count. */
  function Ranked(rows: seq<Track>): (r: seq<TopArtist>)
    ensures multiset(r) == multiset(Groups(rows, Artists(rows)))
    ensures SortedBy(r, ByCountDesc())
  {
    SortSorted(Groups(rows, Artists(rows)), ByCountDesc());
    Sort(Groups(rows, Artists(rows)), ByCountDesc())
  }

  /** get_top_artists: the first `limit` groups by descending count. */
  function GetTopArtists(rows: seq<Track>, limit: int): (r: seq<TopArtist>)
    requires limit >= 0
    ensures |r| == Min(limit, |Artists(rows)|)
    ensures r <= Ranked(rows)
  {
    var s := Ranked(rows);
    if limit < |s| then s[..limit] else s
  }

  lemma {:induction false} OccurrencesPositive(rows: seq<Track>, a: string)
    requires a in ArtistColumn(rows)
    ensures Occurrences(rows, a) >= 1
  {
    assert ArtistColumn(rows) == [rows[0].artist] + ArtistColumn(rows[1..]);
    if rows[0].artist != a {
      OccurrencesPositive(rows[1..], a);
    }
  }

  /** Every reported count is the size of that artist's group, hence at least one. */
  lemma TopArtistsCounts(rows: seq<Track>, limit: int)
    requires limit >= 0
    ensures var r := GetTopArtists(rows, limit);
      forall i :: 0 <= i < |r| ==>
        r[i].count == Occurrences(rows, r[i].artist) && r[i].count >= 1 && r[i].artist in ArtistColumn(rows)
  {
    var r := GetTopArtists(rows, limit);
    var keys := Artists(rows);
    var g := Groups(rows, keys);
    forall i | 0 <= i < |r|
      ensures r[i].count == Occurrences(rows, r[i].artist) && r[i].count >= 1 && r[i].artist in ArtistColumn(rows)
    {
      assert r[i] in multiset(Ranked(rows));
      assert r[i] in g;
      var k :| 0 <= k < |g| && g[k] == r[i];
      assert keys[k] in keys;
      OccurrencesPositive(rows, keys[k]);
    }
  }

  /** No artist is reported twice. */
  lemma TopArtistsDistinct(rows: seq<Track>, limit: int)
    requires limit >= 0
    ensures var r := GetTopArtists(rows, limit);
      forall i, j :: 0 <= i < j < |r| ==> r[i].artist != r[j].artist
  {
    var r := GetTopArtists(rows, limit);
    var keys := Artists(rows);
    var g := Groups(rows, keys);
    assert NoDup(g) by {
      forall i, j | 0 <= i < j < |g| ensures g[i] != g[j] {
        assert keys[i] != keys[j];
      }
    }
    SortKeepsNoDup(g, ByCountDesc());
    TopArtistsCounts(rows, limit);
    forall i, j | 0 <= i < j < |r| ensures r[i].artist != r[j].artist {
      assert Ranked(rows)[i] != Ranked(rows)[j];
    }
  }

  /** Counts never increase along the report. */
  lemma TopArtistsNonIncreasing(rows: seq<Track>, limit: int)
    requires limit >= 0
    ensures var r := GetTopArtists(rows, limit);
      forall i, j :: 0 <= i < j < |r| ==> r[i].count >= r[j].count
  {
    var r := GetTopArtists(rows, limit);
    var s := Ranked(rows);
    forall i, j | 0 <= i < j < |r| ensures r[i].count >= r[j].count {
      assert ByCountDesc()(s[i], s[j]);
    }
  }

  /** An artist of the table left out of the report has no more rows than any reported one. */
  lemma TopArtistsAreTop(rows: seq<Track>, limit: int, a: string)
    requires limit >= 0
    requires a in ArtistColumn(rows)
    requires forall i :: 0 <= i < |GetTopArtists(rows, limit)| ==> GetTopArtists(rows, limit)[i].artist != a
    ensures forall i :: 0 <= i < |GetTopArtists(rows, limit)| ==>
      GetTopArtists(rows, limit)[i].count >= Occurrences(rows, a)
  {
    var r := GetTopArtists(rows, limit);
    var s := Ranked(rows);
    var keys := Artists(rows);
    var g := Groups(rows, keys);
    var ka :| 0 <= ka < |keys| && keys[ka] == a;
    assert g[ka] in multiset(s);
    var p :| 0 <= p < |s| && s[p] == g[ka];
    assert s[p].artist == a;
    assert p >= |r|;
    forall i | 0 <= i < |r| ensures r[i].count >= Occurrences(rows, a) {
      assert ByCountDesc()(s[i], s[p]);
    }
  }

  function SumCounts(s: seq<TopArtist>): nat {
    if s == [] then 0 else s[0].count + SumCounts(s[1..])
  }

  lemma {:induction false} SumCountsInsert(x: TopArtist, s: seq<TopArtist>, le: (TopArtist, TopArtist) -> bool)
    ensures SumCounts(Insert(x, s, le)) == x.count + SumCounts(s)
  {
    if s != [] && !le(x, s[0]) {
      SumCountsInsert(x, s[1..], le);
    }
  }

  lemma {:induction false} SumCountsSort(s: seq<TopArtist>, le: (TopArtist, TopArtist) -> bool)
    ensures SumCounts(Sort(s, le)) == SumCounts(s)
  {
    if s != [] {
      SumCountsSort(s[1..], le);
      SumCountsInsert(s[0], Sort(s[1..], le), le);
    }
  }

  lemma {:induction false} SumGroupsHead(r: Track, rest: seq<Track>, keys: seq<string>)
    ensures SumCounts(Groups([r] + rest, keys)) == multiset(keys)[r.artist] + SumCounts(Groups(rest, keys))
  {
    if keys != [] {
      assert ([r] + rest)[1..] == rest;
      assert keys == [keys[0]] + keys[1..];
      SumGroupsHead(r, rest, keys[1..]);
    }
  }

  lemma {:induction false} SumGroupsEmpty(keys: seq<string>)
    ensures SumCounts(Groups([], keys)) == 0
  {
    if keys != [] {
      SumGroupsEmpty(keys[1..]);
    }
  }

  /** Counting each row once under its artist's key accounts for every row. */
  lemma {:induction false} SumGroupsCoversRows(rows: seq<Track>, keys: seq<string>)
    requires NoDup(keys)
    requires forall a :: a in ArtistColumn(rows) ==> a in keys
    ensures SumCounts(Groups(rows, keys)) == |rows|
  {
    if rows == [] {
      SumGroupsEmpty(keys);
    } else {
      var rest := rows[1..];
      assert rows == [rows[0]] + rest;
      assert ArtistColumn(rows) == [rows[0].artist] + ArtistColumn(rest);
      SumGroupsHead(rows[0], rest, keys);
      NoDupOnce(keys, rows[0].artist);
      SumGroupsCoversRows(rest, keys);
    }
  }

  /** With a limit no smaller than the number of artists, the counts add up to the number of rows. */
  lemma TopArtistsCountEveryRow(rows: seq<Track>, limit: int)
    requires limit >= |Artists(rows)|
    ensures SumCounts(GetTopArtists(rows, limit)) == |rows|
    ensures forall a :: a in ArtistColumn(rows) ==>
      exists i :: 0 <= i < |GetTopArtists(rows, limit)| && GetTopArtists(rows, limit)[i].artist == a
  {
    var keys := Artists(rows);
    var g := Groups(rows, keys);
    var r := GetTopArtists(rows, limit);
    assert r == Ranked(rows);
    SumCountsSort(g, ByCountDesc());
    SumGroupsCoversRows(rows, keys);
    forall a | a in ArtistColumn(rows)
      ensures exists i :: 0 <= i < |r| && r[i].artist == a
    {
      var k :| 0 <= k < |keys| && keys[k] == a;
      assert g[k] in multiset(r);
      var i :| 0 <= i < |r| && r[i] == g[k];
    }
  }

  // ---------------------------------------------------------------------------
  // Summary
  // ---------------------------------------------------------------------------

  /**
   * get_summary: the number of rows, and the store's two averages with a NULL
   * average (no non-NULL value, e.g. an empty table) reported as 0.0.
   */
  function GetSummary(rows: seq<Track>, storeAvgDanceability: Option<real>, storeAvgTempo: Option<real>): (r: Summary)
    ensures rows == [] ==> r.totalTracks == 0
    ensures storeAvgDanceability.None? ==> r.avgDanceability == 0.0
    ensures storeAvgTempo.None? ==> r.avgTempo == 0.0
  {
    Summary(|rows|, storeAvgDanceability.GetOr(0.0), storeAvgTempo.GetOr(0.0))
  }

  /** The summary's total agrees with the unfiltered listing and with the complete artist report. */
  lemma SummaryTotalAgrees(rows: seq<Track>, query: TrackQuery, avgD: Option<real>, avgT: Option<real>)
    requires query.limit >= 0 && query.offset >= 0 && Unfiltered(query)
    ensures GetSummary(rows, avgD, avgT).totalTracks == GetTracks(rows, query).total
    ensures GetSummary(rows, avgD, avgT).totalTracks == SumCounts(GetTopArtists(rows, |Artists(rows)|))
  {
    UnfilteredTotalIsTableSize(rows, query);
    TopArtistsCountEveryRow(rows, |Artists(rows)|);
  }
}
