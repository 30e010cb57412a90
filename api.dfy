/**
 * The HTTP routes of app/api/tracks.py. Each route declares constraints on
 * its query parameters; a request that breaks any of them is answered with a
 * validation error listing every broken one, and a request that keeps them
 * all is forwarded, unchanged, to the corresponding query.
 */
module Api {
  import opened Wrappers
  import opened Seqs
  import opened Models
  import opened Crud

  /** The query parameters of GET /tracks as they arrive; None is a parameter left out of the URL. */
  datatype ListParams = ListParams(
    limit: Option<int>,
    offset: Option<int>,
    q: Option<string>,
    artist: Option<string>,
    minDanceability: Option<real>,
    tempoMin: Option<real>,
    tempoMax: Option<real>,
    sort: Option<string>,
    order: Option<string>)

  /** A broken parameter constraint, one per constrained parameter. */
  datatype ParamError = BadLimit | BadOffset | BadMinDanceability | BadSort | BadOrder

  const DefaultListLimit: int := 50
  const MaxListLimit: int := 500
  const DefaultOrder: string := "desc"
  const DefaultTopLimit: int := 10
  const MaxTopLimit: int := 100

  /** The values `sort` may take when given. */
  const SortColumns: set<string> := {"danceability", "tempo", "track_name"}

  /** The values `order` may take. */
  const Orders: set<string> := {"asc", "desc"}

  /** The parameters with the declared defaults filled in. */
  function WithDefaults(p: ListParams): TrackQuery {
    TrackQuery(p.limit.GetOr(DefaultListLimit), p.offset.GetOr(0), p.q, p.artist, p.minDanceability,
               p.tempoMin, p.tempoMax, p.sort, p.order.GetOr(DefaultOrder))
  }

  /** The broken constraints, in the order the parameters are declared. */
  function ListErrors(query: TrackQuery): seq<ParamError> {
    (if 1 <= query.limit <= MaxListLimit then [] else [BadLimit])
    + (if query.offset >= 0 then [] else [BadOffset])
    + (if query.minDanceability.None? || 0.0 <= query.minDanceability.value <= 1.0 then [] else [BadMinDanceability])
    + (if query.sort.None? || query.sort.value in SortColumns then [] else [BadSort])
    + (if query.order in Orders then [] else [BadOrder])
  }

  /**
   * The validation of GET /tracks: every constraint is checked, each broken
   * one is reported, and an accepted request becomes the query with the
   * defaults filled in and every other parameter as given. Nothing relates
   * tempo_min to tempo_max.
   */
  function ValidateListTracks(p: ListParams): (r: Result<TrackQuery, seq<ParamError>>)
    ensures r.Ok? <==>
      1 <= p.limit.GetOr(DefaultListLimit) <= MaxListLimit && p.offset.GetOr(0) >= 0
      && (p.minDanceability.None? || 0.0 <= p.minDanceability.value <= 1.0)
      && (p.sort.None? || p.sort.value in SortColumns)
      && p.order.GetOr(DefaultOrder) in Orders
    ensures r.Err? ==> (
      r.error != []
      && (BadLimit in r.error <==> !(1 <= p.limit.GetOr(DefaultListLimit) <= MaxListLimit))
      && (BadOffset in r.error <==> p.offset.GetOr(0) < 0)
      && (BadMinDanceability in r.error <==> p.minDanceability.Some? && !(0.0 <= p.minDanceability.value <= 1.0))
      && (BadSort in r.error <==> p.sort.Some? && p.sort.value !in SortColumns)
      && (BadOrder in r.error <==> p.order.GetOr(DefaultOrder) !in Orders))
    ensures r.Ok? ==> (
      r.value.limit == p.limit.GetOr(DefaultListLimit) && r.value.offset == p.offset.GetOr(0)
      && r.value.q == p.q && r.value.artist == p.artist && r.value.minDanceability == p.minDanceability
      && r.value.tempoMin == p.tempoMin && r.value.tempoMax == p.tempoMax && r.value.sort == p.sort
      && r.value.order == p.order.GetOr(DefaultOrder))
  {
    var query := WithDefaults(p);
    var errors := ListErrors(query);
    if errors == [] then Ok(query) else Err(errors)
  }

  /** GET /tracks: the page get_tracks returns for an accepted request, or the validation errors. */
  function ListTracks(rows: seq<Track>, p: ListParams): (r: Result<TracksPage, seq<ParamError>>)
    ensures r.Err? <==> ValidateListTracks(p).Err?
    ensures r.Err? ==> r.error == ValidateListTracks(p).error
    ensures r.Ok? ==> r.value == GetTracks(rows, ValidateListTracks(p).value)
    ensures r.Ok? ==> |r.value.items| <= p.limit.GetOr(DefaultListLimit) <= MaxListLimit
    ensures r.Ok? ==> r.value.total == |Filtered(rows, WithDefaults(p))|
  {
    match ValidateListTracks(p)
    case Err(e) => Err(e)
    case Ok(query) => Ok(GetTracks(rows, query))
  }

  /**
   * A request with no parameters lists the first 50 rows by id, with no
   * filter: in a table whose ids increase in row order, the first 50 rows.
   */
  lemma ListDefaults(rows: seq<Track>)
    ensures var r := ListTracks(rows, ListParams(None, None, None, None, None, None, None, None, None));
      r.Ok? && r.value.total == |rows| && |r.value.items| == Min(50, r.value.total)
      && (r.value.nextOffset.Some? <==> 50 < |rows|)
      && (IdsIncreasing(rows) ==> forall k :: 0 <= k < |r.value.items| ==> r.value.items[k] == TrackToDict(rows[k]))
  {
    var query := WithDefaults(ListParams(None, None, None, None, None, None, None, None, None));
    UnfilteredTotalIsTableSize(rows, query);
    if IdsIncreasing(rows) {
      UnfilteredKeepsRows(rows, query);
      DefaultOrderIsInsertionOrder(rows, query);
    }
  }

  /**
   * An inverted tempo range passes validation and lists nothing: the request
   * succeeds with an empty page, a zero total and no next offset.
   */
  lemma InvertedTempoRangeAccepted(rows: seq<Track>, p: ListParams)
    requires ValidateListTracks(p).Ok?
    requires p.tempoMin.Some? && p.tempoMax.Some? && p.tempoMin.value > p.tempoMax.value
    ensures ListTracks(rows, p) == Ok(TracksPage([], 0, None))
  {
    InvertedTempoRangeIsEmpty(rows, ValidateListTracks(p).value);
  }

  /**
   * GET /stats/top-artists: the limit must lie in 1..100 (10 when left out)
   * and is forwarded unchanged.
   */
  function TopArtists(rows: seq<Track>, limit: Option<int>): (r: Result<seq<TopArtist>, seq<ParamError>>)
    ensures r.Ok? <==> 1 <= limit.GetOr(DefaultTopLimit) <= MaxTopLimit
    ensures r.Err? ==> r.error == [BadLimit]
    ensures r.Ok? ==> r.value == GetTopArtists(rows, limit.GetOr(DefaultTopLimit))
    ensures r.Ok? ==> |r.value| == Min(limit.GetOr(DefaultTopLimit), |Artists(rows)|) && r.value <= Ranked(rows)
  {
    var n := limit.GetOr(DefaultTopLimit);
    if 1 <= n <= MaxTopLimit then Ok(GetTopArtists(rows, n)) else Err([BadLimit])
  }
}
