/**
 * The `tracks` table and the response shapes of the API.
 *
 * A Track is one row of the table; the table itself is a TrackTable object
 * whose rows the loader replaces and extends. The store assigns ids from a
 * counter on insert, so the ids of the rows increase in insertion order.
 */
module Models {
  import opened Wrappers

  /** One row of the `tracks` table; album, danceability and tempo are nullable. */
  datatype Track = Track(
    id: int,
    trackName: string,
    artist: string,
    album: Option<string>,
    danceability: Option<real>,
    tempo: Option<real>)

  /** A row handed to the store for insertion: every column but the auto-assigned id. */
  datatype NewTrack = NewTrack(
    trackName: string,
    artist: string,
    album: Option<string>,
    danceability: Option<real>,
    tempo: Option<real>)

  /** One element of a page of tracks, as serialised to the client. */
  datatype TrackOut = TrackOut(
    id: int,
    trackName: string,
    artist: string,
    album: Option<string>,
    danceability: Option<real>,
    tempo: Option<real>)

  /** The answer to a track listing: one page, the filtered total and the next offset, if any. */
  datatype TracksPage = TracksPage(items: seq<TrackOut>, total: nat, nextOffset: Option<int>)

  /** One entry of the top-artists report. */
  datatype TopArtist = TopArtist(artist: string, count: nat)

  /** The summary report; the two averages are computed by the store. */
  datatype Summary = Summary(totalTracks: nat, avgDanceability: real, avgTempo: real)

  /** The contents of the table together with the store's next id. */
  datatype TableState = TableState(rows: seq<Track>, nextId: int)

  /** Ids increase strictly along the table, so they are unique. */
  predicate IdsIncreasing(rows: seq<Track>) {
    forall i, j :: 0 <= i < j < |rows| ==> rows[i].id < rows[j].id
  }

  /** The state invariant: increasing ids, all below the next one to hand out. */
  predicate WellFormed(st: TableState) {
    IdsIncreasing(st.rows) && forall t :: t in st.rows ==> t.id < st.nextId
  }

  /** `batch` as stored: the k-th new row receives id `firstId + k`. */
  function Stored(batch: seq<NewTrack>, firstId: int): (r: seq<Track>)
    ensures |r| == |batch|
    ensures forall k :: 0 <= k < |r| ==> r[k].id == firstId + k
  {
    if batch == [] then []
    else
      var b := batch[0];
      [Track(firstId, b.trackName, b.artist, b.album, b.danceability, b.tempo)]
        + Stored(batch[1..], firstId + 1)
  }

  /** A stored row without its id: the columns the loader supplied. */
  function WithoutId(t: Track): NewTrack {
    NewTrack(t.trackName, t.artist, t.album, t.danceability, t.tempo)
  }

  /** Storing row `k` of a batch keeps every column of it. */
  lemma {:induction false} StoredAt(batch: seq<NewTrack>, firstId: int, k: nat)
    requires k < |batch|
    ensures WithoutId(Stored(batch, firstId)[k]) == batch[k]
  {
    if k > 0 {
      StoredAt(batch[1..], firstId + 1, k - 1);
    }
  }

  /** Storing two batches one after the other is storing their concatenation. */
  lemma {:induction false} StoredAppend(a: seq<NewTrack>, b: seq<NewTrack>, firstId: int)
    ensures Stored(a + b, firstId) == Stored(a, firstId) + Stored(b, firstId + |a|)
  {
    if a == [] {
      assert a + b == b;
    } else {
      assert (a + b)[1..] == a[1..] + b;
      StoredAppend(a[1..], b, firstId + 1);
    }
  }

  /** TRUNCATE TABLE: every row goes; the id counter is not reset. */
  function Truncated(st: TableState): (r: TableState)
    ensures r.rows == [] && r.nextId == st.nextId
  {
    TableState([], st.nextId)
  }

  /** An append-only INSERT of `batch`: nothing is updated or deduplicated. */
  function Appended(st: TableState, batch: seq<NewTrack>): (r: TableState)
    ensures |r.rows| == |st.rows| + |batch|
    ensures r.rows[..|st.rows|] == st.rows
    ensures r.nextId == st.nextId + |batch|
  {
    TableState(st.rows + Stored(batch, st.nextId), st.nextId + |batch|)
  }

  /** Appending keeps the ids increasing and below the counter. */
  lemma AppendedWellFormed(st: TableState, batch: seq<NewTrack>)
    requires WellFormed(st)
    ensures WellFormed(Appended(st, batch))
  {
    var r := Appended(st, batch);
    var n := |st.rows|;
    forall i, j | 0 <= i < j < |r.rows| ensures r.rows[i].id < r.rows[j].id {
      if j >= n && i < n {
        assert r.rows[i] in st.rows;
      }
    }
    forall t | t in r.rows ensures t.id < r.nextId {
      var k :| 0 <= k < |r.rows| && r.rows[k] == t;
      if k < n {
        assert t in st.rows;
      }
    }
  }

  /** Appending twice is appending the concatenation once. */
  lemma AppendedTwice(st: TableState, a: seq<NewTrack>, b: seq<NewTrack>)
    ensures Appended(Appended(st, a), b) == Appended(st, a + b)
  {
    StoredAppend(a, b, st.nextId);
  }

  /** The `tracks` table as the store holds it. */
  class TrackTable {
    var rows: seq<Track>
    var nextId: int

    ghost predicate Valid()
      reads this
    {
      WellFormed(State())
    }

    function State(): TableState
      reads this
    {
      TableState(rows, nextId)
    }

    /** A freshly created, empty table whose identity counter starts at 1. */
    constructor ()
      ensures Valid() && rows == [] && nextId == 1
    {
      rows := [];
      nextId := 1;
    }

    /** TRUNCATE TABLE tracks. */
    method Truncate()
      requires Valid()
      modifies this
      ensures Valid() && State() == Truncated(old(State()))
    {
      rows := [];
    }

    /** Appends `batch` as new rows with fresh ids (DataFrame.to_sql with if_exists="append"). */
    method Append(batch: seq<NewTrack>)
      requires Valid()
      modifies this
      ensures Valid() && State() == Appended(old(State()), batch)
    {
      AppendedWellFormed(State(), batch);
      rows := rows + Stored(batch, nextId);
      nextId := nextId + |batch|;
    }
  }
}
