/**
 * The CSV loader: drop a leading index column, locate the required columns
 * ignoring case, normalise every row, drop the rows without a usable name or
 * artist, and append what remains to the table in batches of 500 rows,
 * optionally truncating the table first.
 *
 * Reading the file is outside the model: a Frame is the header and the cells
 * the CSV reader produced, a missing cell being None. Number parsing is the
 * parameter `parse`.
 */
module Loader {
  import opened Wrappers
  import opened Text
  import opened Seqs
  import opened Models

  /** A cell as read from the file: its text, or None when it is missing (NaN). */
  type Cell = Option<string>

  /** A parsed CSV file: the column names and the rows of cells. */
  datatype Frame = Frame(header: seq<string>, rows: seq<seq<Cell>>)

  /** Every row has one cell per column, as in any data frame. */
  predicate Rectangular(f: Frame) {
    forall row :: row in f.rows ==> |row| == |f.header|
  }

  datatype LoadError =
    | NoColumns                   // the file has no column to look at
    | MissingColumn(name: string) // a required column is not in the header

  // ---------------------------------------------------------------------------
  // _read_csv
  // ---------------------------------------------------------------------------

  /** The name pandas gives an unnamed leading index column ("Unnamed: 0"), in any case. */
  predicate IsIndexColumn(name: string) {
    "unnamed" <= Lower(name)
  }

  /** Removes the first column of every row. */
  function DropFirstColumn(f: Frame): (g: Frame)
    requires Rectangular(f) && f.header != []
    ensures Rectangular(g) && |g.rows| == |f.rows|
  {
    Frame(f.header[1..], seq(|f.rows|, i requires 0 <= i < |f.rows| => f.rows[i][1..]))
  }

  /** _read_csv after reading: drops the first column when it is an unnamed index column. */
  function ReadCsv(f: Frame): (r: Result<Frame, LoadError>)
    requires Rectangular(f)
    ensures r.Err? <==> f.header == []
    ensures r.Ok? ==> Rectangular(r.value) && |r.value.rows| == |f.rows|
  {
    if f.header == [] then Err(NoColumns)
    else if IsIndexColumn(f.header[0]) then Ok(DropFirstColumn(f))
    else Ok(f)
  }

  /**
   * Exactly the first column is dropped, and only when it is an index column;
   * the remaining columns keep their names, order and cells.
   */
  lemma ReadCsvDropsOnlyIndexColumn(f: Frame)
    requires Rectangular(f) && f.header != []
    ensures var g := ReadCsv(f).value;
      var d := |f.header| - |g.header|;
      (d == 1 <==> IsIndexColumn(f.header[0])) && (d == 0 <==> !IsIndexColumn(f.header[0]))
      && (forall c :: 0 <= c < |g.header| ==> g.header[c] == f.header[c + d])
      && (forall i, c :: 0 <= i < |g.rows| && 0 <= c < |g.header| ==> g.rows[i][c] == f.rows[i][c + d])
  {
  }

  // ---------------------------------------------------------------------------
  // _normalize: locating the columns
  // ---------------------------------------------------------------------------

  /**
   * The dictionary {c.lower(): c for c in columns} looked up at `key`: the
   * last column whose lower-cased name is `key`, if any.
   */
  function FindColumn(header: seq<string>, key: string): (r: Option<nat>)
    ensures r.Some? ==> r.value < |header| && Lower(header[r.value]) == key
    ensures r.Some? ==> forall j :: r.value < j < |header| ==> Lower(header[j]) != key
    ensures r.None? ==> forall j :: 0 <= j < |header| ==> Lower(header[j]) != key
  {
    if header == [] then None
    else if Lower(header[|header| - 1]) == key then Some(|header| - 1)
    else FindColumn(header[..|header| - 1], key)
  }

  /** Where the five columns the loader reads are. */
  datatype Columns = Columns(trackName: nat, artists: nat, albumName: nat, danceability: nat, tempo: nat)

  predicate ColumnsWithin(cols: Columns, width: nat) {
    cols.trackName < width && cols.artists < width && cols.albumName < width
    && cols.danceability < width && cols.tempo < width
  }

  /** The required columns in the order the loader reads them. */
  const RequiredColumns: seq<string> := ["track_name", "artists", "album_name", "danceability", "tempo"]

  /** Looks up the required columns; the first one missing, in reading order, is reported. */
  function LocateColumns(header: seq<string>): (r: Result<Columns, LoadError>)
    ensures r.Ok? <==> (FindColumn(header, "track_name").Some? && FindColumn(header, "artists").Some?
      && FindColumn(header, "album_name").Some? && FindColumn(header, "danceability").Some?
      && FindColumn(header, "tempo").Some?)
    ensures r.Ok? ==> ColumnsWithin(r.value, |header|)
    ensures r.Ok? ==> (Lower(header[r.value.trackName]) == "track_name" && Lower(header[r.value.artists]) == "artists"
      && Lower(header[r.value.albumName]) == "album_name" && Lower(header[r.value.danceability]) == "danceability"
      && Lower(header[r.value.tempo]) == "tempo")
    ensures r.Err? ==> (r.error.MissingColumn? && r.error.name in RequiredColumns
      && FindColumn(header, r.error.name).None?)
    ensures r.Err? && r.error.name != "track_name" ==> FindColumn(header, "track_name").Some?
    ensures r.Err? && r.error.name in {"album_name", "danceability", "tempo"} ==> FindColumn(header, "artists").Some?
    ensures r.Err? && r.error.name in {"danceability", "tempo"} ==> FindColumn(header, "album_name").Some?
    ensures r.Err? && r.error.name == "tempo" ==> FindColumn(header, "danceability").Some?
  {
    match FindColumn(header, "track_name")
    case None => Err(MissingColumn("track_name"))
    case Some(n) =>
      match FindColumn(header, "artists")
      case None => Err(MissingColumn("artists"))
      case Some(a) =>
        match FindColumn(header, "album_name")
        case None => Err(MissingColumn("album_name"))
        case Some(al) =>
          match FindColumn(header, "danceability")
          case None => Err(MissingColumn("danceability"))
          case Some(d) =>
            match FindColumn(header, "tempo")
            case None => Err(MissingColumn("tempo"))
            case Some(t) => Ok(Columns(n, a, al, d, t))
  }

  // ---------------------------------------------------------------------------
  // _normalize: the cells
  // ---------------------------------------------------------------------------

  /** astype(str): a missing cell becomes the text "nan". */
  function AsText(c: Cell): string {
    match c
    case Some(s) => s
    case None => "nan"
  }

  /** to_numeric(errors="coerce"): text `parse` rejects, and a missing cell, become NULL. */
  function ToNumber(c: Cell, parse: string -> Option<real>): Option<real> {
    match c
    case Some(s) => parse(s)
    case None => None
  }

  /** The characters str.strip("[]'\"") removes. */
  predicate IsBracketOrQuote(c: char) {
    c == '[' || c == ']' || c == '\'' || c == '"'
  }

  /**
   * The artist cell: strip brackets and quotes from both ends, turn ';' into
   * ',', keep the text before the first ',', trim whitespace.
   */
  function NormalizeArtist(s: string): string {
    Trim(FirstField(ReplaceChar(Strip(s, IsBracketOrQuote), ';', ','), ','))
  }

  /** One normalised row, with the album always present as text. */
  function NormalizeRow(row: seq<Cell>, cols: Columns, parse: string -> Option<real>): NewTrack
    requires ColumnsWithin(cols, |row|)
  {
    NewTrack(
      Trim(AsText(row[cols.trackName])),
      NormalizeArtist(AsText(row[cols.artists])),
      Some(Trim(AsText(row[cols.albumName]))),
      ToNumber(row[cols.danceability], parse),
      ToNumber(row[cols.tempo], parse))
  }

  /** The drop rule: a row stays when its name and artist are non-empty and not "nan" in any case. */
  predicate Keep(t: NewTrack) {
    |t.trackName| > 0 && Lower(t.trackName) != "nan" && |t.artist| > 0 && Lower(t.artist) != "nan"
  }

  /** The rows to load and how many were dropped. */
  datatype Normalized = Normalized(rows: seq<NewTrack>, dropped: nat)

  /** Every row has the located columns. */
  predicate Fits(rows: seq<seq<Cell>>, cols: Columns) {
    forall row :: row in rows ==> ColumnsWithin(cols, |row|)
  }

  /** NormalizeRow for the located columns, as a function of the row. */
  function RowNormalizer(cols: Columns, parse: string -> Option<real>): seq<Cell> --> NewTrack {
    row requires ColumnsWithin(cols, |row|) => NormalizeRow(row, cols, parse)
  }

  /** Every row normalised, in order, before the drop rule. */
  function AllNormalized(rows: seq<seq<Cell>>, cols: Columns, parse: string -> Option<real>): (r: seq<NewTrack>)
    requires Fits(rows, cols)
    ensures |r| == |rows|
    ensures forall k :: 0 <= k < |rows| ==> r[k] == NormalizeRow(rows[k], cols, parse)
  {
    Map(rows, RowNormalizer(cols, parse))
  }

  /** _normalize: fails on a missing column; otherwise the kept rows, in order, and the dropped count. */
  function Normalize(f: Frame, parse: string -> Option<real>): (r: Result<Normalized, LoadError>)
    requires Rectangular(f)
    ensures r.Err? <==> LocateColumns(f.header).Err?
    ensures r.Ok? ==> r.value.dropped + |r.value.rows| == |f.rows|
    ensures r.Ok? ==> (Fits(f.rows, LocateColumns(f.header).value)
      && r.value == Sift(AllNormalized(f.rows, LocateColumns(f.header).value, parse)))
  {
    match LocateColumns(f.header)
    case Err(e) => Err(e)
    case Ok(cols) =>
      Ok(Sift(AllNormalized(f.rows, cols, parse)))
  }

  /** The drop rule applied to normalised rows: those kept, in order, and how many were dropped. */
  function Sift(all: seq<NewTrack>): (n: Normalized)
    ensures n.dropped + |n.rows| == |all|
  {
    var kept := Filter(all, Keep);
    Normalized(kept, |all| - |kept|)
  }

  /** Sifting two runs of rows one after the other is sifting them together. */
  lemma SiftConcat(a: seq<NewTrack>, b: seq<NewTrack>)
    ensures Sift(a + b) == Normalized(Sift(a).rows + Sift(b).rows, Sift(a).dropped + Sift(b).dropped)
  {
    FilterAppend(a, b, Keep);
  }

  /**
   * The drop rule keeps exactly the rows that pass it, each as often as it
   * occurs, and the dropped count is the number that fail it.
   */
  lemma SiftKeepsPassingRows(all: seq<NewTrack>)
    ensures var n := Sift(all);
      (forall t :: t in n.rows ==> Keep(t))
      && (forall t :: multiset(n.rows)[t] == if Keep(t) then multiset(all)[t] else 0)
      && n.dropped == |Filter(all, Not(Keep))|
  {
    forall t ensures multiset(Sift(all).rows)[t] == if Keep(t) then multiset(all)[t] else 0 {
      FilterMultiset(all, Keep, t);
    }
    FilterComplement(all, Keep);
  }

  /**
   * Normalising the rows of two files one after the other, at the same located
   * columns, is normalising them together: the kept rows keep their order and
   * the dropped counts add up.
   */
  lemma NormalizeConcat(cols: Columns, a: seq<seq<Cell>>, b: seq<seq<Cell>>, parse: string -> Option<real>)
    requires Fits(a, cols) && Fits(b, cols)
    ensures Fits(a + b, cols)
    ensures var n, na, nb := Sift(AllNormalized(a + b, cols, parse)), Sift(AllNormalized(a, cols, parse)),
                             Sift(AllNormalized(b, cols, parse));
      n.rows == na.rows + nb.rows && n.dropped == na.dropped + nb.dropped
  {
    assert Fits(a + b, cols) by {
      forall row | row in a + b ensures ColumnsWithin(cols, |row|) {
        assert row in a || row in b;
      }
    }
    var aa, ab := AllNormalized(a, cols, parse), AllNormalized(b, cols, parse);
    MapAppend(a, b, RowNormalizer(cols, parse));
    SiftConcat(aa, ab);
  }

  /**
   * Every row the loader keeps has a non-empty name with no surrounding
   * whitespace and a single artist name with no surrounding whitespace;
   * neither is "nan" in any letter case.
   */
  lemma KeptRowsHaveNameAndArtist(rows: seq<seq<Cell>>, cols: Columns, parse: string -> Option<real>)
    requires Fits(rows, cols)
    ensures forall t :: t in Sift(AllNormalized(rows, cols, parse)).rows ==>
      |t.trackName| > 0 && Lower(t.trackName) != "nan"
      && !IsSpace(t.trackName[0]) && !IsSpace(t.trackName[|t.trackName| - 1])
      && |t.artist| > 0 && Lower(t.artist) != "nan" && ',' !in t.artist && ';' !in t.artist
      && !IsSpace(t.artist[0]) && !IsSpace(t.artist[|t.artist| - 1])
  {
    var all := AllNormalized(rows, cols, parse);
    forall t | t in Sift(all).rows
      ensures |t.trackName| > 0 && Lower(t.trackName) != "nan"
      && !IsSpace(t.trackName[0]) && !IsSpace(t.trackName[|t.trackName| - 1])
      && |t.artist| > 0 && Lower(t.artist) != "nan" && ',' !in t.artist && ';' !in t.artist
      && !IsSpace(t.artist[0]) && !IsSpace(t.artist[|t.artist| - 1])
    {
      var k :| 0 <= k < |all| && all[k] == t;
      assert rows[k] in rows && Keep(t);
      assert t == NormalizeRow(rows[k], cols, parse);
      NormalizedRowShape(rows[k], cols, parse);
    }
  }

  /** A normalised row's name is trimmed and its artist is one trimmed name. */
  lemma NormalizedRowShape(row: seq<Cell>, cols: Columns, parse: string -> Option<real>)
    requires ColumnsWithin(cols, |row|)
    ensures var t := NormalizeRow(row, cols, parse);
      (t.trackName == [] || (!IsSpace(t.trackName[0]) && !IsSpace(t.trackName[|t.trackName| - 1])))
      && ',' !in t.artist && ';' !in t.artist
      && (t.artist == [] || (!IsSpace(t.artist[0]) && !IsSpace(t.artist[|t.artist| - 1])))
  {
    NormalizedArtistIsOneName(AsText(row[cols.artists]));
  }

  /** The drop rule never looks at the numbers: an unparseable danceability or tempo drops nothing. */
  lemma KeepIgnoresNumbers(t: NewTrack, danceability: Option<real>, tempo: Option<real>)
    ensures Keep(t) == Keep(t.(danceability := danceability, tempo := tempo))
  {
  }

  /** A missing name or artist cell reads as "nan" and the row is dropped; a missing album is stored as "nan". */
  lemma MissingCellsReadAsNan(row: seq<Cell>, cols: Columns, parse: string -> Option<real>)
    requires ColumnsWithin(cols, |row|)
    ensures row[cols.trackName].None? ==> !Keep(NormalizeRow(row, cols, parse))
    ensures row[cols.artists].None? ==> !Keep(NormalizeRow(row, cols, parse))
    ensures row[cols.albumName].None? ==> NormalizeRow(row, cols, parse).album == Some("nan")
    ensures row[cols.danceability].None? ==> NormalizeRow(row, cols, parse).danceability.None?
    ensures row[cols.tempo].None? ==> NormalizeRow(row, cols, parse).tempo.None?
  {
    NanUnchanged("nan");
  }

  /** The text "nan" passes through trimming, lower-casing and the artist clean-up unchanged. */
  lemma NanUnchanged(nan: string)
    requires nan == "nan"
    ensures Trim(nan) == nan && Lower(nan) == nan && NormalizeArtist(nan) == nan
  {
    assert StripStart(nan, IsSpace) == 0 && StripEnd(nan, IsSpace) == 3 by {
      assert LeadEnd(nan, IsSpace, 0) == 0;
      assert TrailStart(nan, IsSpace, 0, 3) == 3;
    }
    assert Strip(nan, IsBracketOrQuote) == nan by {
      assert LeadEnd(nan, IsBracketOrQuote, 0) == 0;
      assert TrailStart(nan, IsBracketOrQuote, 0, 3) == 3;
    }
    ReplaceAbsent(nan, ';', ',');
    FirstFieldUnsplit(nan, ',');
  }

  /** A cell of nothing but whitespace gives an empty name, so the row is dropped. */
  lemma BlankNameIsDropped(row: seq<Cell>, cols: Columns, parse: string -> Option<real>)
    requires ColumnsWithin(cols, |row|)
    requires row[cols.trackName].Some? && forall k :: 0 <= k < |row[cols.trackName].value| ==> IsSpace(row[cols.trackName].value[k])
    ensures !Keep(NormalizeRow(row, cols, parse))
  {
    var s := row[cols.trackName].value;
    assert StripStart(s, IsSpace) == |s|;
    assert Trim(s) == [];
  }

  // ---------------------------------------------------------------------------
  // Properties of the artist normalisation
  // ---------------------------------------------------------------------------

  /** Before splitting, ';' became ',': the first field is a prefix of the text with neither separator. */
  lemma FirstArtistIsPrefix(t: string)
    ensures var f := FirstField(ReplaceChar(t, ';', ','), ',');
      f == t[..|f|] && ',' !in f && ';' !in f
  {
    var replaced := ReplaceChar(t, ';', ',');
    var f := FirstField(replaced, ',');
    forall k | 0 <= k < |f| ensures f[k] == t[k] && f[k] != ';' {
      assert f[k] == replaced[k] && f[k] != ',';
    }
  }

  /** The normalised artist holds neither ',' nor ';' and has no surrounding whitespace. */
  lemma NormalizedArtistIsOneName(s: string)
    ensures var r := NormalizeArtist(s);
      ',' !in r && ';' !in r && (r == [] || (!IsSpace(r[0]) && !IsSpace(r[|r| - 1])))
  {
    var field := FirstField(ReplaceChar(Strip(s, IsBracketOrQuote), ';', ','), ',');
    FirstArtistIsPrefix(Strip(s, IsBracketOrQuote));
    var r := Trim(field);
    var b := StripStart(field, IsSpace);
    forall k | 0 <= k < |r| ensures r[k] != ',' && r[k] != ';' {
      assert r[k] == field[b + k];
      assert field[b + k] in field;
    }
  }

  /** The normalised artist occurs as it is in the original cell text. */
  lemma NormalizedArtistOccursInCell(s: string)
    ensures Contains(s, NormalizeArtist(s))
  {
    var stripped := Strip(s, IsBracketOrQuote);
    var a := StripStart(s, IsBracketOrQuote);
    var field := FirstField(ReplaceChar(stripped, ';', ','), ',');
    FirstArtistIsPrefix(stripped);
    var r := Trim(field);
    var b, e := StripStart(field, IsSpace), StripEnd(field, IsSpace);
    var end := StripEnd(s, IsBracketOrQuote);
    NestedSlice(s, a, end, |field|, b, e);
    SliceIsContained(s, r, a + b, a + e);
  }

  /** A single artist name with nothing to strip is left unchanged. */
  lemma PlainArtistUnchanged(s: string)
    requires ',' !in s && ';' !in s
    requires s == [] || (!IsBracketOrQuote(s[0]) && !IsBracketOrQuote(s[|s| - 1]))
    requires s == [] || (!IsSpace(s[0]) && !IsSpace(s[|s| - 1]))
    ensures NormalizeArtist(s) == s
  {
    StripUnchanged(s, IsBracketOrQuote);
    ReplaceAbsent(s, ';', ',');
    FirstFieldUnsplit(s, ',');
    StripUnchanged(s, IsSpace);
  }

  /** The two leading characters of the stringified list are stripped. */
  lemma ListStripStart(s: string)
    requires s == "['Drake', 'Rihanna']"
    ensures StripStart(s, IsBracketOrQuote) == 2
  {
    assert LeadEnd(s, IsBracketOrQuote, 0) == LeadEnd(s, IsBracketOrQuote, 1) == LeadEnd(s, IsBracketOrQuote, 2) == 2;
  }

  /** The two trailing characters of the stringified list are stripped. */
  lemma ListStripEnd(s: string)
    requires s == "['Drake', 'Rihanna']"
    ensures StripEnd(s, IsBracketOrQuote) == 18
  {
    ListStripStart(s);
    assert TrailStart(s, IsBracketOrQuote, 2, 20) == TrailStart(s, IsBracketOrQuote, 2, 19)
        == TrailStart(s, IsBracketOrQuote, 2, 18) == 18;
  }

  /** The quotes and brackets around a stringified list go; the inner ones stay. */
  lemma StripListBrackets(s: string)
    requires s == "['Drake', 'Rihanna']"
    ensures Strip(s, IsBracketOrQuote) == "Drake', 'Rihanna"
  {
    ListStripStart(s);
    ListStripEnd(s);
  }

  /** The first field runs up to the first ','. */
  lemma FirstListedField(t: string)
    requires t == "Drake', 'Rihanna"
    ensures FirstField(t, ',') == "Drake'"
  {
    assert FieldEnd(t, ',', 0) == FieldEnd(t, ',', 1) == FieldEnd(t, ',', 2) == FieldEnd(t, ',', 3)
        == FieldEnd(t, ',', 4) == FieldEnd(t, ',', 5) == FieldEnd(t, ',', 6) == 6;
  }

  /**
   * A stringified list keeps the first name together with its closing quote,
   * because the quotes are stripped before the list is split.
   */
  lemma ListedArtistsKeepTrailingQuote(s: string)
    requires s == "['Drake', 'Rihanna']"
    ensures NormalizeArtist(s) == "Drake'"
  {
    var stripped := Strip(s, IsBracketOrQuote);
    StripListBrackets(s);
    ReplaceAbsent(stripped, ';', ',');
    var field := FirstField(stripped, ',');
    FirstListedField(stripped);
    StripUnchanged(field, IsSpace);
  }

  // ---------------------------------------------------------------------------
  // load_csv
  // ---------------------------------------------------------------------------

  /** The number of rows written per insert. */
  const BatchSize: nat := 500

  /** The slices df.iloc[start:start + 500] for start in range(0, len(df), 500). */
  function Batches(s: seq<NewTrack>): seq<seq<NewTrack>>
    decreases |s|
  {
    if s == [] then []
    else if |s| <= BatchSize then [s]
    else [s[..BatchSize]] + Batches(s[BatchSize..])
  }

  function Concat(bs: seq<seq<NewTrack>>): seq<NewTrack> {
    if bs == [] then [] else bs[0] + Concat(bs[1..])
  }

  /** The batches put back together are the rows, in order. */
  lemma {:induction false} BatchesConcat(s: seq<NewTrack>)
    ensures Concat(Batches(s)) == s
  {
    if |s| > BatchSize {
      BatchesConcat(s[BatchSize..]);
      assert s == s[..BatchSize] + s[BatchSize..];
    }
  }

  /** There are ceil(n / 500) batches. */
  lemma {:induction false} BatchesCount(s: seq<NewTrack>)
    ensures |Batches(s)| == (|s| + BatchSize - 1) / BatchSize
  {
    if |s| > BatchSize {
      BatchesCount(s[BatchSize..]);
      assert (|s| + BatchSize - 1) / BatchSize == (|s| - BatchSize + BatchSize - 1) / BatchSize + 1;
    }
  }

  /** Batch k is the slice starting at 500 k, holding between one and 500 rows. */
  lemma {:induction false} BatchAt(s: seq<NewTrack>, k: nat)
    requires k < |Batches(s)|
    ensures BatchSize * k < |s|
    ensures Batches(s)[k] == s[BatchSize * k..Min(BatchSize * k + BatchSize, |s|)]
    ensures 1 <= |Batches(s)[k]| <= BatchSize
  {
    if k > 0 {
      var t := s[BatchSize..];
      assert Batches(s)[k] == Batches(t)[k - 1];
      BatchAt(t, k - 1);
      var a := BatchSize * (k - 1);
      var e := Min(a + BatchSize, |t|);
      SliceOfSuffix(s, BatchSize, a, e);
      assert BatchSize + a == BatchSize * k;
      assert BatchSize + e == Min(BatchSize * k + BatchSize, |s|);
    }
  }

  /**
   * There are ceil(n / 500) batches; batch k is the slice starting at 500 k,
   * holding between one and 500 rows.
   */
  lemma BatchesShape(s: seq<NewTrack>)
    ensures |Batches(s)| == (|s| + BatchSize - 1) / BatchSize
    ensures forall k :: 0 <= k < |Batches(s)| ==>
      BatchSize * k < |s| && Batches(s)[k] == s[BatchSize * k..Min(BatchSize * k + BatchSize, |s|)]
      && 1 <= |Batches(s)[k]| <= BatchSize
  {
    BatchesCount(s);
    forall k | 0 <= k < |Batches(s)|
      ensures BatchSize * k < |s| && Batches(s)[k] == s[BatchSize * k..Min(BatchSize * k + BatchSize, |s|)]
      && 1 <= |Batches(s)[k]| <= BatchSize
    {
      BatchAt(s, k);
    }
  }

  /** _read_csv followed by _normalize: the rows load_csv writes, or the error it stops with. */
  function Prepare(f: Frame, parse: string -> Option<real>): (r: Result<Normalized, LoadError>)
    requires Rectangular(f)
    ensures r.Err? <==> f.header == [] || LocateColumns(ReadCsv(f).value.header).Err?
    ensures r.Ok? ==> r.value.dropped + |r.value.rows| == |f.rows|
  {
    match ReadCsv(f)
    case Err(e) => Err(e)
    case Ok(g) => Normalize(g, parse)
  }

  /** The table after a successful load: truncated when `replace` is set, then the rows appended. */
  function AfterLoad(st: TableState, rows: seq<NewTrack>, replace: bool): TableState {
    Appended(if replace then Truncated(st) else st, rows)
  }

  /** Loading without replace keeps every row already in the table, in place. */
  lemma LoadKeepsExistingRows(st: TableState, rows: seq<NewTrack>)
    ensures var after := AfterLoad(st, rows, false);
      |after.rows| == |st.rows| + |rows| && after.rows[..|st.rows|] == st.rows
      && forall k :: 0 <= k < |rows| ==> WithoutId(after.rows[|st.rows| + k]) == rows[k]
  {
    forall k | 0 <= k < |rows| ensures WithoutId(AfterLoad(st, rows, false).rows[|st.rows| + k]) == rows[k] {
      StoredAt(rows, st.nextId, k);
    }
  }

  /** Loading the same rows twice without replace stores every one of them twice. */
  lemma LoadTwiceDuplicates(st: TableState, rows: seq<NewTrack>)
    ensures var after := AfterLoad(AfterLoad(st, rows, false), rows, false);
      |after.rows| == |st.rows| + 2 * |rows|
      && forall k :: 0 <= k < |rows| ==>
        WithoutId(after.rows[|st.rows| + k]) == rows[k]
        && WithoutId(after.rows[|st.rows| + |rows| + k]) == rows[k]
  {
    var once := AfterLoad(st, rows, false);
    LoadKeepsExistingRows(st, rows);
    LoadKeepsExistingRows(once, rows);
    var after := AfterLoad(once, rows, false);
    forall k | 0 <= k < |rows|
      ensures WithoutId(after.rows[|st.rows| + k]) == rows[k]
    {
      assert after.rows[|st.rows| + k] == once.rows[|st.rows| + k];
    }
  }

  /** After a load with replace the table holds exactly the new rows, whatever it held before. */
  lemma ReplaceForgetsPriorRows(st1: TableState, st2: TableState, rows: seq<NewTrack>)
    ensures var a, b := AfterLoad(st1, rows, true), AfterLoad(st2, rows, true);
      |a.rows| == |b.rows| == |rows|
      && forall k :: 0 <= k < |rows| ==> WithoutId(a.rows[k]) == rows[k] && WithoutId(b.rows[k]) == rows[k]
  {
    forall k | 0 <= k < |rows| ensures WithoutId(AfterLoad(st1, rows, true).rows[k]) == rows[k]
      && WithoutId(AfterLoad(st2, rows, true).rows[k]) == rows[k]
    {
      StoredAt(rows, st1.nextId, k);
      StoredAt(rows, st2.nextId, k);
    }
  }

  /** What a successful load reports: rows loaded, rows dropped, inserts issued. */
  datatype LoadReport = LoadReport(loaded: nat, dropped: nat, batches: nat)

  /** The batches from `start` on are the slice at `start` followed by the batches after it. */
  lemma BatchStep(rows: seq<NewTrack>, start: nat)
    requires start < |rows|
    ensures var next := Min(start + BatchSize, |rows|);
      Batches(rows[start..]) == [rows[start..next]] + Batches(rows[next..])
  {
    var rest := rows[start..];
    if |rest| > BatchSize {
      assert rest[..BatchSize] == rows[start..start + BatchSize];
      assert rest[BatchSize..] == rows[start + BatchSize..];
    } else {
      assert rows[start..|rows|] == rest;
      assert rows[|rows|..] == [];
    }
  }

  /** Appending the slice at `start` after the rows before it appends the rows up to the slice's end. */
  lemma AppendedStep(base: TableState, rows: seq<NewTrack>, start: nat)
    requires start < |rows|
    ensures var next := Min(start + BatchSize, |rows|);
      Appended(Appended(base, rows[..start]), rows[start..next]) == Appended(base, rows[..next])
  {
    var next := Min(start + BatchSize, |rows|);
    AppendedTwice(base, rows[..start], rows[start..next]);
    assert rows[..start] + rows[start..next] == rows[..next];
  }

  /**
   * The insert loop of load_csv: appends the rows to the table in slices of
   * 500, in order. `sent` is the sequence of slices written.
   */
  method AppendInBatches(table: TrackTable, rows: seq<NewTrack>) returns (batches: nat, ghost sent: seq<seq<NewTrack>>)
    requires table.Valid()
    modifies table
    ensures table.Valid() && table.State() == Appended(old(table.State()), rows)
    ensures sent == Batches(rows) && batches == |sent|
  {
    ghost var base := table.State();
    sent := [];
    var start := 0;
    batches := 0;
    assert rows[start..] == rows && rows[..start] == [];
    // start runs over range(0, len(rows), 500); the last slice ends at len(rows)
    while start < |rows|
      invariant start <= |rows|
      invariant table.Valid()
      invariant batches == |sent|
      invariant sent + Batches(rows[start..]) == Batches(rows)
      invariant table.State() == Appended(base, rows[..start])
    {
      var next := Min(start + BatchSize, |rows|);
      var batch := rows[start..next];
      BatchStep(rows, start);
      AppendedStep(base, rows, start);
      table.Append(batch);
      assert (sent + [batch]) + Batches(rows[next..]) == sent + Batches(rows[start..]);
      sent := sent + [batch];
      start := next;
      batches := batches + 1;
    }
    assert rows[..start] == rows;
  }

  /**
   * load_csv: reads and normalises the file (failing before any write), then
   * truncates the table when asked and appends the rows batch by batch.
   */
  method LoadCsv(table: TrackTable, f: Frame, replace: bool, parse: string -> Option<real>)
    returns (outcome: Result<LoadReport, LoadError>)
    requires table.Valid() && Rectangular(f)
    modifies table
    ensures table.Valid()
    ensures outcome.Err? <==> Prepare(f, parse).Err?
    ensures outcome.Err? ==> outcome.error == Prepare(f, parse).error && table.State() == old(table.State())
    ensures outcome.Ok? ==>
      var n := Prepare(f, parse).value;
      table.State() == AfterLoad(old(table.State()), n.rows, replace)
      && outcome.value == LoadReport(|n.rows|, n.dropped, |Batches(n.rows)|)
  {
    var read := ReadCsv(f);
    if read.Err? {
      return Err(read.error);
    }
    var normalized := Normalize(read.value, parse);
    if normalized.Err? {
      return Err(normalized.error);
    }
    if replace {
      table.Truncate();
    }
    var batches, sent := AppendInBatches(table, normalized.value.rows);
    outcome := Ok(LoadReport(|normalized.value.rows|, normalized.value.dropped, batches));
  }
}
