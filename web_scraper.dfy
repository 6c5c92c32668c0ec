/**
  The film-table scraper, from the fetched page on: header normalisation, the row-by-row
  parsing of one table into film records, the choice of tables, the fallback to the built-in
  sample and the 50-record limit. A table is its rows of cells, each cell carrying its stripped
  text and whether it is a header cell (`th`).
*/
module WebScraper {
  import opened Wrappers
  import opened Text
  import opened Sequences
  import opened Patterns
  import opened Records

  // ---------------------------------------------------------------- _normalize_header

  /** The rewrite table, in the order it is consulted: a header containing the key becomes the value. */
  const Normalizations: seq<(string, string)> := [
    ("worldwide gross", "worldwide_gross"),
    ("box office", "worldwide_gross"),
    ("total gross", "worldwide_gross"),
    ("film title", "title"),
    ("movie", "title"),
    ("release year", "year"),
    ("year released", "year")
  ]

  predicate RewritesHeader(entry: (string, string), h: string) {
    Contains(h, entry.0)
  }

  /** A canonical field name: word characters only, no capitals. */
  predicate Canonical(name: string) {
    forall c :: c in name ==> IsWordChar(c) && !IsUpper(c)
  }

  /**
    _normalize_header: the lower-cased, stripped header is rewritten by the first table key it
    contains; otherwise other punctuation is dropped and whitespace runs become "_".
  */
  function NormalizeHeader(header: string): (r: string)
    ensures Canonical(r)
  {
    var h := Strip(Lower(header));
    match FindIndex(Normalizations, entry => RewritesHeader(entry, h), 0)
    case Some(i) =>
      RewriteTargetsCanonical();
      Normalizations[i].1
    case None =>
      CleanedCanonical(header);
      UnderscoreSpaces(KeepWordAndSpace(h))
  }

  lemma RewriteTargetsCanonical()
    ensures forall i :: 0 <= i < |Normalizations| ==> Canonical(Normalizations[i].1)
  {
    assert Canonical("worldwide_gross") && Canonical("title") && Canonical("year");
  }

  /** Dropping punctuation and joining whitespace runs leaves only lower-case word characters. */
  lemma CleanedCanonical(header: string)
    ensures Canonical(UnderscoreSpaces(KeepWordAndSpace(Strip(Lower(header)))))
  {
    var h := Strip(Lower(header));
    KeptWordAndSpace(h);
    LowerHasNoUpper(header);
    assert forall c :: c in h ==> c in Lower(header) by {
      var s := TrimStart(Lower(header));
      assert forall c :: c in s ==> c in Lower(header);
    }
  }

  /**
    The rewrite table is consulted in order and the first key the cleaned header contains
    decides; a header containing none is cleaned instead.
  */
  lemma NormalizeHeaderRule(header: string, h: string)
    requires h == Strip(Lower(header))
    ensures forall i :: 0 <= i < |Normalizations| && Contains(h, Normalizations[i].0)
                        && (forall j :: 0 <= j < i ==> !Contains(h, Normalizations[j].0))
              ==> NormalizeHeader(header) == Normalizations[i].1
    ensures (forall i :: 0 <= i < |Normalizations| ==> !Contains(h, Normalizations[i].0))
              ==> NormalizeHeader(header) == UnderscoreSpaces(KeepWordAndSpace(h))
  {
    var p := entry => RewritesHeader(entry, h);
    FindIndexFirst(Normalizations, p);
    assert forall i :: 0 <= i < |Normalizations| ==> (p(Normalizations[i]) <==> Contains(h, Normalizations[i].0));
  }

  /** Every rewrite key but "movie" has a space, which a normalised header never does. */
  lemma NoKeyInCanonical(name: string)
    requires Canonical(name) && !Contains(name, "movie")
    ensures forall i :: 0 <= i < |Normalizations| ==> !Contains(name, Normalizations[i].0)
  {
    assert Normalizations[0].0[9] == ' ' && Normalizations[1].0[3] == ' ' && Normalizations[2].0[5] == ' '
        && Normalizations[3].0[4] == ' ' && Normalizations[5].0[7] == ' ' && Normalizations[6].0[4] == ' ';
    forall i | 0 <= i < |Normalizations| && i != 4 ensures !Contains(name, Normalizations[i].0) {
      assert ' ' in Normalizations[i].0;
      if Contains(name, Normalizations[i].0) {
        ContainsChars(name, Normalizations[i].0, ' ');
      }
    }
  }

  /**
    Normalising a normalised header changes nothing, unless the result spells "movie": the key
    "movie" alone has no space, and dropping punctuation can produce it (MovieReappears).
  */
  lemma NormalizeHeaderIdempotent(header: string)
    requires !Contains(NormalizeHeader(header), "movie")
    ensures NormalizeHeader(NormalizeHeader(header)) == NormalizeHeader(header)
  {
    var r := NormalizeHeader(header);
    LowerOfLowerCase(r);
    assert forall c :: c in r ==> !IsSpace(c);
    if |r| > 0 {
      assert r[0] in r && r[|r| - 1] in r;
    }
    StripUnspaced(r);
    NoKeyInCanonical(r);
    KeepWordAndSpaceOfWord(r);
    UnderscoreSpacesOfUnspaced(r);
    NormalizeHeaderRule(r, r);
  }

  lemma PunctuatedMovieStripped()
    ensures Strip(Lower("mo-vie")) == "mo-vie"
  {
    assert Lower("mo-vie") == "mo-vie";
    StripUnspaced("mo-vie");
  }

  lemma PunctuationDropped(p: char)
    requires !IsWordChar(p) && !IsSpace(p)
    ensures KeepWordAndSpace([p]) == []
  {
    assert [p][1..] == [];
  }

  lemma PunctuationSplits(a: string, p: char, b: string)
    ensures KeepWordAndSpace(a + [p] + b) == KeepWordAndSpace(a) + KeepWordAndSpace([p]) + KeepWordAndSpace(b)
  {
    KeepWordAndSpaceConcat(a + [p], b);
    KeepWordAndSpaceConcat(a, [p]);
  }

  /** A punctuation character between two clean pieces disappears, joining them. */
  lemma PunctuationJoins(a: string, p: char, b: string)
    requires KeepWordAndSpace(a) == a && KeepWordAndSpace(b) == b
    requires !IsWordChar(p) && !IsSpace(p)
    ensures KeepWordAndSpace(a + [p] + b) == a + b
  {
    PunctuationSplits(a, p, b);
    PunctuationDropped(p);
    assert a + [] + b == a + b;
  }

  lemma MovieHalvesClean()
    ensures KeepWordAndSpace("mo") == "mo" && KeepWordAndSpace("vie") == "vie"
  {
    KeepWordAndSpaceOfWord("mo");
    KeepWordAndSpaceOfWord("vie");
  }

  lemma PunctuatedMovieCleaned()
    ensures KeepWordAndSpace("mo-vie") == "movie"
  {
    MovieHalvesClean();
    assert "mo" + ['-'] + "vie" == "mo-vie" && "mo" + "vie" == "movie";
    PunctuationJoins("mo", '-', "vie");
  }

  lemma PunctuatedMovieKeys()
    ensures forall i :: 0 <= i < |Normalizations| ==> !Contains("mo-vie", Normalizations[i].0)
  {
    forall i | 0 <= i < |Normalizations| ensures !Contains("mo-vie", Normalizations[i].0) {
      assert |"mo-vie"| == 6;
      if i == 4 {
        assert !MatchAt("mo-vie", "movie", 0, 0) && !MatchAt("mo-vie", "movie", 1, 0);
      }
    }
  }

  /** "mo-vie" normalises to "movie", which normalises on to "title". */
  lemma MovieReappears()
    ensures NormalizeHeader("mo-vie") == "movie" && NormalizeHeader("movie") == "title"
  {
    PunctuatedMovieNormalized();
    MovieIsRewritten();
  }

  lemma MovieUnspaced()
    ensures UnderscoreSpaces("movie") == "movie"
  {
    UnderscoreSpacesOfUnspaced("movie");
  }

  lemma PunctuatedMovieNormalized()
    ensures NormalizeHeader("mo-vie") == "movie"
  {
    PunctuatedMovieStripped();
    PunctuatedMovieCleaned();
    PunctuatedMovieKeys();
    MovieUnspaced();
    NormalizeHeaderRule("mo-vie", "mo-vie");
  }

  lemma MovieStripped()
    ensures Strip(Lower("movie")) == "movie"
  {
    assert Lower("movie") == "movie";
    StripUnspaced("movie");
  }

  lemma MovieKeys()
    ensures forall j :: 0 <= j < 4 ==> !Contains("movie", Normalizations[j].0)
    ensures Contains("movie", Normalizations[4].0)
  {
    assert MatchAt("movie", "movie", 0, 0);
  }

  lemma MovieIsRewritten()
    ensures NormalizeHeader("movie") == "title"
  {
    MovieStripped();
    MovieKeys();
    NormalizeHeaderRule("movie", "movie");
  }

  lemma ExampleHeaderLowered()
    ensures Strip(Lower("Movie Box Office")) == "movie box office"
  {
    assert Lower("Movie Box Office") == "movie box office";
    StripUnspaced("movie box office");
  }

  lemma ExampleHeaderOffset()
    ensures OccursAt("movie box office", "box office", 6)
  {
  }

  lemma ExampleHeaderKeys()
    ensures !Contains("movie box office", "worldwide gross") && Contains("movie box office", "box office")
  {
    ExampleHeaderOffset();
    OccursContains("movie box office", "box office", 6);
    MissingChar("movie box office", "worldwide gross", 'w');
  }

  /** "box office" is consulted before "movie", so "Movie Box Office" names the gross. */
  lemma BoxOfficeBeforeMovie()
    ensures NormalizeHeader("Movie Box Office") == "worldwide_gross"
  {
    ExampleHeaderLowered();
    ExampleHeaderKeys();
    NormalizeHeaderRule("Movie Box Office", "movie box office");
    assert Normalizations[0].0 == "worldwide gross" && Normalizations[1] == ("box office", "worldwide_gross");
  }

  // ---------------------------------------------------------------- _parse_films_table

  /** One table cell: its text as get_text(strip=True) gives it, and whether it is a `th`. */
  datatype HtmlCell = HtmlCell(text: string, isHeader: bool)

  /** A table: its `tr` rows in document order, each the list of its `td`/`th` cells. */
  type Table = seq<seq<HtmlCell>>

  /** An optional parsed number as a record value: None is stored as a missing value. */
  function NumberCell(n: Option<int>): Cell {
    match n
    case Some(v) => Int(v)
    case None => Missing
  }

  function IntegerCell(n: Option<nat>): Cell {
    match n
    case Some(v) => Int(v)
    case None => Missing
  }

  /**
    Where one cell goes, by its column's normalised header: the key written and the value
    stored (the if/elif chain of the cell loop).
  */
  function Route(header: string, text: string): (r: (string, Cell))
    ensures r.0 == header || header == "film" || Contains(header, "gross") || Contains(header, "revenue")
  {
    if header == "rank" then ("rank", IntegerCell(FirstInteger(text)))
    else if header == "title" || header == "film" then ("title", Str(CleanTitle(text)))
    else if Contains(header, "gross") || Contains(header, "revenue") then ("worldwide_gross", Str(text))
    else if header == "year" then ("year", NumberCell(FirstYear(text)))
    else if header == "peak" then ("peak", IntegerCell(FirstInteger(text)))
    else (header, Str(text))
  }

  /** Each canonical field always holds what its parser produces, whatever the header. */
  lemma RouteFields(header: string, text: string)
    ensures var r := Route(header, text);
      && (r.0 == "rank" || r.0 == "peak" ==> r.1 == IntegerCell(FirstInteger(text)))
      && (r.0 == "title" ==> r.1 == Str(CleanTitle(text)))
      && (r.0 == "worldwide_gross" ==> r.1 == Str(text))
      && (r.0 == "year" ==> r.1 == NumberCell(FirstYear(text)))
      && (r.0 !in {"rank", "peak", "title", "worldwide_gross", "year"} ==> r == (header, Str(text)))
  {
    GrossInCanonicalGross();
    if header == "rank" {
    } else if header == "title" || header == "film" {
    } else if Contains(header, "gross") || Contains(header, "revenue") {
    } else if header == "year" {
    } else if header == "peak" {
    } else {
      assert header != "worldwide_gross";
    }
  }

  lemma GrossOffset()
    ensures OccursAt("worldwide_gross", "gross", 10)
  {
  }

  lemma GrossInCanonicalGross()
    ensures Contains("worldwide_gross", "gross")
  {
    GrossOffset();
    OccursContains("worldwide_gross", "gross", 10);
  }

  /** The normalised header of every header-row cell. */
  function HeaderNames(headerRow: seq<HtmlCell>): (hs: seq<string>)
    ensures |hs| == |headerRow| && forall i :: 0 <= i < |hs| ==> hs[i] == NormalizeHeader(headerRow[i].text)
  {
    seq(|headerRow|, i requires 0 <= i < |headerRow| => NormalizeHeader(headerRow[i].text))
  }

  /** The assignments one row makes: one per cell that has a header, in cell order. */
  function Writes(headers: seq<string>, cells: seq<HtmlCell>): (ws: seq<(string, Cell)>)
    ensures |ws| == Min(|cells|, |headers|)
    ensures forall i :: 0 <= i < |ws| ==> ws[i] == Route(headers[i], cells[i].text)
  {
    seq(Min(|cells|, |headers|), i requires 0 <= i < Min(|cells|, |headers|) => Route(headers[i], cells[i].text))
  }

  function Min(a: nat, b: nat): nat { if a < b then a else b }

  lemma WritesSnoc(headers: seq<string>, cells: seq<HtmlCell>, i: nat)
    requires i < |cells|
    ensures i < |headers| ==> Writes(headers, cells[..i + 1]) == Writes(headers, cells[..i]) + [Route(headers[i], cells[i].text)]
    ensures i >= |headers| ==> Writes(headers, cells[..i + 1]) == Writes(headers, cells[..i])
  {
    var longer, shorter := Writes(headers, cells[..i + 1]), Writes(headers, cells[..i]);
    var c1, c0 := cells[..i + 1], cells[..i];
    if i < |headers| {
      var w := [Route(headers[i], cells[i].text)];
      assert |longer| == |shorter + w|;
      forall k | 0 <= k < |longer| ensures longer[k] == (shorter + w)[k] {
        if k < i {
          assert c1[k] == c0[k];
        }
      }
    } else {
      assert |longer| == |shorter|;
      forall k | 0 <= k < |longer| ensures longer[k] == shorter[k] {
        assert c1[k] == c0[k];
      }
    }
  }

  /** The dict built from one row: the cells' assignments made in turn, later ones replacing earlier ones. */
  function RowRecord(headers: seq<string>, cells: seq<HtmlCell>): Record {
    PutAll([], Writes(headers, cells))
  }

  /** `'title' in film_data and film_data['title']` */
  predicate Titled(rec: Record) {
    Get(rec, "title").Some? && Truthy(Get(rec, "title").value)
  }

  /** The record a data row yields: rows of fewer than three cells, and untitled ones, yield none. */
  function RowFilm(headers: seq<string>, cells: seq<HtmlCell>): Option<Record> {
    if |cells| >= 3 && Titled(RowRecord(headers, cells)) then Some(RowRecord(headers, cells)) else None
  }

  /** The records _parse_films_table returns: those of the rows after the header row, in order. */
  function ParsedTable(table: Table): seq<Record> {
    if |table| == 0 then [] else FilterMap(table[1..], cells => RowFilm(HeaderNames(table[0]), cells))
  }

  /** One step of the inner loop of _parse_films_table: the assignment a cell makes. */
  method AssignCell(filmData: Record, header: string, cellText: string) returns (r: Record)
    ensures r == Put(filmData, Route(header, cellText).0, Route(header, cellText).1)
  {
    if header == "rank" {
      r := Put(filmData, "rank", IntegerCell(FirstInteger(cellText)));
    } else if header == "title" || header == "film" {
      r := Put(filmData, "title", Str(CleanTitle(cellText)));
    } else if Contains(header, "gross") || Contains(header, "revenue") {
      r := Put(filmData, "worldwide_gross", Str(cellText));
    } else if header == "year" {
      r := Put(filmData, "year", NumberCell(FirstYear(cellText)));
    } else if header == "peak" {
      r := Put(filmData, "peak", IntegerCell(FirstInteger(cellText)));
    } else {
      r := Put(filmData, header, Str(cellText));
    }
  }

  /** The inner loop of _parse_films_table: the dict of one row. */
  method BuildRecord(headers: seq<string>, cells: seq<HtmlCell>) returns (filmData: Record)
    ensures filmData == RowRecord(headers, cells)
  {
    filmData := [];
    var i := 0;
    while i < |cells|
      invariant 0 <= i <= |cells|
      invariant filmData == RowRecord(headers, cells[..i])
    {
      WritesSnoc(headers, cells, i);
      if i < |headers| {
        var header := headers[i];
        var cellText := cells[i].text;
        filmData := AssignCell(filmData, header, cellText);
        ghost var ws := Writes(headers, cells[..i + 1]);
        assert ws[..|ws| - 1] == Writes(headers, cells[..i]) && ws[|ws| - 1] == Route(header, cellText);
      }
      i := i + 1;
    }
    assert cells[..i] == cells;
  }

  /** The header loop of _parse_films_table. */
  method ReadHeaders(headerRow: seq<HtmlCell>) returns (headers: seq<string>)
    ensures headers == HeaderNames(headerRow)
  {
    headers := [];
    var j := 0;
    while j < |headerRow|
      invariant 0 <= j <= |headerRow|
      invariant |headers| == j && forall i :: 0 <= i < j ==> headers[i] == NormalizeHeader(headerRow[i].text)
    {
      var name := NormalizeHeader(headerRow[j].text);
      headers := headers + [name];
      j := j + 1;
    }
  }

  /** The row loop of _parse_films_table. */
  method CollectFilms(headers: seq<string>, rows: Table) returns (films: seq<Record>)
    ensures films == FilterMap(rows, cells => RowFilm(headers, cells))
  {
    ghost var f := cells => RowFilm(headers, cells);
    films := [];
    var r := 0;
    while r < |rows|
      invariant 0 <= r <= |rows|
      invariant films == FilterMap(rows[..r], f)
    {
      FilterMapSnoc(rows[..r], rows[r], f);
      assert rows[..r + 1] == rows[..r] + [rows[r]];
      var cells := rows[r];
      if |cells| >= 3 {
        var filmData := BuildRecord(headers, cells);
        if Get(filmData, "title").Some? && Truthy(Get(filmData, "title").value) {
          films := films + [filmData];
        }
      }
      r := r + 1;
    }
    assert rows[..r] == rows;
  }

  /** _parse_films_table */
  method ParseFilmsTable(table: Table) returns (films: seq<Record>)
    ensures films == ParsedTable(table)
  {
    if |table| == 0 {
      return [];
    }
    var headers := ReadHeaders(table[0]);
    films := CollectFilms(headers, table[1..]);
  }

  /** The film fields hold what their parsers produce: text titles and grosses, years in range or missing, numbers non-negative or missing. */
  predicate FilmFieldsTyped(rec: Record) {
    && (Get(rec, "title").Some? ==> Get(rec, "title").value.Str?)
    && (Get(rec, "worldwide_gross").Some? ==> Get(rec, "worldwide_gross").value.Str?)
    && (Get(rec, "year").Some? ==>
          (Get(rec, "year").value.Missing? || (Get(rec, "year").value.Int? && 1900 <= Get(rec, "year").value.n <= 2099)))
    && (Get(rec, "rank").Some? ==> Get(rec, "rank").value.Missing? || (Get(rec, "rank").value.Int? && Get(rec, "rank").value.n >= 0))
    && (Get(rec, "peak").Some? ==> Get(rec, "peak").value.Missing? || (Get(rec, "peak").value.Int? && Get(rec, "peak").value.n >= 0))
  }

  lemma RouteTyped(rec: Record, header: string, text: string)
    requires FilmFieldsTyped(rec)
    ensures FilmFieldsTyped(Put(rec, Route(header, text).0, Route(header, text).1))
  {
    RouteFields(header, text);
    var (k, v) := Route(header, text);
    GetPut(rec, k, v, "title");
    GetPut(rec, k, v, "worldwide_gross");
    GetPut(rec, k, v, "year");
    GetPut(rec, k, v, "rank");
    GetPut(rec, k, v, "peak");
  }

  lemma {:induction false} WritesTyped(rec: Record, ws: seq<(string, Cell)>, headers: seq<string>, cells: seq<HtmlCell>)
    requires FilmFieldsTyped(rec)
    requires |ws| <= Min(|cells|, |headers|) && forall i :: 0 <= i < |ws| ==> ws[i] == Route(headers[i], cells[i].text)
    ensures FilmFieldsTyped(PutAll(rec, ws))
  {
    if |ws| > 0 {
      var n := |ws| - 1;
      WritesTyped(rec, ws[..n], headers, cells);
      RouteTyped(PutAll(rec, ws[..n]), headers[n], cells[n].text);
    }
  }

  /** A row's dict has distinct keys and well-typed film fields. */
  lemma RowRecordTyped(headers: seq<string>, cells: seq<HtmlCell>)
    ensures DistinctKeys(RowRecord(headers, cells))
    ensures FilmFieldsTyped(RowRecord(headers, cells))
  {
    PutAllDistinct([], Writes(headers, cells));
    WritesTyped([], Writes(headers, cells), headers, cells);
  }

  /**
    Each key holds the value of the last cell (with a header) that writes it, and a key no such
    cell writes is absent.
  */
  lemma RowLastWriteWins(headers: seq<string>, cells: seq<HtmlCell>, key: string)
    ensures (forall i :: 0 <= i < Min(|cells|, |headers|) ==> Route(headers[i], cells[i].text).0 != key)
              ==> Get(RowRecord(headers, cells), key).None?
    ensures forall i :: 0 <= i < Min(|cells|, |headers|) && Route(headers[i], cells[i].text).0 == key
                        && (forall j :: i < j < Min(|cells|, |headers|) ==> Route(headers[j], cells[j].text).0 != key)
              ==> Get(RowRecord(headers, cells), key) == Some(Route(headers[i], cells[i].text).1)
  {
    LastWriteWins([], Writes(headers, cells), key);
  }

  /** Cells beyond the last header are ignored. */
  lemma ExtraCellsIgnored(headers: seq<string>, cells: seq<HtmlCell>)
    requires |cells| >= |headers|
    ensures RowRecord(headers, cells) == RowRecord(headers, cells[..|headers|])
  {
    assert Writes(headers, cells) == Writes(headers, cells[..|headers|]);
  }

  /**
    `films` lists, in row order, the dicts of exactly those data rows (rows after the header row)
    that have at least three cells and a non-empty title: `idx` picks those rows.
  */
  predicate PicksFilmRows(films: seq<Record>, table: Table, idx: seq<nat>)
    requires |table| > 0
  {
    var headers, rows := HeaderNames(table[0]), table[1..];
    && |idx| == |films| && StrictlyIncreasing(idx)
    && (forall k :: 0 <= k < |idx| ==>
          idx[k] < |rows| && |rows[idx[k]]| >= 3 && Titled(RowRecord(headers, rows[idx[k]])) && films[k] == RowRecord(headers, rows[idx[k]]))
    && (forall r :: 0 <= r < |rows| && |rows[r]| >= 3 && Titled(RowRecord(headers, rows[r])) ==> r in idx)
  }

  /** The header row is never a record; the records are the qualifying data rows, in order. */
  lemma ParsedTableRows(table: Table)
    ensures |table| <= 1 ==> ParsedTable(table) == []
    ensures |table| > 0 ==> |ParsedTable(table)| <= |table| - 1
    ensures |table| > 0 ==> PicksFilmRows(ParsedTable(table), table, Kept(table[1..], cells => RowFilm(HeaderNames(table[0]), cells)))
  {
    if |table| > 0 {
      var f := cells => RowFilm(HeaderNames(table[0]), cells);
      FilterMapKeeps(table[1..], f);
      if |table| == 1 {
        assert table[1..] == [];
      }
    }
  }

  /** Every parsed record has a non-empty text title. */
  lemma ParsedFilmsTitled(table: Table)
    ensures forall k :: 0 <= k < |ParsedTable(table)| ==>
              Get(ParsedTable(table)[k], "title").Some? && Get(ParsedTable(table)[k], "title").value.Str?
              && Get(ParsedTable(table)[k], "title").value.s != ""
  {
    if |table| > 0 {
      ParsedTableRows(table);
      var idx := Kept(table[1..], cells => RowFilm(HeaderNames(table[0]), cells));
      forall k | 0 <= k < |ParsedTable(table)|
        ensures Get(ParsedTable(table)[k], "title").Some? && Get(ParsedTable(table)[k], "title").value.Str?
                && Get(ParsedTable(table)[k], "title").value.s != ""
      {
        RowRecordTyped(HeaderNames(table[0]), table[1..][idx[k]]);
      }
    }
  }

  // ---------------------------------------------------------------- _get_sample_films_data

  /** The gross of a sample film: an amount in billions written as "$<amount> billion". */
  function BillionsText(amount: string): string {
    "$" + amount + " billion"
  }

  /** One film of the built-in fallback list, with the keys in the order the list gives them. */
  function SampleFilm(rank: nat, title: string, amount: string, year: nat, peak: nat): Record {
    [("rank", Int(rank)), ("title", Str(title)), ("worldwide_gross", Str(BillionsText(amount))), ("year", Int(year)), ("peak", Int(peak))]
  }

  /** (rank, title, gross in billions, year, peak) of the ten fallback films. */
  const SampleRows: seq<(nat, string, string, nat, nat)> := [
    (1, "Avatar", "2.923", 2009, 1),
    (2, "Avengers: Endgame", "2.798", 2019, 1),
    (3, "Avatar: The Way of Water", "2.320", 2022, 3),
    (4, "Titanic", "2.257", 1997, 1),
    (5, "Star Wars: The Force Awakens", "2.071", 2015, 5),
    (6, "Avengers: Infinity War", "2.048", 2018, 6),
    (7, "Spider-Man: No Way Home", "1.921", 2021, 7),
    (8, "Jurassic World", "1.672", 2015, 8),
    (9, "The Lion King", "1.657", 2019, 9),
    (10, "The Avengers", "1.519", 2012, 10)
  ]

  /** _get_sample_films_data */
  function SampleFilms(): (films: seq<Record>)
    ensures |films| == |SampleRows|
    ensures forall i :: 0 <= i < |films| ==>
              films[i] == SampleFilm(SampleRows[i].0, SampleRows[i].1, SampleRows[i].2, SampleRows[i].3, SampleRows[i].4)
  {
    seq(|SampleRows|, i requires 0 <= i < |SampleRows| =>
      SampleFilm(SampleRows[i].0, SampleRows[i].1, SampleRows[i].2, SampleRows[i].3, SampleRows[i].4))
  }

  /** The sample rows are ranked 1 to 10 in order, with titles and years _parse_year would accept. */
  lemma SampleRowsInRange()
    ensures |SampleRows| == 10
    ensures forall i :: 0 <= i < |SampleRows| ==>
              SampleRows[i].0 == i + 1 && |SampleRows[i].1| > 0 && 1900 <= SampleRows[i].3 <= 2099
  {
  }

  lemma BillionsTextMentionsBillion(amount: string)
    ensures Contains(BillionsText(amount), "billion")
  {
    var g := BillionsText(amount);
    assert g[|amount| + 2..|amount| + 9] == "billion";
    assert OccursAt(g, "billion", |amount| + 2);
    ContainsIff(g, "billion");
  }

  /** The five keys of a sample film differ in their first character. */
  lemma SampleKeysDistinct()
    ensures Distinct(["rank", "title", "worldwide_gross", "year", "peak"])
  {
    var ks := ["rank", "title", "worldwide_gross", "year", "peak"];
    assert ks[0][0] == 'r' && ks[1][0] == 't' && ks[2][0] == 'w' && ks[3][0] == 'y' && ks[4][0] == 'p';
  }

  /** Each sample film lists its fields in the same order and holds what its field promises. */
  lemma SampleFilmFields(rank: nat, title: string, amount: string, year: nat, peak: nat)
    ensures Keys(SampleFilm(rank, title, amount, year, peak)) == ["rank", "title", "worldwide_gross", "year", "peak"]
    ensures Get(SampleFilm(rank, title, amount, year, peak), "rank") == Some(Int(rank))
    ensures Get(SampleFilm(rank, title, amount, year, peak), "title") == Some(Str(title))
    ensures Get(SampleFilm(rank, title, amount, year, peak), "worldwide_gross") == Some(Str(BillionsText(amount)))
    ensures Get(SampleFilm(rank, title, amount, year, peak), "year") == Some(Int(year))
    ensures Get(SampleFilm(rank, title, amount, year, peak), "peak") == Some(Int(peak))
  {
    var rec := SampleFilm(rank, title, amount, year, peak);
    assert Keys(rec) == ["rank", "title", "worldwide_gross", "year", "peak"];
    SampleKeysDistinct();
    assert forall i :: 0 <= i < |rec| ==> rec[i].0 == Keys(rec)[i];
    GetDistinct(rec);
    assert Get(rec, rec[0].0) == Some(Int(rank)) && Get(rec, rec[1].0) == Some(Str(title))
        && Get(rec, rec[2].0) == Some(Str(BillionsText(amount)))
        && Get(rec, rec[3].0) == Some(Int(year)) && Get(rec, rec[4].0) == Some(Int(peak));
  }

  /**
    The fallback list: ten films ranked 1 to 10 in order, each with a non-empty title, a year
    in the range _parse_year accepts and a gross written in billions.
  */
  lemma SampleFilmsShape()
    ensures |SampleFilms()| == 10
    ensures forall i :: 0 <= i < 10 ==> Get(SampleFilms()[i], "rank") == Some(Int(i + 1))
    ensures forall i :: 0 <= i < 10 ==> Titled(SampleFilms()[i]) && FilmFieldsTyped(SampleFilms()[i])
    ensures forall i :: 0 <= i < 10 ==>
              (Get(SampleFilms()[i], "worldwide_gross").Some? && Get(SampleFilms()[i], "worldwide_gross").value.Str?
               && Contains(Get(SampleFilms()[i], "worldwide_gross").value.s, "billion"))
  {
    SampleRowsInRange();
    forall i | 0 <= i < 10
      ensures Get(SampleFilms()[i], "rank") == Some(Int(i + 1))
      ensures Titled(SampleFilms()[i]) && FilmFieldsTyped(SampleFilms()[i])
      ensures Get(SampleFilms()[i], "worldwide_gross").Some? && Get(SampleFilms()[i], "worldwide_gross").value.Str?
              && Contains(Get(SampleFilms()[i], "worldwide_gross").value.s, "billion")
    {
      var row := SampleRows[i];
      SampleFilmFields(row.0, row.1, row.2, row.3, row.4);
      BillionsTextMentionsBillion(row.2);
    }
  }

  // ---------------------------------------------------------------- _scrape_films_sync

  /** The page fetch: a failure (network error, HTTP error status, unparsable page) or the page's wikitables. */
  datatype Fetch = FetchFailed | Fetched(tables: seq<Table>)

  /** Every cell of a table, row after row. */
  function TableCells(table: Table): seq<HtmlCell> {
    if |table| == 0 then [] else TableCells(table[..|table| - 1]) + table[|table| - 1]
  }

  /** `[th.get_text(strip=True).lower() for th in table.find_all('th')]` */
  function HeaderTexts(table: Table): (hs: seq<string>)
    ensures |hs| <= |TableCells(table)|
    ensures forall i :: 0 <= i < |hs| ==> forall c :: c in hs[i] ==> !IsUpper(c)
  {
    var cells, f := TableCells(table), (c: HtmlCell) => if c.isHeader then Some(Lower(c.text)) else None;
    FilterMapKeeps(cells, f);
    assert forall k :: 0 <= k < |cells| ==> f(cells[k]).Some? ==> f(cells[k]).value == Lower(cells[k].text);
    assert forall t :: forall c :: c in Lower(t) ==> !IsUpper(c) by {
      forall t ensures forall c :: c in Lower(t) ==> !IsUpper(c) {
        LowerHasNoUpper(t);
      }
    }
    FilterMap(cells, f)
  }

  const AcceptKeywords: seq<string> := ["rank", "film", "worldwide", "gross"]

  /** A table is read when one of the keywords occurs in its lower-cased header texts joined by spaces. */
  predicate AcceptTable(table: Table)
    ensures AcceptTable(table) ==> |HeaderTexts(table)| > 0
  {
    exists k :: 0 <= k < |AcceptKeywords| && Contains(Join(HeaderTexts(table), " "), AcceptKeywords[k])
  }

  /** Since no keyword holds a space, joining cannot create a match: some single header must contain one. */
  lemma AcceptIffSomeHeader(table: Table)
    ensures AcceptTable(table) <==>
              exists k, i :: 0 <= k < |AcceptKeywords| && 0 <= i < |HeaderTexts(table)| && Contains(HeaderTexts(table)[i], AcceptKeywords[k])
  {
    var hs := HeaderTexts(table);
    forall k | 0 <= k < |AcceptKeywords|
      ensures Contains(Join(hs, " "), AcceptKeywords[k]) <==> exists i :: 0 <= i < |hs| && Contains(hs[i], AcceptKeywords[k])
    {
      assert |AcceptKeywords[k]| > 0;
      assert ' ' !in AcceptKeywords[k];
      ContainsInJoin(hs, ' ', AcceptKeywords[k]);
    }
  }

  /** `films_data` after the table loop: the records of the accepted tables, table after table. */
  function AcceptedFilms(tables: seq<Table>): seq<Record> {
    if |tables| == 0 then []
    else AcceptedFilms(tables[..|tables| - 1])
         + (if AcceptTable(tables[|tables| - 1]) then ParsedTable(tables[|tables| - 1]) else [])
  }

  const MaxFilms: nat := 50

  /** What scraping returns: the sample on failure or when nothing was found, else the first 50 records. */
  function ScrapeResult(fetch: Fetch): (films: seq<Record>)
    ensures 1 <= |films| <= MaxFilms
  {
    SampleRowsInRange();
    match fetch
    case FetchFailed => SampleFilms()
    case Fetched(tables) =>
      var films := AcceptedFilms(tables);
      if |films| == 0 then SampleFilms() else films[..Min(MaxFilms, |films|)]
  }

  /** The table loop of _scrape_films_sync. */
  method CollectTables(tables: seq<Table>) returns (filmsData: seq<Record>)
    ensures filmsData == AcceptedFilms(tables)
  {
    filmsData := [];
    var t := 0;
    while t < |tables|
      invariant 0 <= t <= |tables|
      invariant filmsData == AcceptedFilms(tables[..t])
    {
      assert tables[..t + 1][..t] == tables[..t];
      var table := tables[t];
      if AcceptTable(table) {
        var tableData := ParseFilmsTable(table);
        filmsData := filmsData + tableData;
      }
      t := t + 1;
    }
    assert tables[..t] == tables;
  }

  /** _scrape_films_sync, together with the fallback of scrape_wikipedia_films. */
  method ScrapeFilms(fetch: Fetch) returns (films: seq<Record>)
    ensures films == ScrapeResult(fetch)
  {
    if fetch.FetchFailed? {
      return SampleFilms();
    }
    var filmsData := CollectTables(fetch.tables);
    if |filmsData| == 0 {
      return SampleFilms();
    }
    films := filmsData[..Min(MaxFilms, |filmsData|)];
  }

  /** A table that is not accepted contributes nothing. */
  lemma {:induction false} NoAcceptedTableNoFilms(tables: seq<Table>)
    requires forall t :: 0 <= t < |tables| ==> !AcceptTable(tables[t])
    ensures AcceptedFilms(tables) == []
  {
    if |tables| > 0 {
      NoAcceptedTableNoFilms(tables[..|tables| - 1]);
    }
  }

  /** Every accepted record has a non-empty text title. */
  lemma {:induction false} AcceptedFilmsTitled(tables: seq<Table>)
    ensures forall k :: 0 <= k < |AcceptedFilms(tables)| ==>
              Get(AcceptedFilms(tables)[k], "title").Some? && Get(AcceptedFilms(tables)[k], "title").value.Str?
              && Get(AcceptedFilms(tables)[k], "title").value.s != ""
  {
    if |tables| > 0 {
      var n := |tables| - 1;
      AcceptedFilmsTitled(tables[..n]);
      ParsedFilmsTitled(tables[n]);
    }
  }

  /**
    Scraping never returns an empty list and never more than 50 records; it falls back to the
    sample exactly when the fetch failed or no accepted table yielded a record, and otherwise
    returns the leading records found, in order.
  */
  lemma ScrapeResultShape(fetch: Fetch)
    ensures fetch.FetchFailed? ==> ScrapeResult(fetch) == SampleFilms()
    ensures fetch.Fetched? && AcceptedFilms(fetch.tables) == [] ==> ScrapeResult(fetch) == SampleFilms()
    ensures fetch.Fetched? && AcceptedFilms(fetch.tables) != [] ==>
              && |ScrapeResult(fetch)| == Min(MaxFilms, |AcceptedFilms(fetch.tables)|)
              && ScrapeResult(fetch) == AcceptedFilms(fetch.tables)[..|ScrapeResult(fetch)|]
  {
    SampleFilmsShape();
  }

  /** Every record scraping returns, found or sample, has a non-empty text title. */
  lemma ScrapedFilmsTitled(fetch: Fetch)
    ensures forall k :: 0 <= k < |ScrapeResult(fetch)| ==>
              Get(ScrapeResult(fetch)[k], "title").Some? && Get(ScrapeResult(fetch)[k], "title").value.Str?
              && Get(ScrapeResult(fetch)[k], "title").value.s != ""
  {
    SampleFilmsShape();
    if fetch.Fetched? {
      AcceptedFilmsTitled(fetch.tables);
    }
  }
}
