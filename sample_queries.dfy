/**
  The film queries over the built-in fallback list: every sample record read back through the
  field extractor (its year, its gross in billions, its title), and the answers the count and
  earliest-film questions get from the ten sample films.
*/
module SampleQueries {
  import opened Wrappers
  import opened Text
  import opened Sequences
  import opened Patterns
  import opened Records
  import opened DataProcessor
  import opened WebScraper

  const FilmKeys: seq<string> := ["rank", "title", "worldwide_gross", "year", "peak"]

  // ---------------------------------------------------------------- the frame of the sample list

  /** Adding columns that are all present already changes nothing. */
  lemma {:induction false} AddPresentColumns(cols: seq<string>, ks: seq<string>)
    requires forall k :: k in ks ==> k in cols
    ensures AddColumns(cols, ks) == cols
    decreases |ks|
  {
    if |ks| > 0 {
      assert ks[0] in ks;
      assert forall k :: k in ks[1..] ==> k in ks;
      AddPresentColumns(cols, ks[1..]);
    }
  }

  /** Columns that are new and distinct are appended in order. */
  lemma {:induction false} AddFreshColumns(cols: seq<string>, ks: seq<string>)
    requires Distinct(cols + ks)
    ensures AddColumns(cols, ks) == cols + ks
    decreases |ks|
  {
    if |ks| > 0 {
      var cs := cols + ks;
      assert ks[0] !in cols by {
        forall j | 0 <= j < |cols| ensures cols[j] != ks[0] {
          assert cs[j] == cols[j] && cs[|cols|] == ks[0];
        }
      }
      assert cols + [ks[0]] + ks[1..] == cs;
      AddFreshColumns(cols + [ks[0]], ks[1..]);
    }
  }

  /** Records that share one list of distinct keys give a frame with exactly those columns. */
  lemma {:induction false} UniformColumns(data: seq<Record>, ks: seq<string>)
    requires |data| > 0 && Distinct(ks) && forall i :: 0 <= i < |data| ==> Keys(data[i]) == ks
    ensures Columns(data) == ks
  {
    var init := data[..|data| - 1];
    if |init| == 0 {
      assert [] + ks == ks;
      AddFreshColumns([], ks);
    } else {
      assert forall i :: 0 <= i < |init| ==> init[i] == data[i];
      UniformColumns(init, ks);
      AddPresentColumns(ks, ks);
    }
  }

  /** A record with distinct keys, aligned to its own keys, is itself. */
  lemma AlignOwnKeys(rec: Record)
    requires DistinctKeys(rec)
    ensures AlignRow(rec, Keys(rec)) == rec
  {
    GetDistinct(rec);
    var row := AlignRow(rec, Keys(rec));
    forall i | 0 <= i < |rec| ensures row[i] == rec[i] {
      assert Keys(row)[i] == rec[i].0;
      assert Get(row, rec[i].0) == Some(CellAt(rec, rec[i].0));
      GetAt(row, i);
    }
  }

  /** Records that share one list of distinct keys are already a frame. */
  lemma UniformFrame(data: seq<Record>, ks: seq<string>)
    requires |data| > 0 && Distinct(ks)
    requires forall i :: 0 <= i < |data| ==> Keys(data[i]) == ks && DistinctKeys(data[i])
    ensures Frame(data) == data
  {
    UniformColumns(data, ks);
    forall i | 0 <= i < |data| ensures Frame(data)[i] == data[i] {
      FrameRowIsOwn(data, i);
    }
  }

  lemma FrameRowIsOwn(data: seq<Record>, i: nat)
    requires i < |data| && Columns(data) == Keys(data[i]) && DistinctKeys(data[i])
    ensures Frame(data)[i] == data[i]
  {
    AlignOwnKeys(data[i]);
  }

  /** A sample film has the five film keys, each once. */
  lemma SampleFilmKeys(rank: nat, title: string, amount: string, year: nat, peak: nat)
    ensures Keys(SampleFilm(rank, title, amount, year, peak)) == FilmKeys
    ensures DistinctKeys(SampleFilm(rank, title, amount, year, peak))
  {
    SampleFilmFields(rank, title, amount, year, peak);
    SampleKeysDistinct();
  }

  /** The sample films are already a frame: pandas adds no column and no NaN to them. */
  lemma SampleFrame()
    ensures Frame(SampleFilms()) == SampleFilms()
  {
    var films := SampleFilms();
    SampleRowsInRange();
    forall i | 0 <= i < |films| ensures Keys(films[i]) == FilmKeys && DistinctKeys(films[i]) {
      var r := SampleRows[i];
      SampleFilmKeys(r.0, r.1, r.2, r.3, r.4);
    }
    SampleKeysDistinct();
    UniformFrame(films, FilmKeys);
  }

  // ---------------------------------------------------------------- the fields of one sample record

  /** A gross amount as the sample list writes it: one digit, a point, three digits. */
  predicate AmountShape(a: string) {
    |a| == 5 && IsDigit(a[0]) && a[1] == '.' && IsDigit(a[2]) && IsDigit(a[3]) && IsDigit(a[4])
  }

  /** A title with no digit and no point. */
  predicate PlainTitle(t: string) {
    forall k :: 0 <= k < |t| ==> !IsNumberChar(t[k])
  }

  /** A text without the digits 1 and 2. */
  predicate LacksOneAndTwo(t: string) {
    forall k :: 0 <= k < |t| ==> t[k] != '1' && t[k] != '2'
  }

  /** A text too short for four characters holds no year. */
  lemma ShortTextHasNoYear(s: string)
    requires |s| < 4
    ensures FirstYear(s).None?
  {
  }

  lemma {:induction false} SmallNumberIsShort(n: nat)
    requires n < 1000
    ensures |NatToString(n)| < 4
  {
    if n >= 10 {
      SmallNumberIsShort(n / 10);
    }
  }

  /** An integer cell holding a year in 1900..2099 reads back as that year. */
  lemma YearCellIsYear(y: int)
    requires 1900 <= y <= 2099
    ensures YearOfCell(Int(y)) == Some(y)
  {
    var s := NatToString(y);
    var y1, y2, y3 := y / 10, y / 100, y / 1000;
    assert y1 / 10 == y2 && y2 / 10 == y3 && 1 <= y3 <= 2;
    assert s == NatToString(y1) + [DigitChar(y % 10)];
    assert NatToString(y1) == NatToString(y2) + [DigitChar(y1 % 10)];
    assert NatToString(y2) == NatToString(y3) + [DigitChar(y2 % 10)];
    assert NatToString(y3) == [DigitChar(y3)];
    assert s == [DigitChar(y3), DigitChar(y2 % 10), DigitChar(y1 % 10), DigitChar(y % 10)];
    assert |s| == 4;
    assert YearAt(s, 0);
    assert YearValue(s, 0) == y;
    assert FindYear(s, 0) == Some(0);
  }

  /** A text without the digits 1 and 2 holds no year. */
  lemma NoOneOrTwoNoYear(t: string)
    requires LacksOneAndTwo(t)
    ensures FirstYear(t).None? && YearOfCell(Str(t)).None?
  {
  }

  /** "$d.ddd billion" holds no year: no four digits stand together. */
  lemma GrossHasNoYear(a: string)
    requires AmountShape(a)
    ensures FirstYear(BillionsText(a)).None?
  {
    var g := BillionsText(a);
    assert g[0] == '$' && g[2] == '.';
    assert g[6..] == " billion";
    forall k ensures !YearAt(g, k) {
      if 3 <= k && k + 4 <= |g| {
        assert g[k + 3] == " billion"[k - 3];
      }
    }
  }

  /** A value made of digits names no revenue unit. */
  lemma DigitsMentionNoRevenue(t: string)
    requires forall c :: c in t ==> IsDigit(c)
    ensures !MentionsRevenue(t)
  {
    LowerOfLowerCase(t);
    assert 'b' in "billion" && 'g' in "gross" && 'r' in "revenue";
    MissingChar(t, "billion", 'b');
    MissingChar(t, "gross", 'g');
    MissingChar(t, "revenue", 'r');
  }

  /** An integer cell of a small non-negative number gives neither a year nor a revenue. */
  lemma RankCellGivesNothing(n: nat)
    requires n < 1000
    ensures YearOfCell(Int(n)).None? && RevenueOfCell(Int(n)).None?
  {
    SmallNumberIsShort(n);
    ShortTextHasNoYear(NatToString(n));
    DigitsMentionNoRevenue(Unformatted(Int(n)));
  }

  /** A title with no digit and no point gives no revenue. */
  lemma TitleCellHasNoRevenue(t: string)
    requires PlainTitle(t)
    ensures RevenueOfCell(Str(t)).None?
  {
    var u := Unformatted(Str(t));
    forall k | 0 <= k < |u| ensures !IsNumberChar(u[k]) {
      assert u[k] in u;
    }
  }

  /** The gross cell of a sample film gives its amount in billions. */
  lemma GrossCellGivesAmount(a: string)
    requires AmountShape(a)
    ensures YearOfCell(Str(BillionsText(a))).None?
    ensures AllDigits(a[..1]) && AllDigits(a[2..])
    ensures RevenueOfCell(Str(BillionsText(a))) == Some(PointValue(a[..1], a[2..]))
  {
    GrossHasNoYear(a);
    assert a == a[..1] + "." + a[2..];
    assert BillionsText(a) == "$" + a[..1] + "." + a[2..] + " billion";
    BillionsFigure(a[..1], a[2..]);
  }

  /** A sample film's cells, in column order. */
  lemma SampleFilmValues(rank: nat, title: string, amount: string, year: nat, peak: nat)
    ensures Values(SampleFilm(rank, title, amount, year, peak))
            == [Int(rank), Str(title), Str(BillionsText(amount)), Int(year), Int(peak)]
  {
  }

  /** Five cells of which `f` first accepts the one at `k` (below 4) give `f` of that cell. */
  lemma FirstOfFive<B>(vs: seq<Cell>, f: Cell -> Option<B>, k: nat)
    requires |vs| == 5 && k < 4 && f(vs[k]).Some?
    requires f(vs[0]).None? || k == 0
    requires f(vs[1]).None? || k <= 1
    requires f(vs[2]).None? || k <= 2
    ensures FirstSome(vs, f) == f(vs[k])
  {
    FirstSomeAt(vs, f, k);
  }

  /** The year of a sample film is read from its year column, past rank, title and gross. */
  lemma SampleFilmYear(rank: nat, title: string, amount: string, year: nat, peak: nat)
    requires rank < 1000 && LacksOneAndTwo(title) && AmountShape(amount) && 1900 <= year <= 2099
    ensures ExtractYear(SampleFilm(rank, title, amount, year, peak)) == Some(year)
  {
    var vs := Values(SampleFilm(rank, title, amount, year, peak));
    SampleFilmValues(rank, title, amount, year, peak);
    assert vs[0] == Int(rank) && vs[1] == Str(title) && vs[2] == Str(BillionsText(amount)) && vs[3] == Int(year);
    RankCellGivesNothing(rank);
    NoOneOrTwoNoYear(title);
    GrossCellGivesAmount(amount);
    YearCellIsYear(year);
    FirstOfFive(vs, YearOfCell, 3);
  }

  /** The revenue of a sample film is its gross amount, in billions. */
  lemma SampleFilmRevenue(rank: nat, title: string, amount: string, year: nat, peak: nat)
    requires rank < 1000 && PlainTitle(title) && AmountShape(amount)
    ensures ExtractRevenue(SampleFilm(rank, title, amount, year, peak)) == Some(PointValue(amount[..1], amount[2..]))
  {
    var vs := Values(SampleFilm(rank, title, amount, year, peak));
    SampleFilmValues(rank, title, amount, year, peak);
    assert vs[0] == Int(rank) && vs[1] == Str(title) && vs[2] == Str(BillionsText(amount));
    RankCellGivesNothing(rank);
    TitleCellHasNoRevenue(title);
    GrossCellGivesAmount(amount);
    FirstOfFive(vs, RevenueOfCell, 2);
  }

  /** The title of a sample film is its title column, cleaned: "rank" is no title-like column. */
  lemma SampleFilmTitle(rank: nat, title: string, amount: string, year: nat, peak: nat)
    requires '[' !in title && '(' !in title
    requires |title| > 0 && !IsSpace(title[0]) && !IsSpace(title[|title| - 1])
    ensures ExtractTitle(SampleFilm(rank, title, amount, year, peak)) == title
  {
    var row := SampleFilm(rank, title, amount, year, peak);
    assert row[0].0 == "rank" && row[1].0 == "title" && row[1].1 == Str(title);
    LowerOfLowerCase("rank");
    LowerOfLowerCase("title");
    MissingChar("rank", "title", 't');
    MissingChar("rank", "film", 'f');
    MissingChar("rank", "movie", 'm');
    MissingChar("rank", "name", 'm');
    ContainsSelf("title");
    assert !IsTitleColumn(row[0]) && IsTitleColumn(row[1]);
    FindIndexFirst(row, IsTitleColumn);
    CleanTitleUnbracketed(title);
    StripUnspaced(title);
  }

  // ---------------------------------------------------------------- the queries over the sample list

  /** No sample title holds the digit 1 or 2, so none holds a year. */
  lemma SampleTitlesLackOneAndTwo(i: nat)
    requires i < |SampleRows|
    ensures LacksOneAndTwo(SampleRows[i].1)
  {
    if i == 0 {
      assert LacksOneAndTwo("Avatar");
    } else if i == 1 {
      assert LacksOneAndTwo("Avengers: Endgame");
    } else if i == 2 {
      assert LacksOneAndTwo("Avatar: The Way of Water");
    } else if i == 3 {
      assert LacksOneAndTwo("Titanic");
    } else if i == 4 {
      assert LacksOneAndTwo("Star Wars: The Force Awakens");
    } else if i == 5 {
      assert LacksOneAndTwo("Avengers: Infinity War");
    } else if i == 6 {
      assert LacksOneAndTwo("Spider-Man: No Way Home");
    } else if i == 7 {
      assert LacksOneAndTwo("Jurassic World");
    } else if i == 8 {
      assert LacksOneAndTwo("The Lion King");
    } else {
      assert LacksOneAndTwo("The Avengers");
    }
  }

  /** Every sample gross is written "d.ddd". */
  lemma SampleAmountsShaped(i: nat)
    requires i < |SampleRows|
    ensures AmountShape(SampleRows[i].2)
  {
    if i == 0 {
      assert AmountShape("2.923");
    } else if i == 1 {
      assert AmountShape("2.798");
    } else if i == 2 {
      assert AmountShape("2.320");
    } else if i == 3 {
      assert AmountShape("2.257");
    } else if i == 4 {
      assert AmountShape("2.071");
    } else if i == 5 {
      assert AmountShape("2.048");
    } else if i == 6 {
      assert AmountShape("1.921");
    } else if i == 7 {
      assert AmountShape("1.672");
    } else if i == 8 {
      assert AmountShape("1.657");
    } else {
      assert AmountShape("1.519");
    }
  }

  /** Every sample film's year is read back from its year column. */
  lemma SampleYears()
    ensures forall i :: 0 <= i < |SampleFilms()| ==> ExtractYear(SampleFilms()[i]) == Some(SampleRows[i].3)
  {
    var films := SampleFilms();
    SampleRowsInRange();
    forall i | 0 <= i < |films| ensures ExtractYear(films[i]) == Some(SampleRows[i].3) {
      SampleTitlesLackOneAndTwo(i);
      SampleAmountsShaped(i);
      var r := SampleRows[i];
      SampleFilmYear(r.0, r.1, r.2, r.3, r.4);
    }
  }

  /** Titanic, the fourth sample film, is from 1997; every other one is from 2009 or later. */
  lemma TitanicAlone()
    ensures SampleRows[3] == (4, "Titanic", "2.257", 1997, 1)
    ensures forall i :: 0 <= i < |SampleRows| && i != 3 ==> SampleRows[i].3 >= 2009
  {
  }

  /** A sample film whose gross starts with the digit 2 has a revenue of at least 2 (billion). */
  lemma GrossFromTwoBillion(rank: nat, title: string, amount: string, year: nat, peak: nat)
    requires rank < 1000 && PlainTitle(title) && AmountShape(amount) && amount[0] == '2'
    ensures ExtractRevenue(SampleFilm(rank, title, amount, year, peak)).Some?
    ensures ExtractRevenue(SampleFilm(rank, title, amount, year, peak)).value >= 2.0
  {
    SampleFilmRevenue(rank, title, amount, year, peak);
    var w := amount[..1];
    assert DigitsValue(w) == 2 by {
      assert w[..0] == "";
    }
  }

  /** Titanic's gross reads back as a revenue of at least 2 (billion). */
  lemma TitanicGross()
    ensures ExtractRevenue(SampleFilms()[3]).Some?
    ensures ExtractRevenue(SampleFilms()[3]).value >= 2.0
  {
    TitanicAlone();
    assert PlainTitle("Titanic");
    assert AmountShape("2.257");
    GrossFromTwoBillion(4, "Titanic", "2.257", 1997, 1);
  }

  /** Titanic is counted: from 1997, with a gross of at least 2 billion. */
  lemma TitanicQualifies()
    ensures Qualifies(SampleFilms()[3], 2000, 2.0)
  {
    SampleYears();
    TitanicAlone();
    TitanicGross();
  }

  /** No other sample film is counted: each is from 2009 or later. */
  lemma OthersDoNotQualify()
    ensures forall j :: 0 <= j < |SampleFilms()| && j != 3 ==> !Qualifies(SampleFilms()[j], 2000, 2.0)
  {
    SampleYears();
    TitanicAlone();
  }

  /**
    How many sample films from before 2000 grossed at least 2 billion: one, Titanic. The other
    nine are all from 2009 or later.
  */
  lemma SampleCountBefore2000()
    ensures CountQualifying(Frame(SampleFilms()), 2000, 2.0) == 1
  {
    var films := SampleFilms();
    SampleFrame();
    SampleRowsInRange();
    TitanicQualifies();
    OthersDoNotQualify();
    CountWhereOnly(films, row => Qualifies(row, 2000, 2.0), 3);
  }

  /** Titanic's year reads back as 1997, every other sample film's as 2009 or later. */
  lemma TitanicEarliestYear()
    ensures ExtractYear(SampleFilms()[3]) == Some(1997)
    ensures forall j :: 0 <= j < |SampleFilms()| && j != 3 ==>
              ExtractYear(SampleFilms()[j]).Some? && ExtractYear(SampleFilms()[j]).value >= 2009
  {
    SampleYears();
    TitanicAlone();
  }

  /** A candidate row strictly earlier than every other candidate is the one reported. */
  lemma StrictlyEarliestRow(rows: seq<Record>, minGross: real, k: nat)
    requires k < |rows| && Candidate(rows[k], minGross)
    requires forall j :: 0 <= j < |rows| && j != k && Candidate(rows[j], minGross) ==>
               ExtractYear(rows[k]).value < ExtractYear(rows[j]).value
    ensures FirstMinIndex(rows, row => CandidateYear(row, minGross)) == Some(k)
  {
    EarliestRowIsFirstMinimal(rows, minGross);
    var m := FirstMinIndex(rows, row => CandidateYear(row, minGross));
    assert m.Some?;
    assert ExtractYear(rows[m.value]).value <= ExtractYear(rows[k]).value;
  }

  /** Among the sample films grossing at least 1.5 billion, the earliest is the fourth. */
  lemma SampleEarliestRow()
    ensures FirstMinIndex(SampleFilms(), row => CandidateYear(row, 1.5)) == Some(3)
  {
    TitanicEarliestYear();
    TitanicGross();
    StrictlyEarliestRow(SampleFilms(), 1.5, 3);
  }

  lemma TitanicTitle()
    ensures ExtractTitle(SampleFilms()[3]) == "Titanic"
  {
    TitanicAlone();
    SampleFilmTitle(4, "Titanic", "2.257", 1997, 1);
  }

  /** The earliest sample film that grossed at least 1.5 billion is Titanic. */
  lemma SampleEarliestOver1500Million()
    ensures EarliestTitle(SampleFilms(), 1.5) == "Titanic"
  {
    SampleFrame();
    SampleEarliestRow();
    TitanicTitle();
  }
}
