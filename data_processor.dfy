/**
  The data processor: per-row field extractors over a frame row, the three aggregate film
  queries (count, earliest title, chart pairs) and the keyword-answer handlers for database and
  generic tasks. The film queries run over `Frame(data)`, the rows pandas builds from the records.
*/
module DataProcessor {
  import opened Wrappers
  import opened Text
  import opened Sequences
  import opened Patterns
  import opened Records
  import opened TaskData

  // ---------------------------------------------------------------- _extract_year_from_row

  /** A scan over a row's values, stated on the row's fields. */
  lemma FirstSomeOfValues<B>(row: Record, f: Cell -> Option<B>)
    ensures var r := FirstSome(Values(row), f);
      && (r.None? <==> forall i :: 0 <= i < |row| ==> f(row[i].1).None?)
      && (r.Some? ==> exists i :: 0 <= i < |row| && f(row[i].1) == r && forall j :: 0 <= j < i ==> f(row[j].1).None?)
  {
    var vs := Values(row);
    assert forall i :: 0 <= i < |row| ==> vs[i] == row[i].1;
  }

  /** The year token of one non-missing cell, searched in str(value). */
  function YearOfCell(c: Cell): Option<int> {
    if c.Missing? then None else FirstYear(CellText(c))
  }

  /** _extract_year_from_row: the year token of the first cell, in column order, that has one. */
  function ExtractYear(row: Record): (r: Option<int>)
    ensures r.Some? ==> 1900 <= r.value <= 2099
  {
    FirstSome(Values(row), YearOfCell)
  }

  /** No year when no cell has one; otherwise the year of the first cell that has one. */
  lemma ExtractYearIsFirst(row: Record)
    ensures var r := ExtractYear(row);
      && (r.None? <==> forall i :: 0 <= i < |row| ==> YearOfCell(row[i].1).None?)
      && (r.Some? ==> exists i :: 0 <= i < |row| && !row[i].1.Missing? && YearOfCell(row[i].1) == r
                                  && forall j :: 0 <= j < i ==> YearOfCell(row[j].1).None?)
  {
    FirstSomeOfValues(row, YearOfCell);
  }

  // ---------------------------------------------------------------- _extract_revenue_billions

  /** str(value) with every ',' and then every '$' removed. */
  function Unformatted(c: Cell): (t: string)
    ensures ',' !in t && '$' !in t
  {
    Delete(Delete(CellText(c), ','), '$')
  }

  /** The value mentions billion, gross or revenue, in any letter case. */
  predicate MentionsRevenue(t: string) {
    Contains(Lower(t), "billion") || Contains(Lower(t), "gross") || Contains(Lower(t), "revenue")
  }

  /** The unit rule: billions as they are, millions (stated, or numbers above 1000) divided by 1000. */
  function InBillions(t: string, n: real): (r: real)
    ensures r == n || r == n / 1000.0
    ensures 0.0 <= n ==> 0.0 <= r <= n
  {
    if Contains(Lower(t), "billion") then n
    else if Contains(Lower(t), "million") then n / 1000.0
    else if n > 1000.0 then n / 1000.0
    else n
  }

  /**
    The revenue read from one non-missing cell: only a value mentioning revenue is a candidate,
    and its first digits-and-points run must be a valid float.
  */
  function RevenueOfCell(c: Cell): (r: Option<real>)
    ensures r.Some? ==> !c.Missing? && MentionsRevenue(Unformatted(c)) && r.value >= 0.0
    ensures r.Some? <==> !c.Missing? && MentionsRevenue(Unformatted(c))
                         && FirstRun(Unformatted(c), IsNumberChar).Some?
                         && ParseDecimal(FirstRun(Unformatted(c), IsNumberChar).value).Some?
    ensures r.Some? ==>
      var t := Unformatted(c);
      var n := ParseDecimal(FirstRun(t, IsNumberChar).value).value;
      && (Contains(Lower(t), "billion") ==> r.value == n)
      && (!Contains(Lower(t), "billion") && Contains(Lower(t), "million") ==> r.value == n / 1000.0)
      && (!Contains(Lower(t), "billion") && !Contains(Lower(t), "million") && n > 1000.0 ==> r.value == n / 1000.0)
      && (!Contains(Lower(t), "billion") && !Contains(Lower(t), "million") && n <= 1000.0 ==> r.value == n)
  {
    if c.Missing? then None
    else
      var t := Unformatted(c);
      if !MentionsRevenue(t) then None
      else match FirstRun(t, IsNumberChar)
        case None => None
        case Some(run) =>
          match ParseDecimal(run)
          case None => None
          case Some(n) => Some(InBillions(t, n))
  }

  /** _extract_revenue_billions: the revenue of the first cell, in column order, that yields one. */
  function ExtractRevenue(row: Record): (r: Option<real>)
    ensures r.Some? ==> r.value >= 0.0
  {
    FirstSome(Values(row), RevenueOfCell)
  }

  /** No revenue when no cell has one; otherwise the revenue of the first cell that has one. */
  lemma ExtractRevenueIsFirst(row: Record)
    ensures var r := ExtractRevenue(row);
      && (r.None? <==> forall i :: 0 <= i < |row| ==> RevenueOfCell(row[i].1).None?)
      && (r.Some? ==> exists i :: 0 <= i < |row| && RevenueOfCell(row[i].1) == r
                                  && forall j :: 0 <= j < i ==> RevenueOfCell(row[j].1).None?)
  {
    FirstSomeOfValues(row, RevenueOfCell);
  }

  /** A text cell "$<whole>.<fraction> billion" is read as that decimal number of billions. */
  lemma BillionsFigure(whole: string, fraction: string)
    requires AllDigits(whole) && AllDigits(fraction) && |whole| + |fraction| > 0
    ensures RevenueOfCell(Str("$" + whole + "." + fraction + " billion")) == Some(PointValue(whole, fraction))
  {
    var amount := whole + "." + fraction;
    assert "$" + whole + "." + fraction + " billion" == "$" + amount + " billion";
    PointNumberChars(whole, fraction);
    ParseDecimalPoint(whole, fraction);
    BillionsAmount(amount);
  }

  lemma PointNumberChars(whole: string, fraction: string)
    requires AllDigits(whole) && AllDigits(fraction)
    ensures forall c :: c in whole + "." + fraction ==> IsNumberChar(c)
  {
  }

  /** A text cell "$<amount> billion", the amount made of digits and points, is read as the amount. */
  lemma BillionsAmount(amount: string)
    requires |amount| > 0 && forall c :: c in amount ==> IsNumberChar(c)
    ensures RevenueOfCell(Str("$" + amount + " billion")) == ParseDecimal(amount)
  {
    BillionsUnformatted(amount);
    BillionsRun(amount);
    BillionsMentioned(amount);
  }

  /** The number run of "<amount> billion" is the amount. */
  lemma BillionsRun(amount: string)
    requires |amount| > 0 && forall c :: c in amount ==> IsNumberChar(c)
    ensures FirstRun(amount + " billion", IsNumberChar) == Some(amount)
  {
    var t := amount + " billion";
    var L := |amount|;
    assert t[..L] == amount && t[L] == ' ';
    assert forall k :: 0 <= k < L ==> IsNumberChar(t[k]) by {
      forall k | 0 <= k < L ensures IsNumberChar(t[k]) { assert t[k] == amount[k] && amount[k] in amount; }
    }
    assert IsNumberChar(t[0]);
    FindIndexFirst(t, IsNumberChar);
    assert RunEnd(t, IsNumberChar, 0) == L;
  }

  /** "<amount> billion" names its unit, in lower case already. */
  lemma BillionsMentioned(amount: string)
    requires forall c :: c in amount ==> IsNumberChar(c)
    ensures Contains(Lower(amount + " billion"), "billion")
  {
    var t := amount + " billion";
    var L := |amount|;
    LowerOfLowerCase(amount);
    assert Lower(" billion") == " billion";
    LowerConcat(amount, " billion");
    assert t[L..] == " billion";
    assert t[L + 1..L + 8] == " billion"[1..];
    assert OccursAt(t, "billion", L + 1);
    OccursContains(t, "billion", L + 1);
  }

  /** Deleting `,` and `$` from "$<amount> billion" leaves "<amount> billion". */
  lemma BillionsUnformatted(amount: string)
    requires forall c :: c in amount ==> IsNumberChar(c)
    ensures Unformatted(Str("$" + amount + " billion")) == amount + " billion"
  {
    var rest, suffix := amount + " billion", " billion";
    assert forall k :: 0 <= k < |suffix| ==> suffix[k] != ',' && suffix[k] != '$';
    forall k | 0 <= k < |rest| ensures rest[k] != ',' && rest[k] != '$' {
      if k < |amount| {
        assert rest[k] == amount[k] && amount[k] in amount;
      } else {
        assert rest[k] == suffix[k - |amount|];
      }
    }
    assert "$" + amount + " billion" == "$" + rest;
    DeleteAbsent("$" + rest, ',');
    DeleteConcat("$", rest, '$');
    assert Delete("$", '$') == "";
    DeleteAbsent(rest, '$');
  }

  lemma SampleGrossValue()
    ensures PointValue("2", "923") == 2.923
  {
    assert DigitsValue("2") == 2 by { assert "2"[..0] == ""; }
    assert DigitsValue("923") == 923 by { assert "923"[..2] == "92" && "92"[..1] == "9" && "9"[..0] == ""; }
    assert Pow10(3) == 1000;
  }

  /** The sample gross "$2.923 billion" is read as 2.923 billions. */
  lemma SampleGrossRevenue()
    ensures RevenueOfCell(Str("$2.923 billion")) == Some(2.923)
  {
    assert "$2.923 billion" == "$" + "2" + "." + "923" + " billion";
    BillionsFigure("2", "923");
    SampleGrossValue();
  }

  // ---------------------------------------------------------------- _extract_title_from_row

  /** The lower-cased column name contains title, film, movie or name. */
  predicate IsTitleColumn(field: (string, Cell)) {
    var n := Lower(field.0);
    Contains(n, "title") || Contains(n, "film") || Contains(n, "movie") || Contains(n, "name")
  }

  /** A str value longer than three characters. */
  predicate IsLongText(field: (string, Cell)) {
    field.1.Str? && |field.1.s| > 3
  }

  /**
    _extract_title_from_row: the cleaned value of the first title-like column; failing that, the
    first long text value cut to 50 characters; failing that, "Unknown".
  */
  function ExtractTitle(row: Record): (title: string)
    ensures FindIndex(row, IsTitleColumn, 0).Some? && |title| > 0 ==> !IsSpace(title[0]) && !IsSpace(title[|title| - 1])
    ensures FindIndex(row, IsTitleColumn, 0).None? ==> 0 < |title| <= 50
  {
    var t := FindIndex(row, IsTitleColumn, 0);
    if t.Some? then CleanTitle(CellText(row[t.value].1))
    else
      var l := FindIndex(row, IsLongText, 0);
      if l.Some? then
        var s := row[l.value].1.s;
        s[..if |s| < 50 then |s| else 50]
      else "Unknown"
  }

  /** Which column the title comes from, case by case. */
  lemma ExtractTitleRule(row: Record)
    ensures forall i :: 0 <= i < |row| && IsTitleColumn(row[i]) && (forall j :: 0 <= j < i ==> !IsTitleColumn(row[j]))
              ==> ExtractTitle(row) == CleanTitle(CellText(row[i].1))
    ensures (forall j :: 0 <= j < |row| ==> !IsTitleColumn(row[j])) ==>
              forall i :: 0 <= i < |row| && IsLongText(row[i]) && (forall j :: 0 <= j < i ==> !IsLongText(row[j]))
                ==> ExtractTitle(row) == row[i].1.s[..if |row[i].1.s| < 50 then |row[i].1.s| else 50]
    ensures (forall j :: 0 <= j < |row| ==> !IsTitleColumn(row[j]) && !IsLongText(row[j])) ==> ExtractTitle(row) == "Unknown"
  {
    FindIndexFirst(row, IsTitleColumn);
    FindIndexFirst(row, IsLongText);
  }

  // ---------------------------------------------------------------- _find_column

  predicate SameName(col: string, target: string) {
    Lower(col) == Lower(target)
  }

  predicate Overlaps(col: string, target: string) {
    Contains(Lower(col), Lower(target)) || Contains(Lower(target), Lower(col))
  }

  lemma ContainsSelf(s: string)
    ensures Contains(s, s)
  {
    ContainsIff(s, s);
    assert OccursAt(s, s, 0);
  }

  /**
    _find_column: the first column equal to the target ignoring case; only when there is none,
    the first column in which either lower-cased name contains the other.
  */
  function FindColumn(cols: seq<string>, target: string): (r: Option<string>)
    ensures (exists i :: 0 <= i < |cols| && SameName(cols[i], target)) ==>
              exists i :: 0 <= i < |cols| && SameName(cols[i], target) && r == Some(cols[i])
                          && forall j :: 0 <= j < i ==> !SameName(cols[j], target)
    ensures (forall i :: 0 <= i < |cols| ==> !SameName(cols[i], target)) ==>
              (r.Some? <==> exists i :: 0 <= i < |cols| && Overlaps(cols[i], target))
    ensures (forall i :: 0 <= i < |cols| ==> !SameName(cols[i], target)) && r.Some? ==>
              exists i :: 0 <= i < |cols| && Overlaps(cols[i], target) && r == Some(cols[i])
                          && forall j :: 0 <= j < i ==> !Overlaps(cols[j], target)
  {
    match FindIndex(cols, c => SameName(c, target), 0)
    case Some(i) => Some(cols[i])
    case None =>
      match FindIndex(cols, c => Overlaps(c, target), 0)
      case Some(i) => Some(cols[i])
      case None => None
  }

  /** A column found is one the frame has, and it resolves every target that names it exactly. */
  lemma FindColumnFound(cols: seq<string>, target: string)
    ensures FindColumn(cols, target).Some? ==> FindColumn(cols, target).value in cols
    ensures FindColumn(cols, target).None? <==> forall i :: 0 <= i < |cols| ==> !Overlaps(cols[i], target)
  {
    forall i | 0 <= i < |cols| && SameName(cols[i], target) ensures Overlaps(cols[i], target) {
      ContainsSelf(Lower(cols[i]));
    }
  }

  // ---------------------------------------------------------------- count_films_before_year

  /**
    The row test of the count: a year and a revenue were found, the revenue is truthy (not 0.0),
    the year is before the cutoff and the revenue reaches the minimum. A found year is always
    truthy, being at least 1900.
  */
  predicate Qualifies(row: Record, year: int, minGross: real)
    ensures Qualifies(row, year, minGross) <==> Candidate(row, minGross) && ExtractYear(row).value < year
  {
    var y, r := ExtractYear(row), ExtractRevenue(row);
    y.Some? && r.Some? && r.value != 0.0 && y.value < year && r.value >= minGross
  }

  /** The number of rows that qualify. */
  function CountQualifying(rows: seq<Record>, year: int, minGross: real): nat {
    CountWhere(rows, row => Qualifies(row, year, minGross))
  }

  /** count_films_before_year */
  method CountFilmsBeforeYear(data: seq<Record>, year: int, minGross: real) returns (count: nat)
    ensures count == CountQualifying(Frame(data), year, minGross)
  {
    if |data| == 0 {
      return 0;
    }
    var rows := Frame(data);
    ghost var p := row => Qualifies(row, year, minGross);
    count := 0;
    var i := 0;
    while i < |rows|
      invariant 0 <= i <= |rows|
      invariant count == CountWhere(rows[..i], p)
    {
      CountWhereStep(rows, p, i);
      if Qualifies(rows[i], year, minGross) {
        count := count + 1;
      }
      i := i + 1;
    }
    assert rows[..i] == rows;
  }

  /** The count never exceeds the number of rows, and is zero exactly when no row qualifies. */
  lemma CountBounds(rows: seq<Record>, year: int, minGross: real)
    ensures CountQualifying(rows, year, minGross) <= |rows|
    ensures CountQualifying(rows, year, minGross) == 0 <==> forall i :: 0 <= i < |rows| ==> !Qualifies(rows[i], year, minGross)
  {
    CountWhereBounds(rows, row => Qualifies(row, year, minGross));
  }

  /** No records, no count; in general at most one per record. */
  lemma CountOfData(data: seq<Record>, year: int, minGross: real)
    ensures CountQualifying(Frame(data), year, minGross) <= |data|
    ensures |data| == 0 ==> CountQualifying(Frame(data), year, minGross) == 0
  {
    CountBounds(Frame(data), year, minGross);
  }

  /** A later cutoff year or a lower minimum revenue never lowers the count. */
  lemma CountMonotone(rows: seq<Record>, year: int, year': int, minGross: real, minGross': real)
    requires year <= year' && minGross' <= minGross
    ensures CountQualifying(rows, year, minGross) <= CountQualifying(rows, year', minGross')
  {
    CountWhereMonotone(rows, row => Qualifies(row, year, minGross), row => Qualifies(row, year', minGross'));
  }

  /** A revenue of exactly 0.0 is falsy: such a row never counts, whatever the thresholds. */
  lemma ZeroRevenueNeverCounts(row: Record, year: int, minGross: real)
    requires ExtractRevenue(row) == Some(0.0)
    ensures !Qualifies(row, year, minGross)
  {
  }

  // ---------------------------------------------------------------- find_earliest_film_over_amount

  /** The row test of the earliest-film query: a year, and a truthy revenue reaching the minimum. */
  predicate Candidate(row: Record, minGross: real)
    ensures Candidate(row, minGross) ==>
              ExtractYear(row).Some? && ExtractRevenue(row).Some? && ExtractRevenue(row).value > 0.0 && ExtractRevenue(row).value >= minGross
  {
    var y, r := ExtractYear(row), ExtractRevenue(row);
    y.Some? && r.Some? && r.value != 0.0 && r.value >= minGross
  }

  /** The year a candidate row competes with; None for other rows. */
  function CandidateYear(row: Record, minGross: real): Option<int> {
    if Candidate(row, minGross) then ExtractYear(row) else None
  }

  /** The title find_earliest_film_over_amount returns. */
  function EarliestTitle(data: seq<Record>, minGross: real): (title: string)
    ensures title != ""
    ensures |data| == 0 ==> title == "No data available"
  {
    if |data| == 0 then "No data available"
    else
      var rows := Frame(data);
      match FirstMinIndex(rows, row => CandidateYear(row, minGross))
      case None => "Unknown"
      case Some(i) => if ExtractTitle(rows[i]) == "" then "Unknown" else ExtractTitle(rows[i])
  }

  /** One pass of the row loop of find_earliest_film_over_amount: does this row replace the earliest so far? */
  method ConsiderRow(row: Record, minGross: real, earliestYear: Option<int>)
    returns (taken: bool, year: Option<int>)
    ensures var k := CandidateYear(row, minGross);
      taken == (k.Some? && (earliestYear.None? || k.value < earliestYear.value))
    ensures year == if taken then CandidateYear(row, minGross) else earliestYear
  {
    var filmYear := ExtractYear(row);
    var revenue := ExtractRevenue(row);
    var qualifies := filmYear.Some? && revenue.Some? && revenue.value != 0.0 && revenue.value >= minGross;
    assert Candidate(row, minGross) == qualifies;
    taken := false;
    year := earliestYear;
    if qualifies {
      if earliestYear.None? || filmYear.value < earliestYear.value {
        taken := true;
        year := filmYear;
      }
    }
  }

  /** find_earliest_film_over_amount */
  method FindEarliestFilmOverAmount(data: seq<Record>, minGross: real) returns (title: string)
    ensures title == EarliestTitle(data, minGross)
  {
    if |data| == 0 {
      return "No data available";
    }
    var rows := Frame(data);
    ghost var key := row => CandidateYear(row, minGross);
    var earliestYear: Option<int> := None;
    var earliestTitle := "Unknown";
    ghost var best: Option<nat> := None;
    var i := 0;
    while i < |rows|
      invariant 0 <= i <= |rows|
      invariant best == FirstMinIndex(rows[..i], key)
      invariant best.None? ==> earliestYear.None? && earliestTitle == "Unknown"
      invariant best.Some? ==> best.value < i && earliestYear == key(rows[best.value])
                               && earliestTitle == ExtractTitle(rows[best.value])
    {
      FirstMinIndexStep(rows, key, i);
      assert key(rows[i]) == CandidateYear(rows[i], minGross);
      var taken, year := ConsiderRow(rows[i], minGross, earliestYear);
      assert taken <==> key(rows[i]).Some? && (best.None? || key(rows[i]).value < key(rows[best.value]).value);
      if taken {
        earliestYear := year;
        earliestTitle := ExtractTitle(rows[i]);
        best := Some(i);
      }
      assert best == FirstMinIndex(rows[..i + 1], key);
      i := i + 1;
    }
    assert rows[..i] == rows;
    assert best == FirstMinIndex(rows, key);
    title := if earliestTitle == "" then "Unknown" else earliestTitle;
  }

  /**
    The row whose title is reported: a qualifying row of least year, the first such row when
    several share it; none when no row qualifies.
  */
  lemma {:induction false} EarliestRowIsFirstMinimal(rows: seq<Record>, minGross: real)
    ensures var m := FirstMinIndex(rows, row => CandidateYear(row, minGross));
      && (m.None? <==> forall i :: 0 <= i < |rows| ==> !Candidate(rows[i], minGross))
      && (m.Some? ==> m.value < |rows| && Candidate(rows[m.value], minGross))
      && (m.Some? ==> forall j :: 0 <= j < |rows| && Candidate(rows[j], minGross) ==>
                        ExtractYear(rows[m.value]).value <= ExtractYear(rows[j]).value)
      && (m.Some? ==> forall j :: 0 <= j < m.value && Candidate(rows[j], minGross) ==>
                        ExtractYear(rows[m.value]).value < ExtractYear(rows[j]).value)
  {
    var key := row => CandidateYear(row, minGross);
    FirstMinIndexIsFirstMinimal(rows, key);
    forall i | 0 <= i < |rows|
      ensures key(rows[i]).Some? <==> Candidate(rows[i], minGross)
      ensures key(rows[i]).Some? ==> key(rows[i]) == ExtractYear(rows[i])
    {
    }
  }

  // ---------------------------------------------------------------- prepare_chart_data

  /** pd.to_numeric(value, errors='coerce'), None for NaN. */
  function NumericValue(c: Cell): (r: Option<real>)
    ensures c.Missing? ==> r.None?
    ensures c.Str? && |c.s| > 0 && AllDigits(c.s) ==> r == Some(DigitsValue(c.s) as real)
  {
    match c
    case Int(n) => Some(n as real)
    case Str(s) => ParseNumeric(s)
    case Missing => None
  }

  /** The decimal text of a natural number parses back to it, with or without a sign in front. */
  lemma ParseNatText(m: nat)
    ensures ParseNumeric(NatToString(m)) == Some(m as real)
    ensures ParseDecimal(NatToString(m)) == Some(m as real)
  {
    var t := NatToString(m);
    DigitsValueOfNat(m);
    assert t[0] in t;
  }

  /** The text of a negative integer, a minus sign before the digits, parses back to it. */
  lemma ParseNegatedNatText(m: nat)
    ensures ParseNumeric("-" + NatToString(m)) == Some(-(m as real))
  {
    var t := NatToString(m);
    ParseNatText(m);
    var s := "-" + t;
    assert s[0] == '-' && s[1..] == t;
    assert forall c :: c in t ==> IsNumberChar(c);
  }

  /** An integer cell and its decimal text give the same number. */
  lemma NumericOfInteger(n: int)
    ensures NumericValue(Int(n)) == NumericValue(Str(IntToString(n)))
  {
    if n < 0 {
      ParseNegatedNatText(-n);
    } else {
      ParseNatText(n);
    }
  }

  /** A chart point: the dict {x_col: x, y_col: y}. */
  type Point = seq<(string, real)>

  /** The dict literal {xCol: x, yCol: y}; with equal names the second entry overwrites the first. */
  function PointOf(xCol: string, yCol: string, x: real, y: real): (p: Point)
    ensures xCol != yCol ==> |p| == 2 && p[0] == (xCol, x) && p[1] == (yCol, y)
    ensures xCol == yCol ==> p == [(yCol, y)]
  {
    if xCol == yCol then [(yCol, y)] else [(xCol, x), (yCol, y)]
  }

  /** The point one row contributes, if both its matched cells are numeric. */
  function RowPoint(row: Record, xMatch: string, yMatch: string, xCol: string, yCol: string): Option<Point> {
    var x, y := NumericValue(CellAt(row, xMatch)), NumericValue(CellAt(row, yMatch));
    if x.Some? && y.Some? then Some(PointOf(xCol, yCol, x.value, y.value)) else None
  }

  /** Both requested columns resolve to frame columns with a truthy (non-empty) name. */
  function ChartColumns(data: seq<Record>, xCol: string, yCol: string): Option<(string, string)> {
    var cols := Columns(data);
    var xm, ym := FindColumn(cols, xCol), FindColumn(cols, yCol);
    if xm.Some? && ym.Some? && xm.value != "" && ym.value != "" then Some((xm.value, ym.value)) else None
  }

  /** The points prepare_chart_data returns. */
  function ChartPoints(data: seq<Record>, xCol: string, yCol: string): (points: seq<Point>)
    ensures |points| <= |data|
    ensures ChartColumns(data, xCol, yCol).None? ==> points == []
  {
    if |data| == 0 then []
    else match ChartColumns(data, xCol, yCol)
      case None => []
      case Some((xm, ym)) =>
        FilterMapLength(Frame(data), row => RowPoint(row, xm, ym, xCol, yCol));
        FilterMap(Frame(data), row => RowPoint(row, xm, ym, xCol, yCol))
  }

  /** The row loop of prepare_chart_data, once both columns are resolved. */
  method CollectPoints(rows: seq<Record>, xm: string, ym: string, xCol: string, yCol: string) returns (chart: seq<Point>)
    ensures chart == FilterMap(rows, row => RowPoint(row, xm, ym, xCol, yCol))
  {
    ghost var f := row => RowPoint(row, xm, ym, xCol, yCol);
    chart := [];
    var i := 0;
    while i < |rows|
      invariant 0 <= i <= |rows|
      invariant chart == FilterMap(rows[..i], f)
    {
      FilterMapSnoc(rows[..i], rows[i], f);
      assert rows[..i + 1] == rows[..i] + [rows[i]];
      var xVal := NumericValue(CellAt(rows[i], xm));
      var yVal := NumericValue(CellAt(rows[i], ym));
      if xVal.Some? && yVal.Some? {
        chart := chart + [PointOf(xCol, yCol, xVal.value, yVal.value)];
      }
      i := i + 1;
    }
    assert rows[..i] == rows;
  }

  /** prepare_chart_data */
  method PrepareChartData(data: seq<Record>, xCol: string, yCol: string) returns (chart: seq<Point>)
    ensures chart == ChartPoints(data, xCol, yCol)
  {
    if |data| == 0 {
      return [];
    }
    var cols := Columns(data);
    var xMatch := FindColumn(cols, xCol);
    var yMatch := FindColumn(cols, yCol);
    if xMatch.None? || yMatch.None? || xMatch.value == "" || yMatch.value == "" {
      return [];
    }
    chart := CollectPoints(Frame(data), xMatch.value, yMatch.value, xCol, yCol);
  }

  /**
    `chart` lists, in row order, one point per row whose two matched values are numeric, keyed
    by the requested names: `idx` picks those rows.
  */
  predicate PicksNumericRows(chart: seq<Point>, rows: seq<Record>, xm: string, ym: string, xCol: string, yCol: string, idx: seq<nat>) {
    && |idx| == |chart| && StrictlyIncreasing(idx)
    && (forall k :: 0 <= k < |idx| ==> idx[k] < |rows|)
    && (forall k :: 0 <= k < |idx| ==>
          var x, y := NumericValue(CellAt(rows[idx[k]], xm)), NumericValue(CellAt(rows[idx[k]], ym));
          x.Some? && y.Some? && chart[k] == PointOf(xCol, yCol, x.value, y.value))
    && (forall i :: 0 <= i < |rows| && NumericValue(CellAt(rows[i], xm)).Some? && NumericValue(CellAt(rows[i], ym)).Some?
          ==> i in idx)
  }

  /** Over the frame rows, the collected points pick exactly the rows with two numeric values. */
  lemma RowPointsAreOrderedSubsequence(rows: seq<Record>, xm: string, ym: string, xCol: string, yCol: string)
    ensures PicksNumericRows(FilterMap(rows, row => RowPoint(row, xm, ym, xCol, yCol)), rows, xm, ym, xCol, yCol,
                             Kept(rows, row => RowPoint(row, xm, ym, xCol, yCol)))
  {
    var f := row => RowPoint(row, xm, ym, xCol, yCol);
    FilterMapKeeps(rows, f);
  }

  /**
    The chart is empty when a column is unresolved; otherwise it is the subsequence, in record
    order, of the frame rows whose two matched values are numeric, each keyed by the requested
    names. A frame row holds the record's own values (FrameCellAt).
  */
  lemma ChartIsOrderedSubsequence(data: seq<Record>, xCol: string, yCol: string)
    ensures ChartColumns(data, xCol, yCol).Some? ==>
      exists idx :: PicksNumericRows(ChartPoints(data, xCol, yCol), Frame(data),
                                     ChartColumns(data, xCol, yCol).value.0, ChartColumns(data, xCol, yCol).value.1, xCol, yCol, idx)
  {
    if |data| > 0 && ChartColumns(data, xCol, yCol).Some? {
      var (xm, ym) := ChartColumns(data, xCol, yCol).value;
      var f := row => RowPoint(row, xm, ym, xCol, yCol);
      RowPointsAreOrderedSubsequence(Frame(data), xm, ym, xCol, yCol);
      assert PicksNumericRows(ChartPoints(data, xCol, yCol), Frame(data), xm, ym, xCol, yCol, Kept(Frame(data), f));
    }
  }

  // ---------------------------------------------------------------- calculate_correlation (guards)

  /**
    calculate_correlation with the Pearson coefficient left uninterpreted: 0.0 without records
    or when either column is unresolved, else `coefficient` (the rounded correlation, 0.0 for NaN).
  */
  function Correlation(data: seq<Record>, col1: string, col2: string, coefficient: real): (r: real)
    ensures |data| == 0 ==> r == 0.0
    ensures (FindColumn(Columns(data), col1).None? || FindColumn(Columns(data), col2).None?) ==> r == 0.0
  {
    if |data| == 0 then 0.0
    else
      var cols := Columns(data);
      var x, y := FindColumn(cols, col1), FindColumn(cols, col2);
      if x.None? || y.None? || x.value == "" || y.value == "" then 0.0 else coefficient
  }

  // ---------------------------------------------------------------- keyword handlers

  /** The 1x1 PNG data URI both handlers return for plot questions. */
  const PlotUri: string := "data:image/png;base64,iVBORw0KGgoAAAANSUhEUgAAAAEAAAABCAYAAAAfFcSJAAAADUlEQVR42mNk+M9QDwADhgGAWjR9awAAAABJRU5ErkJggg=="

  const DatabaseRules: seq<Rule> := [
    Rule(["count"], AInt(42)),
    Rule(["regression"], AReal(0.75)),
    Rule(["plot"], AStr(PlotUri))
  ]

  const GenericRules: seq<Rule> := [
    Rule(["how many"], AInt(1)),
    Rule(["which", "what"], AStr("Sample answer")),
    Rule(["correlation"], AReal(0.5)),
    Rule(["plot", "chart"], AStr(PlotUri))
  ]

  function DatabaseAnswer(q: string): Answer {
    FirstRule(DatabaseRules, q, AStr("Database analysis result"))
  }

  function GenericAnswer(q: string): Answer {
    FirstRule(GenericRules, q, AStr("Analysis result"))
  }

  /** task_data.get("questions", []) */
  function Questions(task: seq<(string, Json)>): Json {
    Lookup(task, "questions", JArr([]))
  }

  /** One answer per lower-cased question, or the handler's error list when iterating or lower-casing raises. */
  function AnswerAll(questions: Json, answer: string -> Answer, failure: string): seq<Answer> {
    match Iterate(questions)
    case Err(_) => [AStr(failure)]
    case Ok(qs) =>
      match LowerAll(qs)
      case Err(_) => [AStr(failure)]
      case Ok(ls) => seq(|ls|, i requires 0 <= i < |ls| => answer(ls[i]))
  }

  /** Iterable questions that are all text get one answer each, in order; otherwise the error list. */
  lemma AnswerAllAnswersEach(questions: Json, answer: string -> Answer, failure: string)
    ensures var it := Iterate(questions);
      && (it.Ok? && (forall i :: 0 <= i < |it.value| ==> it.value[i].JStr?) ==>
            |AnswerAll(questions, answer, failure)| == |it.value|
            && forall i :: 0 <= i < |it.value| ==> AnswerAll(questions, answer, failure)[i] == answer(Lower(it.value[i].s)))
      && (it.Err? || (exists i :: 0 <= i < |it.value| && !it.value[i].JStr?) ==>
            AnswerAll(questions, answer, failure) == [AStr(failure)])
  {
    if Iterate(questions).Ok? {
      LowerAllLowersEach(Iterate(questions).value);
    }
  }

  function DatabaseResults(task: seq<(string, Json)>): seq<Answer> {
    AnswerAll(Questions(task), DatabaseAnswer, "Database processing error")
  }

  function GenericResults(task: seq<(string, Json)>): seq<Answer> {
    if !JsonTruthy(Questions(task)) then [AStr("Generic analysis completed")]
    else AnswerAll(Questions(task), GenericAnswer, "Generic processing error")
  }

  /** The loop both handlers share: lower-case each question and append its answer. */
  method AnswerEach(questions: Json, answer: string -> Answer, failure: string) returns (results: seq<Answer>)
    ensures results == AnswerAll(questions, answer, failure)
  {
    var it := Iterate(questions);
    if it.Err? {
      return [AStr(failure)];
    }
    var qs := it.value;
    results := [];
    var i := 0;
    while i < |qs|
      invariant 0 <= i <= |qs|
      invariant LowerAll(qs[..i]).Ok?
      invariant |results| == i && forall k :: 0 <= k < i ==> results[k] == answer(LowerAll(qs[..i]).value[k])
    {
      LowerAllStep(qs, i);
      var lowered := LowerOf(qs[i]);
      if lowered.Err? {
        LowerAllLowersEach(qs);
        return [AStr(failure)];
      }
      results := results + [answer(lowered.value)];
      i := i + 1;
    }
    assert qs[..i] == qs;
  }

  /** process_database_task */
  method ProcessDatabaseTask(task: seq<(string, Json)>) returns (results: seq<Answer>)
    ensures results == DatabaseResults(task)
  {
    results := AnswerEach(Questions(task), DatabaseAnswer, "Database processing error");
  }

  /** process_generic_task */
  method ProcessGenericTask(task: seq<(string, Json)>) returns (results: seq<Answer>)
    ensures results == GenericResults(task)
  {
    var questions := Questions(task);
    if !JsonTruthy(questions) {
      return [AStr("Generic analysis completed")];
    }
    results := AnswerEach(questions, GenericAnswer, "Generic processing error");
  }

  /** The database keywords are tried in the order count, regression, plot, and the first one present decides. */
  lemma DatabaseRuleOrder(q: string)
    ensures Contains(q, "count") ==> DatabaseAnswer(q) == AInt(42)
    ensures !Contains(q, "count") && Contains(q, "regression") ==> DatabaseAnswer(q) == AReal(0.75)
    ensures !Contains(q, "count") && !Contains(q, "regression") && Contains(q, "plot") ==> DatabaseAnswer(q) == AStr(PlotUri)
    ensures !Contains(q, "count") && !Contains(q, "regression") && !Contains(q, "plot") ==>
              DatabaseAnswer(q) == AStr("Database analysis result")
  {
    assert Fires(DatabaseRules[0], q) <==> Contains(q, "count") by { assert DatabaseRules[0].keywords[0] == "count"; }
    assert Fires(DatabaseRules[1], q) <==> Contains(q, "regression") by { assert DatabaseRules[1].keywords[0] == "regression"; }
    assert Fires(DatabaseRules[2], q) <==> Contains(q, "plot") by { assert DatabaseRules[2].keywords[0] == "plot"; }
  }

  /**
    The generic keywords are tried in the order "how many", which/what, correlation, plot/chart,
    and the first one present decides.
  */
  lemma GenericRuleOrder(q: string)
    ensures Contains(q, "how many") ==> GenericAnswer(q) == AInt(1)
    ensures !Contains(q, "how many") && (Contains(q, "which") || Contains(q, "what")) ==> GenericAnswer(q) == AStr("Sample answer")
    ensures !Contains(q, "how many") && !Contains(q, "which") && !Contains(q, "what") && Contains(q, "correlation") ==>
              GenericAnswer(q) == AReal(0.5)
    ensures (!Contains(q, "how many") && !Contains(q, "which") && !Contains(q, "what") && !Contains(q, "correlation")
             && (Contains(q, "plot") || Contains(q, "chart"))) ==> GenericAnswer(q) == AStr(PlotUri)
    ensures (!Contains(q, "how many") && !Contains(q, "which") && !Contains(q, "what") && !Contains(q, "correlation")
             && !Contains(q, "plot") && !Contains(q, "chart")) ==> GenericAnswer(q) == AStr("Analysis result")
  {
    assert Fires(GenericRules[0], q) <==> Contains(q, "how many") by { assert GenericRules[0].keywords[0] == "how many"; }
    assert Fires(GenericRules[1], q) <==> Contains(q, "which") || Contains(q, "what") by {
      assert GenericRules[1].keywords[0] == "which" && GenericRules[1].keywords[1] == "what";
    }
    assert Fires(GenericRules[2], q) <==> Contains(q, "correlation") by { assert GenericRules[2].keywords[0] == "correlation"; }
    assert Fires(GenericRules[3], q) <==> Contains(q, "plot") || Contains(q, "chart") by {
      assert GenericRules[3].keywords[0] == "plot" && GenericRules[3].keywords[1] == "chart";
    }
  }

  lemma WhatCorrelationLowered()
    ensures Lower("What is the correlation?") == "what is the correlation?"
  {
  }

  lemma WhatCorrelationKeywords()
    ensures Contains("what is the correlation?", "what") && !Contains("what is the correlation?", "how many")
  {
    assert OccursAt("what is the correlation?", "what", 0);
    OccursContains("what is the correlation?", "what", 0);
    MissingChar("what is the correlation?", "how many", 'y');
  }

  /** A question asking "what" about a correlation is answered by the which/what rule, which comes first. */
  lemma WhatCorrelationExample()
    ensures GenericAnswer(Lower("What is the correlation?")) == AStr("Sample answer")
  {
    WhatCorrelationLowered();
    WhatCorrelationKeywords();
    GenericRuleOrder("what is the correlation?");
  }

  /**
    A task whose questions are missing, empty or otherwise falsy gets the generic handler's fixed
    completion message; the database handler gives an empty list for a missing or empty list.
  */
  lemma GenericWithoutQuestions(task: seq<(string, Json)>)
    ensures (forall i :: 0 <= i < |task| ==> task[i].0 != "questions") ==> Questions(task) == JArr([])
    ensures !JsonTruthy(Questions(task)) ==> GenericResults(task) == [AStr("Generic analysis completed")]
    ensures Questions(task) == JArr([]) ==> DatabaseResults(task) == []
  {
    LookupFirst(task, "questions", JArr([]));
  }

  /** With a list of text questions, each handler answers every question, in order, by its rule chain. */
  lemma HandlersAnswerEachQuestion(task: seq<(string, Json)>, qs: seq<Json>)
    requires Questions(task) == JArr(qs) && forall i :: 0 <= i < |qs| ==> qs[i].JStr?
    ensures |DatabaseResults(task)| == |qs| && forall i :: 0 <= i < |qs| ==> DatabaseResults(task)[i] == DatabaseAnswer(Lower(qs[i].s))
    ensures |qs| > 0 ==> |GenericResults(task)| == |qs| && forall i :: 0 <= i < |qs| ==> GenericResults(task)[i] == GenericAnswer(Lower(qs[i].s))
  {
    AnswerAllAnswersEach(JArr(qs), DatabaseAnswer, "Database processing error");
    AnswerAllAnswersEach(JArr(qs), GenericAnswer, "Generic processing error");
  }

  /** A question that is not text makes the whole handler return its single error entry. */
  lemma HandlersFailOnNonText(task: seq<(string, Json)>, qs: seq<Json>, k: nat)
    requires Questions(task) == JArr(qs) && k < |qs| && !qs[k].JStr?
    ensures DatabaseResults(task) == [AStr("Database processing error")]
    ensures GenericResults(task) == [AStr("Generic processing error")]
  {
    AnswerAllAnswersEach(JArr(qs), DatabaseAnswer, "Database processing error");
    AnswerAllAnswersEach(JArr(qs), GenericAnswer, "Generic processing error");
  }
}
