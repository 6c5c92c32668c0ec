/**
  The regular expressions of the scraper and the field extractor, each written out as a scan
  over the string: the year token `\b(19|20)\d{2}\b`, the first `\d+` and `[\d.]+` runs,
  float() of such a run, the non-greedy removals `\[.*?\]` and `\(.*?\)`, and the header
  cleanups `[^\w\s]` -> "" and `\s+` -> "_".
*/
module Patterns {
  import opened Wrappers
  import opened Text
  import opened Sequences

  // ---------------------------------------------------------------- year token

  /** `\b(19|20)\d{2}\b` matches the four characters starting at `i`. */
  predicate YearAt(s: string, i: int) {
    0 <= i && i + 4 <= |s|
    && ((s[i] == '1' && s[i + 1] == '9') || (s[i] == '2' && s[i + 1] == '0'))
    && IsDigit(s[i + 2]) && IsDigit(s[i + 3])
    && (i == 0 || !IsWordChar(s[i - 1]))
    && (i + 4 == |s| || !IsWordChar(s[i + 4]))
  }

  /** int() of the matched token. */
  function YearValue(s: string, i: int): (y: int)
    requires YearAt(s, i)
    ensures 1900 <= y <= 2099
  {
    DigitValue(s[i]) * 1000 + DigitValue(s[i + 1]) * 100 + DigitValue(s[i + 2]) * 10 + DigitValue(s[i + 3])
  }

  /** The leftmost match at or after `from` (what re.search reports). */
  function FindYear(s: string, from: nat): (r: Option<nat>)
    ensures r.Some? ==> from <= r.value && YearAt(s, r.value)
    ensures r.Some? ==> forall k :: from <= k < r.value ==> !YearAt(s, k)
    ensures r.None? <==> forall k :: from <= k ==> !YearAt(s, k)
    decreases |s| - from
  {
    if from + 4 > |s| then None
    else if YearAt(s, from) then Some(from)
    else FindYear(s, from + 1)
  }

  /** The first word-bounded 19xx/20xx token of `s`, as a number. */
  function FirstYear(s: string): (r: Option<int>)
    ensures r.Some? ==> 1900 <= r.value <= 2099
    ensures r.Some? <==> exists k :: YearAt(s, k)
    ensures r.Some? ==> exists k :: YearAt(s, k) && r.value == YearValue(s, k)
                                    && forall j :: 0 <= j < k ==> !YearAt(s, j)
  {
    match FindYear(s, 0)
    case None => None
    case Some(i) => Some(YearValue(s, i))
  }

  // ---------------------------------------------------------------- character runs

  /** The end of the maximal run of `p`-characters that starts at `i`. */
  function RunEnd(s: string, p: char -> bool, i: nat): (j: nat)
    requires i <= |s|
    ensures i <= j <= |s| && (j == |s| || !p(s[j]))
    ensures forall k :: i <= k < j ==> p(s[k])
    decreases |s| - i
  {
    if i < |s| && p(s[i]) then RunEnd(s, p, i + 1) else i
  }

  /** re.findall('[class]+', s)[0]: the leftmost maximal run of `p`-characters, if any. */
  function FirstRun(s: string, p: char -> bool): (r: Option<string>)
    ensures r.None? <==> forall k :: 0 <= k < |s| ==> !p(s[k])
    ensures r.Some? ==> |r.value| > 0 && forall c :: c in r.value ==> p(c)
    ensures r.Some? ==> exists i :: 0 <= i < |s| && p(s[i]) && (forall k :: 0 <= k < i ==> !p(s[k]))
                                    && r.value == s[i..RunEnd(s, p, i)]
  {
    match FindIndex(s, p, 0)
    case None => None
    case Some(i) => Some(s[i..RunEnd(s, p, i)])
  }

  predicate IsDot(c: char) { c == '.' }

  /** A character of the class `[\d.]`. */
  predicate IsNumberChar(c: char) { IsDigit(c) || c == '.' }

  predicate AllDigits(s: string) { forall c :: c in s ==> IsDigit(c) }

  /** int() of a string of decimal digits. */
  function DigitsValue(ds: string): nat
    requires AllDigits(ds)
  {
    if |ds| == 0 then 0
    else
      assert ds[|ds| - 1] in ds;
      DigitsValue(ds[..|ds| - 1]) * 10 + DigitValue(ds[|ds| - 1])
  }

  function Pow10(n: nat): (p: nat)
    ensures p >= 1
  {
    if n == 0 then 1 else 10 * Pow10(n - 1)
  }

  /** int(str(n)) == n. */
  lemma {:induction false} DigitsValueOfNat(n: nat)
    ensures AllDigits(NatToString(n)) && DigitsValue(NatToString(n)) == n
  {
    var s := NatToString(n);
    if n >= 10 {
      DigitsValueOfNat(n / 10);
      assert s[..|s| - 1] == NatToString(n / 10);
    } else {
      assert s[..0] == "";
    }
  }

  /** A string of n digits denotes less than 10^n. */
  lemma {:induction false} DigitsValueBelow(ds: string)
    requires AllDigits(ds)
    ensures DigitsValue(ds) < Pow10(|ds|)
  {
    if |ds| > 0 {
      var init := ds[..|ds| - 1];
      assert forall c :: c in init ==> c in ds;
      DigitsValueBelow(init);
      assert ds[|ds| - 1] in ds;
    }
  }

  lemma RatioBelowOne(d: real, p: real)
    requires 0.0 <= d < p
    ensures d / p < 1.0
  {
    var q := d / p;
    assert q * p == d;
    if q >= 1.0 {
      assert false;
    }
  }

  /** The number "<whole>.<fraction>" denotes: the whole part plus a fraction below one. */
  function PointValue(whole: string, fraction: string): (v: real)
    requires AllDigits(whole) && AllDigits(fraction)
    ensures DigitsValue(whole) as real <= v < DigitsValue(whole) as real + 1.0
  {
    var d, p := DigitsValue(fraction) as real, Pow10(|fraction|) as real;
    DigitsValueBelow(fraction);
    RatioBelowOne(d, p);
    DigitsValue(whole) as real + d / p
  }

  /**
    float() of a string of digits and points: defined exactly when there is at most one point
    and at least one digit ("12", "1.5", "1.", ".5"); "." and "1.2.3" raise ValueError.
  */
  function ParseDecimal(t: string): (r: Option<real>)
    ensures r.Some? ==> r.value >= 0.0
    ensures AllDigits(t) && |t| > 0 ==> r == Some(DigitsValue(t) as real)
    ensures t == "." ==> r.None?
  {
    match FindIndex(t, IsDot, 0)
    case None =>
      if |t| > 0 && AllDigits(t) then Some(DigitsValue(t) as real) else None
    case Some(d) =>
      assert t[d] in t;
      var whole, fraction := t[..d], t[d + 1..];
      if |whole| + |fraction| > 0 && AllDigits(whole) && AllDigits(fraction)
      then Some(PointValue(whole, fraction))
      else None
  }

  /** No two points: the shape float() accepts among digits-and-points strings. */
  predicate AtMostOneDot(t: string) {
    forall i, j :: 0 <= i < j < |t| && t[i] == '.' ==> t[j] != '.'
  }

  /** float() of "<digits>.<digits>" is the whole part plus the fraction scaled by its length. */
  lemma ParseDecimalPoint(a: string, b: string)
    requires AllDigits(a) && AllDigits(b) && |a| + |b| > 0
    ensures ParseDecimal(a + "." + b) == Some(PointValue(a, b))
  {
    var t := a + "." + b;
    FirstDotAfterDigits(a, b);
    assert t[..|a|] == a;
    assert t[|a| + 1..] == b;
    var whole, fraction := t[..|a|], t[|a| + 1..];
    assert |whole| + |fraction| > 0 && AllDigits(whole) && AllDigits(fraction);
  }

  lemma FirstDotAfterDigits(a: string, b: string)
    requires AllDigits(a)
    ensures FindIndex(a + "." + b, IsDot, 0) == Some(|a|)
  {
    var t := a + "." + b;
    assert IsDot(t[|a|]);
    forall k | 0 <= k < |a| ensures !IsDot(t[k]) {
      assert t[k] == a[k] && a[k] in a;
    }
    FindIndexFirst(t, IsDot);
  }

  /**
    float() of a string accepts exactly the strings of digits and points with at most one point
    and at least one digit.
  */
  lemma ParseDecimalDefined(t: string)
    ensures ParseDecimal(t).Some? <==>
              (forall k :: 0 <= k < |t| ==> IsNumberChar(t[k])) && AtMostOneDot(t)
              && (exists k :: 0 <= k < |t| && IsDigit(t[k]))
  {
    var dot := FindIndex(t, IsDot, 0);
    if dot.None? {
      assert AtMostOneDot(t);
      assert AllDigits(t) <==> forall k :: 0 <= k < |t| ==> IsNumberChar(t[k]) by {
        if forall k :: 0 <= k < |t| ==> IsNumberChar(t[k]) {
          forall c | c in t ensures IsDigit(c) {
            var k :| 0 <= k < |t| && t[k] == c;
          }
        }
      }
      if |t| > 0 && AllDigits(t) {
        assert IsDigit(t[0]) by { assert t[0] in t; }
      }
    } else {
      var d := dot.value;
      var whole, fraction := t[..d], t[d + 1..];
      assert forall k :: 0 <= k < d ==> t[k] == whole[k];
      assert forall k :: d < k < |t| ==> t[k] == fraction[k - d - 1];
      var lhs := |whole| + |fraction| > 0 && AllDigits(whole) && AllDigits(fraction);
      if lhs {
        forall k | 0 <= k < |t| ensures IsNumberChar(t[k]) {
          if k < d { assert whole[k] in whole; } else if k > d { assert fraction[k - d - 1] in fraction; }
        }
        forall k | d < k < |t| ensures IsDigit(t[k]) {
          assert fraction[k - d - 1] in fraction;
        }
        assert AtMostOneDot(t);
        if |whole| > 0 {
          assert whole[0] in whole;
        } else {
          assert fraction[0] in fraction && t[d + 1] == fraction[0];
        }
      }
      if (forall k :: 0 <= k < |t| ==> IsNumberChar(t[k])) && AtMostOneDot(t) && (exists k :: 0 <= k < |t| && IsDigit(t[k])) {
        forall c | c in whole ensures IsDigit(c) {
          var k :| 0 <= k < |whole| && whole[k] == c;
          assert t[k] == c;
        }
        forall c | c in fraction ensures IsDigit(c) {
          var k :| 0 <= k < |fraction| && fraction[k] == c;
          assert t[k + d + 1] == c;
        }
        var k :| 0 <= k < |t| && IsDigit(t[k]);
        assert k != d;
      }
    }
  }

  /** The first `\d+` run of `s` as a number, or None when `s` has no digit. */
  function FirstInteger(s: string): (r: Option<nat>)
    ensures r.None? <==> forall k :: 0 <= k < |s| ==> !IsDigit(s[k])
  {
    match FirstRun(s, IsDigit)
    case None => None
    case Some(ds) => Some(DigitsValue(ds))
  }

  /**
    pd.to_numeric(text, errors='coerce') on a string: an optional sign and a decimal in the
    digits-and-point form; anything else is NaN (None).
  */
  function ParseNumeric(s: string): (r: Option<real>)
    ensures AllDigits(s) && |s| > 0 ==> r == Some(DigitsValue(s) as real)
  {
    if |s| > 0 && (s[0] == '-' || s[0] == '+') then
      assert s[0] in s;
      var rest := s[1..];
      if forall c :: c in rest ==> IsNumberChar(c) then
        match ParseDecimal(rest)
        case None => None
        case Some(v) => Some(if s[0] == '-' then -v else v)
      else None
    else if forall c :: c in s ==> IsNumberChar(c) then ParseDecimal(s)
    else None
  }

  // ---------------------------------------------------------------- non-greedy delimiter removal

  /**
    Where the non-greedy `.*?` followed by `close` ends in `t`: the first `close`, unless a line
    break comes before it (`.` does not match "\n").
  */
  function FindClose(t: string, close: char): (r: Option<nat>)
    ensures r.Some? ==> r.value < |t| && t[r.value] == close
    ensures r.Some? ==> forall k :: 0 <= k < r.value ==> t[k] != close && t[k] != '\n'
  {
    if |t| == 0 then None
    else if t[0] == close then Some(0)
    else if t[0] == '\n' then None
    else match FindClose(t[1..], close)
      case None => None
      case Some(k) => Some(k + 1)
  }

  /** re.sub(open + '.*?' + close, '', s): each leftmost delimited segment on one line, removed. */
  function StripDelimited(s: string, open: char, close: char): (r: string)
    ensures forall c :: c in r ==> c in s
    ensures open !in s ==> r == s
    decreases |s|
  {
    if |s| == 0 then ""
    else if s[0] == open && FindClose(s[1..], close).Some? then
      StripDelimited(s[FindClose(s[1..], close).value + 2..], open, close)
    else
      [s[0]] + StripDelimited(s[1..], open, close)
  }

  /** Text before the first `open` is kept as it is. */
  lemma {:induction false} StripDelimitedPrefix(a: string, b: string, open: char, close: char)
    requires open !in a
    ensures StripDelimited(a + b, open, close) == a + StripDelimited(b, open, close)
    decreases |a|
  {
    if |a| > 0 {
      var s, rest := a + b, a[1..];
      assert s[0] == a[0] && a[0] in a;
      assert s[1..] == rest + b;
      assert open !in rest;
      calc {
        StripDelimited(s, open, close);
        [a[0]] + StripDelimited(rest + b, open, close);
        { StripDelimitedPrefix(rest, b, open, close); }
        [a[0]] + (rest + StripDelimited(b, open, close));
        { assert a == [a[0]] + rest; }
        a + StripDelimited(b, open, close);
      }
    } else {
      assert a + b == b;
    }
  }

  /** The non-greedy match stops at the first `close` when no line break comes before it. */
  lemma {:induction false} FindCloseAt(m: string, b: string, close: char)
    requires close !in m && '\n' !in m
    ensures FindClose(m + [close] + b, close) == Some(|m|)
    decreases |m|
  {
    var t := m + [close] + b;
    if |m| > 0 {
      assert t[0] == m[0] && m[0] in m;
      assert t[1..] == m[1..] + [close] + b;
      assert forall c :: c in m[1..] ==> c in m;
      FindCloseAt(m[1..], b, close);
    }
  }

  /** A delimited segment on one line is removed whole, and the scan goes on after it. */
  lemma SegmentRemoved(m: string, b: string, open: char, close: char)
    requires close !in m && '\n' !in m
    ensures StripDelimited([open] + m + [close] + b, open, close) == StripDelimited(b, open, close)
  {
    var s := [open] + m + [close] + b;
    assert s[1..] == m + [close] + b;
    FindCloseAt(m, b, close);
    assert s[|m| + 2..] == b;
  }

  /** `open` never has a matching `close` later on the same line. */
  predicate NoPair(s: string, open: char, close: char) {
    |s| == 0 || ((s[0] == open ==> FindClose(s[1..], close).None?) && NoPair(s[1..], open, close))
  }

  lemma {:induction false} FindCloseAfterPlain(u: string, v: string, close: char)
    requires forall c :: c in u ==> c != close && c != '\n'
    ensures FindClose(u + v, close).None? <==> FindClose(v, close).None?
    decreases |u|
  {
    if |u| > 0 {
      assert (u + v)[0] == u[0] && (u + v)[1..] == u[1..] + v;
      assert u[0] in u;
      assert forall c :: c in u[1..] ==> c in u;
      FindCloseAfterPlain(u[1..], v, close);
    } else {
      assert u + v == v;
    }
  }

  lemma {:induction false} FindClosePrefix(s: string, close: char, m: nat)
    requires m <= |s| && FindClose(s, close).None?
    ensures FindClose(s[..m], close).None?
  {
    if m > 0 && s[0] != '\n' {
      assert s[..m][1..] == s[1..][..m - 1];
      FindClosePrefix(s[1..], close, m - 1);
    }
  }

  lemma {:induction false} NoPairSuffix(s: string, open: char, close: char, m: nat)
    requires m <= |s| && NoPair(s, open, close)
    ensures NoPair(s[m..], open, close)
  {
    if m > 0 {
      assert s[m..] == s[1..][m - 1..];
      NoPairSuffix(s[1..], open, close, m - 1);
    }
  }

  lemma {:induction false} NoPairPrefix(s: string, open: char, close: char, m: nat)
    requires m <= |s| && NoPair(s, open, close)
    ensures NoPair(s[..m], open, close)
  {
    if m > 0 {
      assert s[..m][1..] == s[1..][..m - 1];
      if s[0] == open {
        FindClosePrefix(s[1..], close, m - 1);
      }
      NoPairPrefix(s[1..], open, close, m - 1);
    }
  }

  /** Removing segments leaves no `close` on the first line if the input had none there. */
  lemma {:induction false} StripKeepsNoClose(t: string, open: char, close: char)
    requires open != '\n' && close != '\n'
    requires FindClose(t, close).None?
    ensures FindClose(StripDelimited(t, open, close), close).None?
    decreases |t|
  {
    if |t| > 0 && !(t[0] == open && FindClose(t[1..], close).Some?) && t[0] != '\n' {
      StripKeepsNoClose(t[1..], open, close);
    }
  }

  /** After the removal, no `open` has a later `close` on its line. */
  lemma {:induction false} StripLeavesNoPair(t: string, open: char, close: char)
    requires open != '\n' && close != '\n'
    ensures NoPair(StripDelimited(t, open, close), open, close)
    decreases |t|
  {
    if |t| > 0 {
      if t[0] == open && FindClose(t[1..], close).Some? {
        StripLeavesNoPair(t[FindClose(t[1..], close).value + 2..], open, close);
      } else {
        if t[0] == open {
          StripKeepsNoClose(t[1..], open, close);
        }
        StripLeavesNoPair(t[1..], open, close);
      }
    }
  }

  /** Removing `open2 ... close2` segments keeps "no `close` before the first line break". */
  lemma {:induction false} OtherStripKeepsNoClose(t: string, open2: char, close2: char, close: char)
    requires open2 != '\n' && close2 != '\n' && open2 != close && close2 != close
    requires FindClose(t, close).None?
    ensures FindClose(StripDelimited(t, open2, close2), close).None?
    decreases |t|
  {
    if |t| > 0 {
      if t[0] == open2 && FindClose(t[1..], close2).Some? {
        var k := FindClose(t[1..], close2).value;
        SegmentHasNoClose(t, open2, close2, close);
        OtherStripKeepsNoClose(t[k + 2..], open2, close2, close);
      } else if t[0] != '\n' {
        OtherStripKeepsNoClose(t[1..], open2, close2, close);
      }
    }
  }

  /** The segment a removal deletes holds no `close` and no line break, so the rest keeps the property. */
  lemma SegmentHasNoClose(t: string, open2: char, close2: char, close: char)
    requires open2 != '\n' && close2 != '\n' && open2 != close && close2 != close
    requires FindClose(t, close).None?
    requires |t| > 0 && t[0] == open2 && FindClose(t[1..], close2).Some?
    ensures FindClose(t[FindClose(t[1..], close2).value + 2..], close).None?
  {
    var k := FindClose(t[1..], close2).value;
    var u, v := t[..k + 2], t[k + 2..];
    forall i | 0 <= i < |u| ensures u[i] != '\n' {
      if i > 0 {
        assert u[i] == t[1..][i - 1];
      }
    }
    forall i | 0 <= i < |u| ensures u[i] != close {
      NoCloseBeforeBreak(t, close, i);
    }
    assert t == u + v;
    FindCloseAfterPlain(u, v, close);
  }

  /** A position reached before any line break does not hold `close` when FindClose found none. */
  lemma {:induction false} NoCloseBeforeBreak(t: string, close: char, m: nat)
    requires FindClose(t, close).None? && m < |t|
    requires forall k :: 0 <= k < m ==> t[k] != '\n'
    ensures t[m] != close
  {
    if m > 0 {
      assert t[0] != '\n';
      NoCloseBeforeBreak(t[1..], close, m - 1);
    }
  }

  /** Removing `open2 ... close2` segments keeps `NoPair` for another delimiter pair. */
  lemma {:induction false} OtherStripKeepsNoPair(t: string, open2: char, close2: char, open: char, close: char)
    requires open2 != '\n' && close2 != '\n' && open2 != close && close2 != close
    requires NoPair(t, open, close)
    ensures NoPair(StripDelimited(t, open2, close2), open, close)
    decreases |t|
  {
    if |t| > 0 {
      if t[0] == open2 && FindClose(t[1..], close2).Some? {
        var k := FindClose(t[1..], close2).value;
        NoPairSuffix(t, open, close, k + 2);
        OtherStripKeepsNoPair(t[k + 2..], open2, close2, open, close);
      } else {
        if t[0] == open {
          OtherStripKeepsNoClose(t[1..], open2, close2, close);
        }
        OtherStripKeepsNoPair(t[1..], open2, close2, open, close);
      }
    }
  }

  lemma StripKeepsNoPair(s: string, open: char, close: char)
    requires NoPair(s, open, close)
    ensures NoPair(Strip(s), open, close)
  {
    var t := TrimStart(s);
    NoPairSuffix(s, open, close, |s| - |t|);
    NoPairPrefix(t, open, close, |TrimEnd(t)|);
  }

  /** On a line without breaks, `NoPair` means no `open` is followed by any `close`. */
  lemma {:induction false} NoPairSingleLine(s: string, open: char, close: char)
    requires NoPair(s, open, close) && '\n' !in s
    ensures forall i, j :: 0 <= i < j < |s| && s[i] == open ==> s[j] != close
  {
    if |s| > 0 {
      NoPairSingleLine(s[1..], open, close);
      if s[0] == open {
        NoCloseSingleLine(s[1..], close);
      }
      forall i, j | 0 <= i < j < |s| && s[i] == open ensures s[j] != close {
        if i > 0 {
          assert s[i] == s[1..][i - 1] && s[j] == s[1..][j - 1];
        } else {
          assert s[j] == s[1..][j - 1];
        }
      }
    }
  }

  lemma {:induction false} NoCloseSingleLine(t: string, close: char)
    requires FindClose(t, close).None? && '\n' !in t
    ensures close !in t
  {
    if |t| > 0 {
      assert t[0] != '\n';
      NoCloseSingleLine(t[1..], close);
      assert t == [t[0]] + t[1..];
    }
  }

  /**
    _clean_film_title: every `[...]` segment removed, then every `(...)` segment, then the
    surrounding whitespace. The same cleanup is applied by the field extractor to a title column.
  */
  function CleanTitle(t: string): (r: string)
    ensures |r| > 0 ==> !IsSpace(r[0]) && !IsSpace(r[|r| - 1])
  {
    Strip(StripDelimited(StripDelimited(t, '[', ']'), '(', ')'))
  }

  /** A title without brackets or parentheses only loses its surrounding whitespace. */
  lemma CleanTitleUnbracketed(t: string)
    requires '[' !in t && '(' !in t
    ensures CleanTitle(t) == Strip(t)
  {
  }

  /** A trailing citation marker `[...]` is dropped along with the whitespace before it. */
  lemma CleanTitleDropsCitation(a: string, m: string)
    requires '[' !in a && '(' !in a && ']' !in m && '\n' !in m
    ensures CleanTitle(a + "[" + m + "]") == Strip(a)
  {
    assert a + "[" + m + "]" == a + (['['] + m + [']'] + "");
    StripDelimitedPrefix(a, ['['] + m + [']'] + "", '[', ']');
    SegmentRemoved(m, "", '[', ']');
    assert a + "" == a;
  }

  /** After cleaning, no `[` has a `]` later on its line, and no `(` a `)`. */
  lemma CleanTitleNoPair(t: string)
    ensures NoPair(CleanTitle(t), '[', ']') && NoPair(CleanTitle(t), '(', ')')
  {
    var a := StripDelimited(t, '[', ']');
    var b := StripDelimited(a, '(', ')');
    StripLeavesNoPair(t, '[', ']');
    OtherStripKeepsNoPair(a, '(', ')', '[', ']');
    StripLeavesNoPair(a, '(', ')');
    StripKeepsNoPair(b, '[', ']');
    StripKeepsNoPair(b, '(', ')');
  }

  /** A single-line title comes out with no `[` before a `]` and no `(` before a `)`. */
  lemma CleanTitleSingleLine(t: string)
    requires '\n' !in t
    ensures forall i, j :: 0 <= i < j < |CleanTitle(t)| && CleanTitle(t)[i] == '[' ==> CleanTitle(t)[j] != ']'
    ensures forall i, j :: 0 <= i < j < |CleanTitle(t)| && CleanTitle(t)[i] == '(' ==> CleanTitle(t)[j] != ')'
  {
    var b := StripDelimited(StripDelimited(t, '[', ']'), '(', ')');
    var r := CleanTitle(t);
    assert '\n' !in b;
    var s := TrimStart(b);
    assert forall c :: c in s ==> c in b;
    assert forall c :: c in r ==> c in s;
    CleanTitleNoPair(t);
    NoPairSingleLine(r, '[', ']');
    NoPairSingleLine(r, '(', ')');
  }

  // ---------------------------------------------------------------- header cleanup

  /** re.sub(r'[^\w\s]', '', s) */
  function KeepWordAndSpace(s: string): string {
    if |s| == 0 then ""
    else (if IsWordChar(s[0]) || IsSpace(s[0]) then [s[0]] else "") + KeepWordAndSpace(s[1..])
  }

  /** What is kept are word characters and whitespace of `s`. */
  lemma {:induction false} KeptWordAndSpace(s: string)
    ensures forall c :: c in KeepWordAndSpace(s) ==> (IsWordChar(c) || IsSpace(c)) && c in s
  {
    if |s| > 0 {
      KeptWordAndSpace(s[1..]);
      assert forall c :: c in s[1..] ==> c in s;
    }
  }

  /** re.sub(r'\s+', '_', s) */
  function UnderscoreSpaces(s: string): (r: string)
    ensures forall c :: c in r ==> !IsSpace(c) && (c in s || c == '_')
  {
    if |s| == 0 then ""
    else if IsSpace(s[0]) then "_" + UnderscoreSpaces(TrimStart(s[1..]))
    else [s[0]] + UnderscoreSpaces(s[1..])
  }

  lemma KeepWordAndSpaceOfWord(s: string)
    requires forall c :: c in s ==> IsWordChar(c)
    ensures KeepWordAndSpace(s) == s
  {
    if |s| > 0 {
      assert s[0] in s;
      KeepWordAndSpaceOfWord(s[1..]);
    }
  }

  /** Punctuation is dropped piece by piece. */
  lemma {:induction false} KeepWordAndSpaceConcat(a: string, b: string)
    ensures KeepWordAndSpace(a + b) == KeepWordAndSpace(a) + KeepWordAndSpace(b)
  {
    if |a| > 0 {
      KeepWordAndSpaceConcat(a[1..], b);
      assert (a + b)[1..] == a[1..] + b;
    } else {
      assert a + b == b;
    }
  }

  lemma UnderscoreSpacesOfUnspaced(s: string)
    requires forall c :: c in s ==> !IsSpace(c)
    ensures UnderscoreSpaces(s) == s
  {
    if |s| > 0 {
      assert s[0] in s;
      UnderscoreSpacesOfUnspaced(s[1..]);
    }
  }
}
