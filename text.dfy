/**
  Character classes and string helpers, with the meaning Python gives them on str values.
  Letters and digits are the ASCII ones: Python's Unicode word characters, digits and case
  mapping outside ASCII are not modelled. Whitespace is Python's full str.isspace() set.
*/
module Text {

  /** str.isspace(): the characters that `\s` matches and that str.strip() removes. */
  predicate IsSpace(c: char) {
    ('\t' <= c <= '\r') || ('\U{1c}' <= c <= '\U{1f}') || c == ' ' || c == '\U{85}' || c == '\U{a0}'
    || c == '\U{1680}' || ('\U{2000}' <= c <= '\U{200a}') || c == '\U{2028}' || c == '\U{2029}'
    || c == '\U{202f}' || c == '\U{205f}' || c == '\U{3000}'
  }

  predicate IsDigit(c: char) { '0' <= c <= '9' }

  predicate IsUpper(c: char) { 'A' <= c <= 'Z' }

  /** `\w`: a letter, a digit or the underscore. */
  predicate IsWordChar(c: char) { IsDigit(c) || IsUpper(c) || ('a' <= c <= 'z') || c == '_' }

  function DigitValue(c: char): nat
    requires IsDigit(c)
  {
    c as int - '0' as int
  }

  function LowerChar(c: char): char {
    if IsUpper(c) then (c as int + 32) as char else c
  }

  /** str.lower() */
  function Lower(s: string): string {
    seq(|s|, i requires 0 <= i < |s| => LowerChar(s[i]))
  }

  lemma LowerHasNoUpper(s: string)
    ensures forall c :: c in Lower(s) ==> !IsUpper(c)
  {
  }

  lemma LowerOfLowerCase(s: string)
    requires forall c :: c in s ==> !IsUpper(c)
    ensures Lower(s) == s
  {
    assert forall i :: 0 <= i < |s| ==> Lower(s)[i] == s[i] by {
      forall i | 0 <= i < |s| ensures Lower(s)[i] == s[i] {
        assert s[i] in s;
      }
    }
  }

  /** Lower-casing works piece by piece. */
  lemma LowerConcat(a: string, b: string)
    ensures Lower(a + b) == Lower(a) + Lower(b)
  {
    assert forall i :: 0 <= i < |a + b| ==> Lower(a + b)[i] == (Lower(a) + Lower(b))[i];
  }

  /** Leading whitespace removed. */
  function TrimStart(s: string): (r: string)
    ensures |r| <= |s| && r == s[|s| - |r|..]
    ensures |r| > 0 ==> !IsSpace(r[0])
    ensures forall k :: 0 <= k < |s| - |r| ==> IsSpace(s[k])
  {
    if |s| > 0 && IsSpace(s[0]) then TrimStart(s[1..]) else s
  }

  /** Trailing whitespace removed. */
  function TrimEnd(s: string): (r: string)
    ensures |r| <= |s| && r == s[..|r|]
    ensures |r| > 0 ==> !IsSpace(r[|r| - 1])
    ensures forall k :: |r| <= k < |s| ==> IsSpace(s[k])
  {
    if |s| > 0 && IsSpace(s[|s| - 1]) then TrimEnd(s[..|s| - 1]) else s
  }

  /** str.strip() */
  function Strip(s: string): (r: string)
    ensures |r| > 0 ==> !IsSpace(r[0]) && !IsSpace(r[|r| - 1])
  {
    TrimEnd(TrimStart(s))
  }

  lemma StripUnspaced(s: string)
    requires |s| > 0 ==> !IsSpace(s[0]) && !IsSpace(s[|s| - 1])
    ensures Strip(s) == s
  {
  }

  /** `s` with every occurrence of `c` deleted: str.replace(c, ''). */
  function Delete(s: string, c: char): (r: string)
    ensures c !in r
    ensures forall d :: d in r ==> d in s
  {
    if |s| == 0 then "" else (if s[0] == c then "" else [s[0]]) + Delete(s[1..], c)
  }

  /** Deleting a character that does not occur changes nothing. */
  lemma {:induction false} DeleteAbsent(s: string, c: char)
    requires c !in s
    ensures Delete(s, c) == s
  {
    if |s| > 0 {
      assert s[0] in s;
      DeleteAbsent(s[1..], c);
      assert s == [s[0]] + s[1..];
    }
  }

  /** Deletion works piece by piece. */
  lemma {:induction false} DeleteConcat(a: string, b: string, c: char)
    ensures Delete(a + b, c) == Delete(a, c) + Delete(b, c)
  {
    if |a| > 0 {
      DeleteConcat(a[1..], b, c);
      assert (a + b)[1..] == a[1..] + b;
    } else {
      assert a + b == b;
    }
  }

  /** `t` occurs in `s` at offset `i`, compared from the `j`-th character of `t` on. */
  predicate MatchAt(s: string, t: string, i: nat, j: nat)
    requires i + |t| <= |s| && j <= |t|
    decreases |t| - j
  {
    j == |t| || (s[i + j] == t[j] && MatchAt(s, t, i, j + 1))
  }

  predicate ContainsFrom(s: string, t: string, i: nat)
    decreases |s| - i
  {
    i + |t| <= |s| && (MatchAt(s, t, i, 0) || ContainsFrom(s, t, i + 1))
  }

  /** Python's `t in s` on strings. */
  predicate Contains(s: string, t: string) {
    ContainsFrom(s, t, 0)
  }

  predicate OccursAt(s: string, t: string, k: int) {
    0 <= k && k + |t| <= |s| && s[k..k + |t|] == t
  }

  lemma {:induction false} MatchAtIff(s: string, t: string, i: nat, j: nat)
    requires i + |t| <= |s| && j <= |t|
    ensures MatchAt(s, t, i, j) <==> forall m :: j <= m < |t| ==> s[i + m] == t[m]
    decreases |t| - j
  {
    if j < |t| {
      MatchAtIff(s, t, i, j + 1);
    }
  }

  lemma {:induction false} ContainsFromIff(s: string, t: string, i: nat)
    ensures ContainsFrom(s, t, i) <==> exists k :: i <= k && OccursAt(s, t, k)
    decreases |s| - i
  {
    if i + |t| <= |s| {
      MatchAtIff(s, t, i, 0);
      assert MatchAt(s, t, i, 0) <==> OccursAt(s, t, i);
      ContainsFromIff(s, t, i + 1);
    } else {
      forall k | i <= k ensures !OccursAt(s, t, k) {}
    }
  }

  /** The recursive definition agrees with "some offset where `t` starts". */
  lemma ContainsIff(s: string, t: string)
    ensures Contains(s, t) <==> exists k :: OccursAt(s, t, k)
  {
    ContainsFromIff(s, t, 0);
  }

  /** An occurrence of `t` uses only characters of `s`. */
  lemma ContainsChars(s: string, t: string, c: char)
    requires Contains(s, t) && c in t
    ensures c in s
  {
    ContainsIff(s, t);
    var k :| OccursAt(s, t, k);
    var m :| 0 <= m < |t| && t[m] == c;
    assert s[k + m] == c;
  }

  /** An occurrence at a known offset. */
  lemma OccursContains(s: string, t: string, k: nat)
    requires OccursAt(s, t, k)
    ensures Contains(s, t)
  {
    ContainsIff(s, t);
  }

  /** A character of `t` that `s` lacks rules out every occurrence. */
  lemma MissingChar(s: string, t: string, c: char)
    requires c in t && c !in s
    ensures !Contains(s, t)
  {
    if Contains(s, t) {
      ContainsChars(s, t, c);
    }
  }

  /** sep.join(xs) */
  function Join(xs: seq<string>, sep: string): string {
    if |xs| == 0 then "" else if |xs| == 1 then xs[0] else xs[0] + sep + Join(xs[1..], sep)
  }

  /** An occurrence of a text without `sep` in `a + [sep] + b` lies in `a` or in `b`, and conversely. */
  lemma ContainsAcrossSeparator(a: string, sep: char, b: string, t: string)
    requires sep !in t
    ensures Contains(a + [sep] + b, t) <==> Contains(a, t) || Contains(b, t)
  {
    var s := a + [sep] + b;
    ContainsIff(s, t);
    ContainsIff(a, t);
    ContainsIff(b, t);
    if Contains(s, t) {
      var k :| OccursAt(s, t, k);
      forall q | k <= q < k + |t| ensures s[q] != sep {
        assert s[q] == t[q - k];
      }
      assert s[|a|] == sep;
      if k + |t| <= |a| {
        assert a[k..k + |t|] == s[k..k + |t|];
        assert OccursAt(a, t, k);
      } else if k > |a| {
        var k' := k - |a| - 1;
        forall m | 0 <= m < |t| ensures b[k' + m] == t[m] {
          assert s[k + m] == t[m];
        }
        assert b[k'..k' + |t|] == t;
        assert OccursAt(b, t, k');
      }
    }
    if Contains(a, t) {
      var k :| OccursAt(a, t, k);
      assert s[k..k + |t|] == a[k..k + |t|];
      assert OccursAt(s, t, k);
    }
    if Contains(b, t) {
      var k :| OccursAt(b, t, k);
      forall m | 0 <= m < |t| ensures s[|a| + 1 + k + m] == t[m] {
        assert b[k + m] == t[m];
      }
      assert s[|a| + 1 + k..|a| + 1 + k + |t|] == t;
      assert OccursAt(s, t, |a| + 1 + k);
    }
  }

  /** A text containing no `sep` occurs in the joined string iff it occurs in one of the parts. */
  lemma {:induction false} ContainsInJoin(xs: seq<string>, sep: char, t: string)
    requires sep !in t
    ensures Contains(Join(xs, [sep]), t) <==> (|t| == 0 || exists i :: 0 <= i < |xs| && Contains(xs[i], t))
  {
    if |xs| == 0 {
      ContainsIff("", t);
      if |t| == 0 {
        assert OccursAt("", t, 0);
      }
    } else if |xs| == 1 {
      if |t| == 0 {
        ContainsIff(xs[0], t);
        assert OccursAt(xs[0], t, 0);
      }
    } else {
      ContainsInJoin(xs[1..], sep, t);
      assert Join(xs, [sep]) == xs[0] + [sep] + Join(xs[1..], [sep]);
      ContainsAcrossSeparator(xs[0], sep, Join(xs[1..], [sep]), t);
      if |t| == 0 {
        ContainsIff(xs[0], t);
        assert OccursAt(xs[0], t, 0);
      }
      if exists i :: 0 <= i < |xs| && Contains(xs[i], t) {
        var i :| 0 <= i < |xs| && Contains(xs[i], t);
        if i > 0 {
          assert xs[1..][i - 1] == xs[i];
        }
      }
      if exists i :: 0 <= i < |xs[1..]| && Contains(xs[1..][i], t) {
        var i :| 0 <= i < |xs[1..]| && Contains(xs[1..][i], t);
        assert xs[i + 1] == xs[1..][i];
      }
    }
  }

  function DigitChar(d: nat): char
    requires d < 10
  {
    ('0' as int + d) as char
  }

  /** str(n) of a non-negative integer. */
  function NatToString(n: nat): (r: string)
    ensures |r| > 0 && forall c :: c in r ==> IsDigit(c)
  {
    if n < 10 then [DigitChar(n)] else NatToString(n / 10) + [DigitChar(n % 10)]
  }

  /** str(n) of an integer. */
  function IntToString(n: int): string {
    if n < 0 then "-" + NatToString(-n) else NatToString(n)
  }
}
