/**
  The few .NET string operations the dashboard relies on, over `string = seq<char>`:
  `string.IsNullOrWhiteSpace`, `string.Replace`, `int.ToString()` and ordinal comparison.
 */
module Text {
  import opened Wrappers

  /** The 25 characters .NET classes as white space, listed one by one. */
  const WhiteSpaceChars: set<char> := {
    ' ', '\t', '\n', '\U{000B}', '\U{000C}', '\r', '\U{0085}', '\U{00A0}', '\U{1680}',
    '\U{2000}', '\U{2001}', '\U{2002}', '\U{2003}', '\U{2004}', '\U{2005}', '\U{2006}',
    '\U{2007}', '\U{2008}', '\U{2009}', '\U{200A}', '\U{2028}', '\U{2029}', '\U{202F}',
    '\U{205F}', '\U{3000}'
  }

  /** `char.IsWhiteSpace`: the Unicode space, line and paragraph separators plus U+0009..U+000D and U+0085. */
  function IsWhiteSpace(c: char): (r: bool)
    ensures r <==> c in WhiteSpaceChars
  {
    || c == ' '
    || ('\t' <= c <= '\r')
    || c == '\U{0085}'
    || c == '\U{00A0}'
    || c == '\U{1680}'
    || ('\U{2000}' <= c <= '\U{200A}')
    || c == '\U{2028}'
    || c == '\U{2029}'
    || c == '\U{202F}'
    || c == '\U{205F}'
    || c == '\U{3000}'
  }

  /** The character-by-character scan behind `string.IsNullOrWhiteSpace`. */
  function AllWhiteSpace(t: string): (r: bool)
    ensures r <==> forall i :: 0 <= i < |t| ==> IsWhiteSpace(t[i])
    decreases |t|
  {
    |t| == 0 || (IsWhiteSpace(t[0]) && AllWhiteSpace(t[1..]))
  }

  /** `string.IsNullOrWhiteSpace`: absent, empty, or white space only. */
  function IsNullOrWhiteSpace(s: Option<string>): (r: bool)
    ensures s == Some("") ==> r
    ensures r <==> s.None? || forall i :: 0 <= i < |s.value| ==> IsWhiteSpace(s.value[i])
  {
    s.None? || AllWhiteSpace(s.value)
  }

  /** `string.Contains`: `pat` occurs somewhere inside `s`, at its start or further on. */
  function Occurs(pat: string, s: string): (r: bool)
    ensures pat <= s ==> r
    ensures r ==> |pat| <= |s|
    decreases |s|
  {
    pat <= s || (|s| > 0 && Occurs(pat, s[1..]))
  }

  /** `Occurs` holds exactly when `pat` is a prefix of `s` from some position on. */
  lemma {:induction false} OccursAtSomePosition(pat: string, s: string)
    ensures Occurs(pat, s) <==> exists i :: 0 <= i <= |s| && pat <= s[i..]
    decreases |s|
  {
    assert s[0..] == s;
    if |s| > 0 {
      OccursAtSomePosition(pat, s[1..]);
      if Occurs(pat, s[1..]) {
        var i :| 0 <= i <= |s[1..]| && pat <= s[1..][i..];
        assert s[1..][i..] == s[i + 1..];
      }
      if exists i :: 0 <= i <= |s| && pat <= s[i..] {
        var i :| 0 <= i <= |s| && pat <= s[i..];
        if i > 0 {
          assert s[1..][i - 1..] == s[i..];
        }
      }
    }
  }

  /**
    `string.Replace(pat, rep)`: one left-to-right scan replacing every non-overlapping
    occurrence of `pat`; the replaced text is not scanned again. .NET rejects an empty `pat`.
   */
  function ReplaceAll(s: string, pat: string, rep: string): (r: string)
    requires |pat| > 0
    ensures !Occurs(pat, s) ==> r == s
    ensures rep == [] ==> |r| <= |s|
    ensures rep == [] && Occurs(pat, s) ==> |r| < |s|
    decreases |s|
  {
    if |s| == 0 then s
    else if pat <= s then rep + ReplaceAll(s[|pat|..], pat, rep)
    else [s[0]] + ReplaceAll(s[1..], pat, rep)
  }

  /** A leading occurrence is replaced, and the scan resumes right after it. */
  lemma ReplaceAllLeading(pat: string, t: string, rep: string)
    requires |pat| > 0
    ensures ReplaceAll(pat + t, pat, rep) == rep + ReplaceAll(t, pat, rep)
  {
    assert (pat + t)[|pat|..] == t;
  }

  /** Two leading occurrences are both replaced. */
  lemma ReplaceAllLeadingTwice(pat: string, t: string, rep: string)
    requires |pat| > 0
    ensures ReplaceAll(pat + pat + t, pat, rep) == rep + rep + ReplaceAll(t, pat, rep)
  {
    var u := pat + t;
    assert pat + pat + t == pat + u;
    ReplaceAllLeading(pat, u, rep);
    ReplaceAllLeading(pat, t, rep);
  }

  /** A text that does not start with the pattern keeps its first character and is scanned on from the second. */
  lemma ReplaceAllNotLeading(s: string, pat: string, rep: string)
    requires |pat| > 0 && |s| > 0 && !(pat <= s)
    ensures ReplaceAll(s, pat, rep) == [s[0]] + ReplaceAll(s[1..], pat, rep)
  {
  }

  /**
    With no occurrence inside `a` followed by all but the last character of `pat`, and `a`
    non-empty, `a + pat + b` does not start with `pat`, and the same holds one character on.
   */
  lemma ClearPrefixShifts(a: string, pat: string, b: string)
    requires |pat| > 0 && |a| > 0
    requires !Occurs(pat, a + pat[..|pat| - 1])
    ensures !(pat <= a + pat + b)
    ensures !Occurs(pat, a[1..] + pat[..|pat| - 1])
  {
    var s := a + pat + b;
    var c := a + pat[..|pat| - 1];
    assert s[..|pat|] == c[..|pat|];
    assert c[1..] == a[1..] + pat[..|pat| - 1];
  }

  /** Splitting off the first character of `a + m + b`, for a non-empty `a`. */
  lemma FirstOfConcat(a: string, m: string, b: string)
    requires |a| > 0
    ensures (a + m + b)[0] == a[0] && (a + m + b)[1..] == a[1..] + m + b
  {
  }

  /** Putting the first character of `a` back in front. */
  lemma ConsConcat(a: string, m: string, b: string)
    requires |a| > 0
    ensures [a[0]] + (a[1..] + m + b) == a + m + b
  {
    assert a == [a[0]] + a[1..];
  }

  /**
    Wherever the first occurrence sits, the text before it is kept, the occurrence is
    replaced and the scan resumes right after it. No occurrence starts before `|a|` exactly
    when none lies inside `a` followed by all but the last character of `pat`.
   */
  lemma {:induction false} ReplaceAllAtFirstOccurrence(a: string, pat: string, b: string, rep: string)
    requires |pat| > 0
    requires !Occurs(pat, a + pat[..|pat| - 1])
    ensures ReplaceAll(a + pat + b, pat, rep) == a + rep + ReplaceAll(b, pat, rep)
    decreases |a|
  {
    if a == [] {
      assert a + pat + b == pat + b;
      ReplaceAllLeading(pat, b, rep);
    } else {
      var s, t, x := a + pat + b, a[1..] + pat + b, ReplaceAll(b, pat, rep);
      FirstOfConcat(a, pat, b);
      ClearPrefixShifts(a, pat, b);
      ReplaceAllNotLeading(s, pat, rep);
      ReplaceAllAtFirstOccurrence(a[1..], pat, b, rep);
      ConsConcat(a, rep, x);
      assert ReplaceAll(s, pat, rep) == [a[0]] + ReplaceAll(t, pat, rep);
    }
  }

  // ---------------------------------------------------------------------------
  // Decimal rendering of `int.ToString()`: ASCII digits and a leading minus sign.

  predicate IsDigit(c: char) {
    '0' <= c <= '9'
  }

  predicate AllDigits(s: string) {
    forall i :: 0 <= i < |s| ==> IsDigit(s[i])
  }

  function DigitChar(d: nat): (c: char)
    requires d < 10
    ensures IsDigit(c) && c as int - '0' as int == d
  {
    (d + '0' as int) as char
  }

  /** Decimal digits of `n`, most significant first, without leading zeros. */
  function NatToString(n: nat): (r: string)
    ensures |r| > 0 && AllDigits(r)
    ensures n > 0 ==> r[0] != '0'
    ensures n < 10 <==> |r| == 1
    decreases n
  {
    if n < 10 then [DigitChar(n)] else NatToString(n / 10) + [DigitChar(n % 10)]
  }

  /** The number a digit string denotes: the reading direction of `NatToString`. */
  function DecimalValue(s: string): nat
    requires AllDigits(s)
    decreases |s|
  {
    if s == [] then 0 else 10 * DecimalValue(s[..|s| - 1]) + (s[|s| - 1] as int - '0' as int)
  }

  /** Rendering a number and reading it back gives the number. */
  lemma {:induction false} DecimalRoundTrip(n: nat)
    ensures DecimalValue(NatToString(n)) == n
    decreases n
  {
    if n >= 10 {
      var r := NatToString(n);
      DecimalRoundTrip(n / 10);
      assert r[..|r| - 1] == NatToString(n / 10);
    }
  }

  /** `int.ToString()`: a minus sign, as '-', before the decimal digits of the magnitude. */
  function IntToString(i: int): (r: string)
    ensures |r| > 0
    ensures r[0] == '-' <==> i < 0
    ensures i >= 0 ==> AllDigits(r) && DecimalValue(r) == i
    ensures i < 0 ==> AllDigits(r[1..]) && DecimalValue(r[1..]) == -i
  {
    if i < 0 then
      DecimalRoundTrip(-i);
      assert ("-" + NatToString(-i))[1..] == NatToString(-i);
      "-" + NatToString(-i)
    else
      DecimalRoundTrip(i);
      NatToString(i)
  }

  // ---------------------------------------------------------------------------
  // Ordinal (code point) lexicographic order on strings.

  /** `a` sorts at or before `b`: a prefix comes first, otherwise the first differing character decides. */
  function LessOrEqual(a: string, b: string): (r: bool)
    ensures a <= b ==> r
    ensures r && a != [] ==> b != [] && a[0] <= b[0]
    decreases |a|
  {
    if a == [] then true
    else if b == [] then false
    else if a[0] != b[0] then a[0] < b[0]
    else LessOrEqual(a[1..], b[1..])
  }

  /** Ordinal order read off the first difference: `a` is a prefix of `b`, or at the first index where they differ `a` has the smaller code point. */
  lemma {:induction false} LessOrEqualFirstDifference(a: string, b: string)
    ensures LessOrEqual(a, b) <==> a <= b || exists k :: 0 <= k < |a| && k < |b| && a[..k] == b[..k] && a[k] < b[k]
    decreases |a|
  {
    if a != [] && b != [] {
      if a[0] != b[0] {
        assert a[..0] == b[..0];
        forall k | 0 < k < |a| && k < |b| ensures a[..k] != b[..k] {
          assert a[..k][0] == a[0];
        }
      } else {
        LessOrEqualFirstDifference(a[1..], b[1..]);
        if LessOrEqual(a, b) && !(a <= b) {
          var k :| 0 <= k < |a[1..]| && k < |b[1..]| && a[1..][..k] == b[1..][..k] && a[1..][k] < b[1..][k];
          assert a[..k + 1] == [a[0]] + a[1..][..k];
          assert b[..k + 1] == [b[0]] + b[1..][..k];
        }
        if !LessOrEqual(a, b) {
          assert !(a[1..] <= b[1..]);
          forall k | 0 <= k < |a| && k < |b| && a[..k] == b[..k] ensures a[k] >= b[k] {
            if k > 0 {
              assert a[1..][..k - 1] == a[..k][1..];
              assert b[1..][..k - 1] == b[..k][1..];
              assert a[1..][k - 1] == a[k];
              assert b[1..][k - 1] == b[k];
            }
          }
        }
      }
    }
  }

  lemma {:induction false} LessOrEqualReflexive(a: string)
    ensures LessOrEqual(a, a)
    decreases |a|
  {
    if a != [] {
      LessOrEqualReflexive(a[1..]);
    }
  }

  lemma {:induction false} LessOrEqualTotal(a: string, b: string)
    ensures LessOrEqual(a, b) || LessOrEqual(b, a)
    decreases |a|
  {
    if a != [] && b != [] && a[0] == b[0] {
      LessOrEqualTotal(a[1..], b[1..]);
    }
  }

  lemma {:induction false} LessOrEqualAntisymmetric(a: string, b: string)
    requires LessOrEqual(a, b) && LessOrEqual(b, a)
    ensures a == b
    decreases |a|
  {
    if a != [] && b != [] {
      LessOrEqualAntisymmetric(a[1..], b[1..]);
      assert a == [a[0]] + a[1..] && b == [b[0]] + b[1..];
    }
  }

  lemma {:induction false} LessOrEqualTransitive(a: string, b: string, c: string)
    requires LessOrEqual(a, b) && LessOrEqual(b, c)
    ensures LessOrEqual(a, c)
    decreases |a|
  {
    if a != [] && b != [] && c != [] && a[0] == b[0] && b[0] == c[0] {
      LessOrEqualTransitive(a[1..], b[1..], c[1..]);
    }
  }
}
