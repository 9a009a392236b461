/**
 * The Kotlin/JVM string operations the converter relies on, stated on
 * `seq<char>`: trimming, ASCII lower-casing, `substringBefore`/`After`,
 * `replace`, `padStart`, `compareTo`, decimal rendering of an `Int` and
 * `toIntOrNull`.
 */
module Strings {
  import opened Wrappers

  // ---------------------------------------------------------------- chars

  /** Kotlin `Char.isWhitespace()`: Java whitespace plus the no-break spaces. */
  predicate IsWhitespace(c: char)
  {
    c == ' ' || ('\t' <= c <= '\r') || ('\U{001C}' <= c <= '\U{001F}')
    || c == '\U{00A0}' || c == '\U{1680}' || ('\U{2000}' <= c <= '\U{200A}')
    || c == '\U{2028}' || c == '\U{2029}' || c == '\U{202F}' || c == '\U{205F}'
    || c == '\U{3000}'
  }

  /** The six characters of the Java regex class `\s`. */
  predicate IsRegexSpace(c: char)
  {
    c == ' ' || ('\t' <= c <= '\r')
  }

  predicate IsDigit(c: char)
  {
    '0' <= c <= '9'
  }

  predicate AllDigits(s: string)
  {
    forall k :: 0 <= k < |s| ==> IsDigit(s[k])
  }

  function DigitVal(c: char): (d: nat)
    requires IsDigit(c)
    ensures d < 10
  {
    c as int - '0' as int
  }

  function DigitChar(d: nat): (c: char)
    requires d < 10
    ensures IsDigit(c) && DigitVal(c) == d
  {
    ('0' as int + d) as char
  }

  /** Kotlin `Char.lowercaseChar()` restricted to ASCII letters. */
  function LowerChar(c: char): (r: char)
    ensures !('A' <= r <= 'Z')
    ensures !('A' <= c <= 'Z') ==> r == c
  {
    if 'A' <= c <= 'Z' then (c as int + 32) as char else c
  }

  /** Kotlin `String.lowercase()` restricted to ASCII letters. */
  function Lower(s: string): (r: string)
    ensures |r| == |s|
    ensures forall k :: 0 <= k < |s| ==> r[k] == LowerChar(s[k])
  {
    if s == [] then [] else [LowerChar(s[0])] + Lower(s[1..])
  }

  predicate HasNo(s: string, c: char)
  {
    forall k :: 0 <= k < |s| ==> s[k] != c
  }

  // ------------------------------------------------------------- trimming

  /** Drops the longest prefix whose characters satisfy `p`. */
  function TrimStart(s: string, p: char -> bool): (r: string)
    ensures |r| <= |s|
  {
    if s != [] && p(s[0]) then TrimStart(s[1..], p) else s
  }

  /**
   * `TrimStart` keeps a suffix; what it dropped satisfies `p`, and what it
   * kept does not start so.
   */
  lemma {:induction false} TrimStartSpec(s: string, p: char -> bool)
    ensures var r := TrimStart(s, p);
      && r == s[|s| - |r|..]
      && (forall k :: 0 <= k < |s| - |r| ==> p(s[k])) && (r == [] || !p(r[0]))
  {
    if s != [] && p(s[0]) {
      TrimStartSpec(s[1..], p);
      var r := TrimStart(s, p);
      assert forall k :: 1 <= k < |s| - |r| ==> s[k] == s[1..][k - 1];
      assert s[1..][|s| - 1 - |r|..] == s[|s| - |r|..];
    }
  }

  /** Drops the longest suffix whose characters satisfy `p`. */
  function TrimEnd(s: string, p: char -> bool): (r: string)
    ensures |r| <= |s|
  {
    if s != [] && p(s[|s| - 1]) then TrimEnd(s[..|s| - 1], p) else s
  }

  /**
   * `TrimEnd` keeps a prefix; what it dropped satisfies `p`, and what it
   * kept does not end so.
   */
  lemma {:induction false} TrimEndSpec(s: string, p: char -> bool)
    ensures var r := TrimEnd(s, p);
      && r == s[..|r|]
      && (forall k :: |r| <= k < |s| ==> p(s[k])) && (r == [] || !p(r[|r| - 1]))
  {
    if s != [] && p(s[|s| - 1]) {
      TrimEndSpec(s[..|s| - 1], p);
      var r := TrimEnd(s, p);
      assert forall k :: |r| <= k < |s| - 1 ==> s[k] == s[..|s| - 1][k];
      assert s[..|s| - 1][..|r|] == s[..|r|];
    }
  }

  /** Kotlin `trim { p(it) }` (and `trim(vararg chars)`). */
  function TrimBy(s: string, p: char -> bool): string
  {
    TrimEnd(TrimStart(s, p), p)
  }

  /** Kotlin `String.trim()`. */
  function Trim(s: string): string
  {
    TrimBy(s, IsWhitespace)
  }

  /** Kotlin `isBlank()`: empty or whitespace only. */
  predicate IsBlank(s: string)
  {
    forall k :: 0 <= k < |s| ==> IsWhitespace(s[k])
  }

  /** Every character of a trimmed string occurs in the original. */
  lemma TrimByChars(s: string, p: char -> bool, c: char)
    requires HasNo(s, c)
    ensures HasNo(TrimBy(s, p), c)
  {
    var t := TrimStart(s, p);
    TrimStartSpec(s, p);
    SliceHasNo(s, |s| - |t|, |s|, c);
    var r := TrimEnd(t, p);
    TrimEndSpec(t, p);
    SliceHasNo(t, 0, |r|, c);
  }

  lemma {:induction false} TrimStartBlank(s: string)
    requires IsBlank(s)
    ensures TrimStart(s, IsWhitespace) == []
  {
    if s != [] { TrimStartBlank(s[1..]); }
  }

  /** `s.isBlank()` exactly when `s.trim()` is empty. */
  lemma BlankIffTrimEmpty(s: string)
    ensures IsBlank(s) <==> Trim(s) == ""
  {
    if IsBlank(s) {
      TrimStartBlank(s);
    }
    var t := TrimStart(s, IsWhitespace);
    TrimStartSpec(s, IsWhitespace);
    TrimEndSpec(t, IsWhitespace);
  }

  /** Trimming twice trims nothing more. */
  lemma TrimIdempotent(s: string)
    ensures Trim(Trim(s)) == Trim(s)
  {
    var r := Trim(s);
    TrimStartSpec(s, IsWhitespace);
    TrimEndSpec(TrimStart(s, IsWhitespace), IsWhitespace);
    if r != [] {
      assert !IsWhitespace(r[0]) && !IsWhitespace(r[|r| - 1]);
      assert TrimStart(r, IsWhitespace) == r;
      assert TrimEnd(r, IsWhitespace) == r;
    }
  }

  // ------------------------------------------------------------ searching

  /** Index of the first `c` (`indexOf(c)`, with `-1` as `None`). */
  function IndexOf(s: string, c: char): (r: Option<nat>)
    ensures r.None? <==> HasNo(s, c)
    ensures r.Some? ==> r.value < |s| && s[r.value] == c && HasNo(s[..r.value], c)
  {
    if s == [] then None
    else if s[0] == c then Some(0)
    else match IndexOf(s[1..], c)
      case None => None
      case Some(i) => Some(i + 1)
  }

  /** Index of the last `c` (`lastIndexOf(c)`, with `-1` as `None`). */
  function LastIndexOf(s: string, c: char): (r: Option<nat>)
    ensures r.None? <==> HasNo(s, c)
    ensures r.Some? ==> r.value < |s| && s[r.value] == c && HasNo(s[r.value + 1..], c)
  {
    if s == [] then None
    else if s[|s| - 1] == c then Some(|s| - 1)
    else LastIndexOf(s[..|s| - 1], c)
  }

  /** Kotlin `substringAfterLast(c)`: whole string when `c` is absent. */
  function SubstringAfterLast(s: string, c: char): (r: string)
    ensures HasNo(r, c) && |r| <= |s|
  {
    match LastIndexOf(s, c)
    case None => s
    case Some(i) => s[i + 1..]
  }

  /** `substringAfterLast` keeps a suffix, so it brings in no new character. */
  lemma SubstringAfterLastKeeps(s: string, c: char, d: char)
    requires HasNo(s, d)
    ensures HasNo(SubstringAfterLast(s, c), d)
  {
    match LastIndexOf(s, c)
    case None =>
    case Some(i) => SliceHasNo(s, i + 1, |s|, d);
  }

  /** `substringAfterLast` keeps the whole string or the suffix right after a `c`. */
  lemma SubstringAfterLastSpec(s: string, c: char)
    ensures var r := SubstringAfterLast(s, c);
      r == s[|s| - |r|..] && (|r| == |s| || s[|s| - |r| - 1] == c)
  {
  }

  /** The text after the last `c` of `a + [c] + b` is `b` when `b` holds no `c`. */
  lemma SubstringAfterLastSplit(a: string, c: char, b: string)
    requires HasNo(b, c)
    ensures SubstringAfterLast(a + [c] + b, c) == b
  {
    SubstringBeforeLastSplit(a, c, b);
    assert (a + [c] + b)[|a| + 1..] == b;
  }

  /** Kotlin `substringBefore(c)`: whole string when `c` is absent. */
  function SubstringBefore(s: string, c: char): (r: string)
    ensures HasNo(r, c) && |r| <= |s|
  {
    match IndexOf(s, c)
    case None => s
    case Some(i) => s[..i]
  }

  /** `substringBefore` keeps a prefix, so it brings in no new character. */
  lemma SubstringBeforeKeeps(s: string, c: char, d: char)
    requires HasNo(s, d)
    ensures HasNo(SubstringBefore(s, c), d)
  {
    match IndexOf(s, c)
    case None =>
    case Some(i) => SliceHasNo(s, 0, i, d);
  }

  /** `substringBefore` keeps the whole string or the prefix right before a `c`. */
  lemma SubstringBeforeSpec(s: string, c: char)
    ensures var r := SubstringBefore(s, c);
      r == s[..|r|] && (|r| == |s| || s[|r|] == c)
  {
  }

  /** The text before the first `c` of `a + [c] + x` is `a` when `a` holds no `c`. */
  lemma {:induction false} SubstringBeforeFirst(a: string, c: char, x: string)
    requires HasNo(a, c)
    ensures IndexOf(a + [c] + x, c) == Some(|a|)
    ensures SubstringBefore(a + [c] + x, c) == a
  {
    var s := a + [c] + x;
    if a != [] {
      assert s[0] == a[0] && s[1..] == a[1..] + [c] + x;
      SubstringBeforeFirst(a[1..], c, x);
    }
    assert s[..|a|] == a;
  }

  /** Kotlin `substringBeforeLast(c)` (missing value: the whole string). */
  function SubstringBeforeLast(s: string, c: char): (r: string)
    ensures |r| <= |s|
  {
    match LastIndexOf(s, c)
    case None => s
    case Some(i) => s[..i]
  }

  /** The last `c` of `a + [c] + b` is the one after `a` when `b` holds no `c`. */
  lemma {:induction false} SubstringBeforeLastSplit(a: string, c: char, b: string)
    requires HasNo(b, c)
    ensures LastIndexOf(a + [c] + b, c) == Some(|a|)
    ensures SubstringBeforeLast(a + [c] + b, c) == a
  {
    var s := a + [c] + b;
    if b == [] {
      assert s[|s| - 1] == c;
    } else {
      var b' := b[..|b| - 1];
      assert s[|s| - 1] == b[|b| - 1] != c;
      assert s[..|s| - 1] == a + [c] + b';
      SliceHasNo(b, 0, |b| - 1, c);
      SubstringBeforeLastSplit(a, c, b');
    }
    assert s[..|a|] == a;
  }

  /** A suffix or a prefix taken from a string keeps every absent character absent. */
  lemma SliceHasNo(s: string, i: nat, j: nat, c: char)
    requires i <= j <= |s| && HasNo(s, c)
    ensures HasNo(s[i..j], c)
  {
    assert forall k :: 0 <= k < j - i ==> s[i..j][k] == s[i + k];
  }

  predicate StartsWith(s: string, p: string)
  {
    |p| <= |s| && s[..|p|] == p
  }

  predicate EndsWith(s: string, p: string)
  {
    |p| <= |s| && s[|s| - |p|..] == p
  }

  /** Kotlin `contains(pat)`. */
  predicate Contains(s: string, pat: string)
    decreases |s|
  {
    StartsWith(s, pat) || (s != [] && Contains(s[1..], pat))
  }

  /**
   * Kotlin `replace(pat, rep)`: every non-overlapping occurrence, found
   * left to right, is replaced.
   */
  function ReplaceAll(s: string, pat: string, rep: string): string
    requires |pat| > 0
    decreases |s|
  {
    if |s| < |pat| then s
    else if s[..|pat|] == pat then rep + ReplaceAll(s[|pat|..], pat, rep)
    else [s[0]] + ReplaceAll(s[1..], pat, rep)
  }

  /** Kotlin `padStart(width, c)`. */
  function PadStart(s: string, width: nat, c: char): (r: string)
    ensures |s| >= width ==> r == s
    ensures |s| < width ==> |r| == width && r[width - |s|..] == s
    ensures forall k :: 0 <= k < |r| - |s| ==> r[k] == c
  {
    if |s| >= width then s else [c] + PadStart(s, width - 1, c)
  }

  // ------------------------------------------------- lexicographic order

  /** `a.compareTo(b) <= 0` for Kotlin strings: char by char, a prefix first. */
  predicate LexLe(a: string, b: string)
  {
    if a == [] then true
    else if b == [] then false
    else if a[0] != b[0] then a[0] < b[0]
    else LexLe(a[1..], b[1..])
  }

  predicate LexLess(a: string, b: string)
  {
    LexLe(a, b) && a != b
  }

  lemma {:induction false} LexLeTotal(a: string, b: string)
    ensures LexLe(a, b) || LexLe(b, a)
  {
    if a != [] && b != [] && a[0] == b[0] { LexLeTotal(a[1..], b[1..]); }
  }

  lemma {:induction false} LexLeAntisym(a: string, b: string)
    requires LexLe(a, b) && LexLe(b, a)
    ensures a == b
  {
    if a != [] && b != [] {
      LexLeAntisym(a[1..], b[1..]);
      assert a == [a[0]] + a[1..] && b == [b[0]] + b[1..];
    }
  }

  lemma {:induction false} LexLeTrans(a: string, b: string, c: string)
    requires LexLe(a, b) && LexLe(b, c)
    ensures LexLe(a, c)
  {
    if a != [] && b != [] && c != [] && a[0] == b[0] && b[0] == c[0] {
      LexLeTrans(a[1..], b[1..], c[1..]);
    }
  }

  /** A common prefix does not change the order. */
  lemma {:induction false} LexLeCommonPrefix(p: string, a: string, b: string)
    ensures LexLe(p + a, p + b) == LexLe(a, b)
  {
    if p != [] {
      assert (p + a)[0] == p[0] == (p + b)[0];
      assert (p + a)[1..] == p[1..] + a && (p + b)[1..] == p[1..] + b;
      LexLeCommonPrefix(p[1..], a, b);
    } else {
      assert p + a == a && p + b == b;
    }
  }

  // ------------------------------------------------- decimal numerals

  function Pow10(n: nat): (r: nat)
    ensures r >= 1
  {
    if n == 0 then 1 else 10 * Pow10(n - 1)
  }

  /** Value of a string of decimal digits, most significant first. */
  function DigitsValue(s: string): (v: nat)
    requires AllDigits(s)
    ensures v < Pow10(|s|)
  {
    if s == [] then 0
    else
      var d, p, rest := DigitVal(s[0]), Pow10(|s| - 1), DigitsValue(s[1..]);
      DigitBound(d, p, rest);
      d * p + rest
  }

  lemma DigitBound(d: int, p: int, rest: int)
    requires 0 <= d < 10 && 0 <= rest < p
    ensures 0 <= d * p + rest < 10 * p
  {
    assert d * p <= 9 * p;
  }

  lemma AllDigitsSnoc(s: string, c: char)
    requires AllDigits(s) && IsDigit(c)
    ensures AllDigits(s + [c])
  {
    assert forall k :: 0 <= k < |s| ==> (s + [c])[k] == s[k];
  }

  lemma {:induction false} DigitsValueSnoc(s: string, c: char)
    requires AllDigits(s) && IsDigit(c)
    ensures AllDigits(s + [c]) && DigitsValue(s + [c]) == DigitsValue(s) * 10 + DigitVal(c)
  {
    AllDigitsSnoc(s, c);
    if s != [] {
      var t := s + [c];
      assert t[0] == s[0] && t[1..] == s[1..] + [c];
      DigitsValueSnoc(s[1..], c);
      var d, p, rest := DigitVal(s[0]), Pow10(|s| - 1), DigitsValue(s[1..]);
      assert DigitsValue(t) == d * Pow10(|s|) + rest * 10 + DigitVal(c);
      assert Pow10(|s|) == 10 * p;
      ShiftDigit(d, p, rest);
    } else {
      assert s + [c] == [c];
    }
  }

  lemma ShiftDigit(d: int, p: int, rest: int)
    ensures d * (10 * p) + rest * 10 == (d * p + rest) * 10
  {
  }

  /** A larger leading digit outweighs any tail. */
  lemma HeadDominates(da: int, db: int, p: int, ra: int, rb: int)
    requires 0 <= db < da && 0 <= ra && 0 <= rb < p
    ensures db * p + rb < da * p + ra
  {
    assert (db + 1) * p <= da * p;
  }

  /** `Int.toString()` for a non-negative value: no leading zeros. */
  function NatToString(n: nat): (r: string)
    ensures |r| > 0 && AllDigits(r)
  {
    if n < 10 then [DigitChar(n)]
    else
      AllDigitsSnoc(NatToString(n / 10), DigitChar(n % 10));
      NatToString(n / 10) + [DigitChar(n % 10)]
  }

  /** The rendered digits denote the number. */
  lemma {:induction false} NatToStringValue(n: nat)
    ensures DigitsValue(NatToString(n)) == n
  {
    if n >= 10 {
      NatToStringValue(n / 10);
      DigitsValueSnoc(NatToString(n / 10), DigitChar(n % 10));
    } else {
      assert NatToString(n) == [DigitChar(n)];
    }
  }

  /** Distinct numbers are rendered differently. */
  lemma NatToStringInjective(m: nat, n: nat)
    requires NatToString(m) == NatToString(n)
    ensures m == n
  {
    NatToStringValue(m);
    NatToStringValue(n);
  }

  /** A number below `10^w` needs at most `w` digits. */
  lemma {:induction false} NatToStringLength(n: nat, w: nat)
    requires w >= 1 && n < Pow10(w)
    ensures |NatToString(n)| <= w
  {
    if n >= 10 {
      assert w >= 2;
      assert n / 10 < Pow10(w - 1);
      NatToStringLength(n / 10, w - 1);
    }
  }

  /** Leading zeros add nothing to a numeral's value. */
  lemma {:induction false} DigitsValueZeros(z: string, s: string)
    requires AllDigits(s) && forall k :: 0 <= k < |z| ==> z[k] == '0'
    ensures AllDigits(z + s) && DigitsValue(z + s) == DigitsValue(s)
  {
    if z != [] {
      var t := z + s;
      assert t[0] == '0' && t[1..] == z[1..] + s;
      DigitsValueZeros(z[1..], s);
      assert DigitVal(t[0]) == 0;
    } else {
      assert z + s == s;
    }
  }

  /** `n.toString().padStart(9, '0')`, the merge entry prefix. */
  function Pad9(n: nat): string
  {
    PadStart(NatToString(n), 9, '0')
  }

  lemma Pad9Shape(n: nat)
    requires n < 1_000_000_000
    ensures |Pad9(n)| == 9 && AllDigits(Pad9(n)) && DigitsValue(Pad9(n)) == n
  {
    var s := NatToString(n);
    NatToStringValue(n);
    assert Pow10(9) == 1_000_000_000;
    NatToStringLength(n, 9);
    var p := Pad9(n);
    var z := p[..|p| - |s|];
    assert p == z + s;
    DigitsValueZeros(z, s);
  }

  /**
   * Equal-length digit strings are ordered as the numbers they denote,
   * whatever follows them.
   */
  lemma {:induction false} DigitsOrder(a: string, b: string, x: string, y: string)
    requires |a| == |b| && AllDigits(a) && AllDigits(b) && DigitsValue(a) < DigitsValue(b)
    ensures LexLess(a + x, b + y)
  {
    var e := |a| - 1;
    var ax, bq := a + x, b + y;
    assert ax[0] == a[0] && bq[0] == b[0];
    if a[0] == b[0] {
      assert DigitsValue(a[1..]) < DigitsValue(b[1..]);
      DigitsOrder(a[1..], b[1..], x, y);
      assert ax[1..] == a[1..] + x && bq[1..] == b[1..] + y;
    } else if a[0] > b[0] {
      HeadDominates(DigitVal(a[0]), DigitVal(b[0]), Pow10(e), DigitsValue(a[1..]), DigitsValue(b[1..]));
      assert false;
    }
  }

  /** Merge prefixes of smaller indices sort first, whatever follows them. */
  lemma Pad9Order(i: nat, j: nat, x: string, y: string)
    requires i < j < 1_000_000_000
    ensures LexLess(Pad9(i) + x, Pad9(j) + y)
  {
    Pad9Shape(i);
    Pad9Shape(j);
    DigitsOrder(Pad9(i), Pad9(j), x, y);
  }

  // ------------------------------------------------------ toIntOrNull

  const MinInt: int := -0x8000_0000
  const MaxInt: int := 0x7FFF_FFFF

  /**
   * Kotlin `String.toIntOrNull()`: an optional `+`/`-`, at least one digit,
   * and a value inside the 32-bit `Int` range.
   */
  function ParseInt(s: string): (r: Option<int>)
    ensures r.Some? ==> MinInt <= r.value <= MaxInt
    ensures r.Some? ==> |s| > 0
  {
    if |s| == 0 then None
    else
      var negative := s[0] == '-';
      var digits := if s[0] == '-' || s[0] == '+' then s[1..] else s;
      if digits == [] || !AllDigits(digits) then None
      else
        var v: int := if negative then -(DigitsValue(digits) as int) else DigitsValue(digits);
        if MinInt <= v <= MaxInt then Some(v) else None
  }

  /** `toIntOrNull` reads back what `toString` wrote. */
  lemma ParseIntRoundTrip(n: int)
    requires MinInt <= n <= MaxInt
    ensures ParseInt(IntToString(n)) == Some(n)
  {
    if n >= 0 {
      NatToStringValue(n);
    } else {
      NatToStringValue(-n);
      assert ("-" + NatToString(-n))[1..] == NatToString(-n);
    }
  }

  /** Kotlin `Int.toString()`. */
  function IntToString(n: int): (r: string)
    ensures |r| > 0
    ensures n >= 0 ==> AllDigits(r)
    ensures n < 0 ==> r[0] == '-' && AllDigits(r[1..])
  {
    if n >= 0 then NatToString(n) else "-" + NatToString(-n)
  }
}
