/**
 * `extractChapterNumber` of the view model: the leftmost match of the
 * pattern `(\d+(?:[.,]\d+)?)(?!.*\d)`, together with the numeric reading
 * of a chapter (`ch.replace(',', '.').toDoubleOrNull()`) and the first
 * minimum and first maximum that `minByOrNull` / `maxByOrNull` pick.
 */
module Chapters {
  import opened Wrappers
  import opened Strings

  predicate IsChapterSep(c: char)
  {
    c == '.' || c == ','
  }

  /** Every character of `s[i..j]` is a decimal digit. */
  predicate DigitsBetween(s: string, i: nat, j: nat)
    requires i <= j <= |s|
  {
    forall k :: i <= k < j ==> IsDigit(s[k])
  }

  /** The negative look-ahead `(?!.*\d)`: no digit from `k` on. */
  predicate NoDigitFrom(s: string, k: nat)
  {
    forall j :: k <= j < |s| ==> !IsDigit(s[j])
  }

  /** `s[p..e]` has the form `\d+` or `\d+[.,]\d+`. */
  predicate ChapterShape(s: string, p: nat, e: nat)
  {
    && p < e <= |s|
    && (|| DigitsBetween(s, p, e)
        || exists q :: p < q && q + 1 < e && IsChapterSep(s[q]) && DigitsBetween(s, p, q) && DigitsBetween(s, q + 1, e))
  }

  /** The whole pattern matches exactly `s[p..e]`. */
  predicate ChapterMatch(s: string, p: nat, e: nat)
  {
    ChapterShape(s, p, e) && NoDigitFrom(s, e)
  }

  /** End of the maximal run of digits that starts at `p` (greedy `\d+`). */
  function RunEnd(s: string, p: nat): (e: nat)
    requires p <= |s|
    ensures p <= e <= |s| && DigitsBetween(s, p, e) && (e == |s| || !IsDigit(s[e]))
    decreases |s| - p
  {
    if p < |s| && IsDigit(s[p]) then RunEnd(s, p + 1) else p
  }

  /**
   * The regex engine started at `p`: greedy digits, the optional
   * fraction tried first, then the look-ahead. Backtracking into a
   * shorter run never helps, since a digit would then follow.
   */
  function MatchEnd(s: string, p: nat): (r: Option<nat>)
    requires p <= |s|
    ensures r.Some? ==> ChapterMatch(s, p, r.value)
  {
    var k := RunEnd(s, p);
    if k == p then None
    else if k + 1 < |s| && IsChapterSep(s[k]) && IsDigit(s[k + 1]) then
      var m := RunEnd(s, k + 1);
      if NoDigitFrom(s, m) then Some(m) else None
    else if NoDigitFrom(s, k) then Some(k) else None
  }

  /** Whatever the pattern can match at `p`, the engine finds. */
  lemma MatchEndComplete(s: string, p: nat, e: nat)
    requires p <= |s| && ChapterMatch(s, p, e)
    ensures MatchEnd(s, p) == Some(e)
  {
    var k := RunEnd(s, p);
    assert IsDigit(s[p]);
    if DigitsBetween(s, p, e) {
      assert k >= e;
      assert k <= e by {
        if e < |s| { assert !IsDigit(s[e]); }
      }
    } else {
      var q :| p < q && q + 1 < e && IsChapterSep(s[q]) && DigitsBetween(s, p, q) && DigitsBetween(s, q + 1, e);
      assert k <= q by { assert !IsDigit(s[q]); }
      assert IsDigit(s[k + 1]);
      var m := RunEnd(s, k + 1);
      assert m <= e by {
        if e < |s| { assert !IsDigit(s[e]); }
      }
    }
  }

  /**
   * `Regex.find`: the first start position, scanning from `p`, at which
   * the pattern matches, with the end of that match.
   */
  function FindFrom(s: string, p: nat): (r: Option<(nat, nat)>)
    requires p <= |s|
    ensures r.Some? ==> p <= r.value.0 && ChapterMatch(s, r.value.0, r.value.1)
    ensures r.Some? ==> forall q :: p <= q < r.value.0 ==> MatchEnd(s, q).None?
    ensures r.None? ==> forall q :: p <= q <= |s| ==> MatchEnd(s, q).None?
    decreases |s| - p
  {
    match MatchEnd(s, p)
    case Some(e) => Some((p, e))
    case None => if p == |s| then None else FindFrom(s, p + 1)
  }

  /** `extractChapterNumber(name)`: the matched text, or `null`. */
  function ExtractChapterNumber(name: string): (r: Option<string>)
    ensures r.Some? ==> |r.value| > 0 && IsDigit(r.value[0]) && IsDigit(r.value[|r.value| - 1])
  {
    match FindFrom(name, 0)
    case None => None
    case Some((p, e)) =>
      assert IsDigit(name[p]) && IsDigit(name[e - 1]);
      Some(name[p..e])
  }

  /** A digit at `j` guarantees a match at `j` or later: the last digit matches. */
  lemma {:induction false} MatchAtOrAfter(s: string, j: nat)
    requires j < |s| && IsDigit(s[j])
    ensures exists q :: j <= q <= |s| && MatchEnd(s, q).Some?
    decreases |s| - j
  {
    if NoDigitFrom(s, j + 1) {
      assert RunEnd(s, j) == j + 1 by {
        assert RunEnd(s, j) >= j + 1;
      }
      assert MatchEnd(s, j) == Some(j + 1);
    } else {
      var j' :| j + 1 <= j' < |s| && IsDigit(s[j']);
      MatchAtOrAfter(s, j');
    }
  }

  /** A name has a chapter number exactly when it holds a digit. */
  lemma ChapterIffDigit(name: string)
    ensures ExtractChapterNumber(name).None? <==> NoDigitFrom(name, 0)
  {
    if !NoDigitFrom(name, 0) {
      var j :| 0 <= j < |name| && IsDigit(name[j]);
      MatchAtOrAfter(name, j);
    }
  }

  /** A match ends just after a digit. */
  lemma MatchEndsInDigit(s: string, p: nat, e: nat)
    requires ChapterShape(s, p, e)
    ensures IsDigit(s[e - 1])
  {
  }

  /**
   * Any match of the pattern starts no earlier than the one `find`
   * reports and ends where it ends, at the name's last digit.
   */
  lemma ChapterLeftmost(name: string, p': nat, e': nat)
    requires ChapterMatch(name, p', e')
    ensures FindFrom(name, 0).Some?
    ensures var (p, e) := FindFrom(name, 0).value;
      p <= p' && e == e' && ExtractChapterNumber(name) == Some(name[p..e])
  {
    MatchEndComplete(name, p', e');
    var (p, e) := FindFrom(name, 0).value;
    MatchEndsInDigit(name, p, e);
    MatchEndsInDigit(name, p', e');
  }

  /** "Ch 12.5" names chapter "12.5". */
  lemma ChapterExample(name: string)
    requires name == "Ch 12.5"
    ensures ExtractChapterNumber(name) == Some("12.5")
  {
    assert MatchEnd(name, 0).None? && MatchEnd(name, 1).None? && MatchEnd(name, 2).None?;
    assert RunEnd(name, 5) == 5 && RunEnd(name, 4) == 5 && RunEnd(name, 3) == 5;
    assert RunEnd(name, 7) == 7 && RunEnd(name, 6) == 7;
    assert MatchEnd(name, 3) == Some(7);
    assert name[3..7] == "12.5";
  }

  // ------------------------------------------------- numeric chapter value

  /** A non-negative decimal `num / 10^scale`. */
  datatype Decimal = Decimal(num: nat, scale: nat)

  /** `a < b` as real numbers. */
  predicate DecLess(a: Decimal, b: Decimal)
  {
    a.num * Pow10(b.scale) < b.num * Pow10(a.scale)
  }

  /** `a == b` as real numbers. */
  predicate DecSame(a: Decimal, b: Decimal)
  {
    a.num * Pow10(b.scale) == b.num * Pow10(a.scale)
  }

  /**
   * `t.replace(',', '.').toDoubleOrNull()` for the texts the pattern
   * produces: `d` or `d.f` (with `,` read as `.`); anything else is
   * `None` here.
   */
  function ParseChapter(t: string): (r: Option<Decimal>)
    ensures r.Some? ==> |t| > 0 && IsDigit(t[0]) && IsDigit(t[|t| - 1])
    ensures AllDigits(t) && t != [] ==> r == Some(Decimal(DigitsValue(t), 0))
  {
    if t == [] then None
    else if AllDigits(t) then Some(Decimal(DigitsValue(t), 0))
    else match IndexOfSep(t)
      case None => None
      case Some(q) =>
        var whole, frac := t[..q], t[q + 1..];
        if whole != [] && frac != [] && AllDigits(whole) && AllDigits(frac) then
          assert t[0] == whole[0] && t[|t| - 1] == frac[|frac| - 1];
          var w, scale := DigitsValue(whole), Pow10(|frac|);
          NatProduct(w, scale);
          Some(Decimal(w * scale + DigitsValue(frac), |frac|))
        else None
  }

  lemma NatProduct(a: nat, b: nat)
    ensures a * b >= 0
  {
  }

  /** Index of the first `.` or `,`. */
  function IndexOfSep(t: string): (r: Option<nat>)
    ensures r.Some? ==> r.value < |t| && IsChapterSep(t[r.value])
    ensures r.Some? ==> forall k :: 0 <= k < r.value ==> !IsChapterSep(t[k])
    ensures r.None? ==> forall k :: 0 <= k < |t| ==> !IsChapterSep(t[k])
  {
    if t == [] then None
    else if IsChapterSep(t[0]) then Some(0)
    else match IndexOfSep(t[1..])
      case None => None
      case Some(i) => Some(i + 1)
  }

  /** Every chapter number the pattern extracts has a numeric value. */
  lemma ChapterParses(name: string)
    requires ExtractChapterNumber(name).Some?
    ensures ParseChapter(ExtractChapterNumber(name).value).Some?
  {
    var (p, e) := FindFrom(name, 0).value;
    ShapeOfSlice(name, p, e);
    ShapeParses(name[p..e]);
  }

  /** The shape of a match carries over to the matched text on its own. */
  lemma ShapeOfSlice(s: string, p: nat, e: nat)
    requires ChapterShape(s, p, e)
    ensures ChapterShape(s[p..e], 0, e - p)
  {
    var t := s[p..e];
    assert forall k :: 0 <= k < |t| ==> t[k] == s[p + k];
    if !DigitsBetween(s, p, e) {
      var q :| p < q && q + 1 < e && IsChapterSep(s[q]) && DigitsBetween(s, p, q) && DigitsBetween(s, q + 1, e);
      assert IsChapterSep(t[q - p]) && DigitsBetween(t, 0, q - p) && DigitsBetween(t, q - p + 1, |t|);
    }
  }

  /** A text of the form `\d+` or `\d+[.,]\d+` has a numeric value. */
  lemma ShapeParses(t: string)
    requires ChapterShape(t, 0, |t|)
    ensures ParseChapter(t).Some?
  {
    if !DigitsBetween(t, 0, |t|) {
      var q :| 0 < q && q + 1 < |t| && IsChapterSep(t[q]) && DigitsBetween(t, 0, q) && DigitsBetween(t, q + 1, |t|);
      SeparatedShape(t, q);
    }
  }

  /** A text `\d+[.,]\d+` separated at `q`: not all digits, `q` is its first separator, digits on both sides. */
  lemma SeparatedShape(t: string, q: nat)
    requires 0 < q && q + 1 < |t| && IsChapterSep(t[q]) && DigitsBetween(t, 0, q) && DigitsBetween(t, q + 1, |t|)
    ensures !AllDigits(t) && IndexOfSep(t) == Some(q)
    ensures AllDigits(t[..q]) && AllDigits(t[q + 1..])
  {
    assert !AllDigits(t) by { assert !IsDigit(t[q]); }
    assert IndexOfSep(t) == Some(q) by {
      var r := IndexOfSep(t);
      assert r.Some? by { assert IsChapterSep(t[q]); }
      assert forall k :: 0 <= k < q ==> !IsChapterSep(t[k]);
    }
    var frac := t[q + 1..];
    assert forall k :: 0 <= k < |frac| ==> frac[k] == t[q + 1 + k];
  }

  /** Index of the first element of least value (`minByOrNull`). */
  function FirstMin(vs: seq<Decimal>): (i: nat)
    requires |vs| > 0
    ensures i < |vs|
    ensures forall j :: 0 <= j < |vs| ==> !DecLess(vs[j], vs[i])
    ensures forall j :: 0 <= j < i ==> DecLess(vs[i], vs[j])
  {
    if |vs| == 1 then 0
    else
      var m := FirstMin(vs[..|vs| - 1]);
      if DecLess(vs[|vs| - 1], vs[m]) then
        DecLessTrans(vs, |vs| - 1, m);
        |vs| - 1
      else m
  }

  /** Index of the first element of greatest value (`maxByOrNull`). */
  function FirstMax(vs: seq<Decimal>): (i: nat)
    requires |vs| > 0
    ensures i < |vs|
    ensures forall j :: 0 <= j < |vs| ==> !DecLess(vs[i], vs[j])
    ensures forall j :: 0 <= j < i ==> DecLess(vs[j], vs[i])
  {
    if |vs| == 1 then 0
    else
      var m := FirstMax(vs[..|vs| - 1]);
      if DecLess(vs[m], vs[|vs| - 1]) then
        DecLessTransUp(vs, |vs| - 1, m);
        |vs| - 1
      else m
  }

  /** A new strict minimum is below everything the old one was not above. */
  lemma DecLessTrans(vs: seq<Decimal>, n: nat, m: nat)
    requires m < n < |vs| && DecLess(vs[n], vs[m])
    requires forall j :: 0 <= j < n ==> !DecLess(vs[j], vs[m])
    ensures forall j :: 0 <= j < n ==> DecLess(vs[n], vs[j])
  {
    forall j | 0 <= j < n ensures DecLess(vs[n], vs[j]) {
      DecLessOfNotLess(vs[n], vs[m], vs[j]);
    }
  }

  lemma DecLessTransUp(vs: seq<Decimal>, n: nat, m: nat)
    requires m < n < |vs| && DecLess(vs[m], vs[n])
    requires forall j :: 0 <= j < n ==> !DecLess(vs[m], vs[j])
    ensures forall j :: 0 <= j < n ==> DecLess(vs[j], vs[n])
  {
    forall j | 0 <= j < n ensures DecLess(vs[j], vs[n]) {
      NotLessOfDecLess(vs[j], vs[m], vs[n]);
    }
  }

  /** `a < b` and `b <= c` give `a < c`. */
  lemma DecLessOfNotLess(a: Decimal, b: Decimal, c: Decimal)
    requires DecLess(a, b) && !DecLess(c, b)
    ensures DecLess(a, c)
  {
    CrossChain(a.num, b.num, c.num, Pow10(a.scale), Pow10(b.scale), Pow10(c.scale));
  }

  /** `a <= b` and `b < c` give `a < c`. */
  lemma NotLessOfDecLess(a: Decimal, b: Decimal, c: Decimal)
    requires !DecLess(b, a) && DecLess(b, c)
    ensures DecLess(a, c)
  {
    CrossChainLe(a.num, b.num, c.num, Pow10(a.scale), Pow10(b.scale), Pow10(c.scale));
  }

  /** Cross-multiplied `x/pa < y/pb <= z/pc` gives `x/pa < z/pc`. */
  lemma CrossChain(x: int, y: int, z: int, pa: int, pb: int, pc: int)
    requires pa > 0 && pb > 0 && pc > 0
    requires x * pb < y * pa && y * pc <= z * pb
    ensures x * pc < z * pa
  {
    MulMono(x * pb, y * pa, pc);
    MulMonoLe(y * pc, z * pb, pa);
    Swap3(y, pa, pc);
    Swap3(x, pb, pc);
    Swap3(z, pb, pa);
    CancelLess(x * pc, z * pa, pb);
  }

  /** Cross-multiplied `x/pa <= y/pb < z/pc` gives `x/pa < z/pc`. */
  lemma CrossChainLe(x: int, y: int, z: int, pa: int, pb: int, pc: int)
    requires pa > 0 && pb > 0 && pc > 0
    requires x * pb <= y * pa && y * pc < z * pb
    ensures x * pc < z * pa
  {
    MulMonoLe(x * pb, y * pa, pc);
    MulMono(y * pc, z * pb, pa);
    Swap3(y, pa, pc);
    Swap3(x, pb, pc);
    Swap3(z, pb, pa);
    CancelLess(x * pc, z * pa, pb);
  }

  lemma Swap3(x: int, y: int, z: int)
    ensures x * y * z == x * z * y
  {
  }

  lemma MulMono(x: int, y: int, z: int)
    requires x < y && z > 0
    ensures x * z < y * z
  {
  }

  lemma MulMonoLe(x: int, y: int, z: int)
    requires x <= y && z >= 0
    ensures x * z <= y * z
  {
  }

  lemma CancelLess(x: int, y: int, z: int)
    requires x * z < y * z && z > 0
    ensures x < y
  {
  }
}
