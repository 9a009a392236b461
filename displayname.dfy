/**
 * The display-name cleaning of `ContextHelper.getFileName`: every name the
 * system can offer for a picked document is URL-decoded, stripped of
 * noise, cut down to its last path segment, freed of query and fragment,
 * unquoted and trimmed; the first that still reads like a real file name
 * wins, and "Unknown" is the fallback.
 */
module DisplayName {
  import opened Wrappers
  import opened Strings

  /**
   * What the Android storage layer reports about a document: the URI's
   * scheme, its path (absent for opaque URIs), its string form, the
   * provider's `DISPLAY_NAME` column (absent when the query or the column
   * fails) and the `DocumentFileCompat` name (absent when it cannot resolve).
   */
  datatype Uri = Uri(scheme: string, path: Option<string>, text: string)

  const Fallback: string := "Unknown"

  // --------------------------------------------------------------- steps

  /** `replace('\u0000', ' ')`. */
  function NulToSpace(s: string): (r: string)
    ensures |r| == |s| && HasNo(r, '\0')
    ensures forall k :: 0 <= k < |s| ==> r[k] == (if s[k] == '\0' then ' ' else s[k])
  {
    if s == [] then [] else [if s[0] == '\0' then ' ' else s[0]] + NulToSpace(s[1..])
  }

  /** `stripNoise`: NUL characters become spaces, then the ends are trimmed. */
  function StripNoise(s: string): (r: string)
    ensures HasNo(r, '\0')
  {
    TrimByChars(NulToSpace(s), IsWhitespace, '\0');
    Trim(NulToSpace(s))
  }

  /** `lastPathishSegment`: the text after the last '/', then after the last ':'. */
  function LastPathishSegment(s: string): (r: string)
    ensures HasNo(r, '/') && HasNo(r, ':')
  {
    var a := SubstringAfterLast(s, '/');
    SubstringAfterLastKeeps(a, ':', '/');
    SubstringAfterLast(a, ':')
  }

  /** `trimQueryAndFrag`: the text before the first '?', then before the first '#'. */
  function TrimQueryAndFrag(s: string): (r: string)
    ensures HasNo(r, '?') && HasNo(r, '#')
  {
    var a := SubstringBefore(s, '?');
    SubstringBeforeKeeps(a, '#', '?');
    SubstringBefore(a, '#')
  }

  /**
   * The segment is a suffix of `s` that is the whole of `s` or starts right
   * after a '/' or a ':'; with no '/' or ':' in it, it is the longest such
   * suffix.
   */
  lemma LastPathishSegmentSpec(s: string)
    ensures var r := LastPathishSegment(s);
      r == s[|s| - |r|..] && (|r| == |s| || s[|s| - |r| - 1] in {'/', ':'})
  {
    var a := SubstringAfterLast(s, '/');
    SubstringAfterLastSpec(s, '/');
    SubstringAfterLastSpec(a, ':');
    var r := SubstringAfterLast(a, ':');
    assert s[|s| - |a|..][|a| - |r|..] == s[|s| - |r|..];
    if |r| < |a| {
      assert s[|s| - |r| - 1] == a[|a| - |r| - 1];
    }
  }

  /**
   * The trimmed text is a prefix of `s` that is the whole of `s` or ends
   * right before a '?' or a '#'; with no '?' or '#' in it, it is the
   * longest such prefix.
   */
  lemma TrimQueryAndFragSpec(s: string)
    ensures var r := TrimQueryAndFrag(s);
      r == s[..|r|] && (|r| == |s| || s[|r|] in {'?', '#'})
  {
    var a := SubstringBefore(s, '?');
    SubstringBeforeSpec(s, '?');
    SubstringBeforeSpec(a, '#');
    var r := SubstringBefore(a, '#');
    assert s[..|a|][..|r|] == s[..|r|];
    if |r| < |a| {
      assert s[|r|] == a[|r|];
    }
  }

  /** The tree path of the display-name test names "MyComic.pdf", with no query or fragment to cut. */
  lemma PathSegmentExample(s: string)
    requires s == "/tree/primary:Download/MyComic.pdf"
    ensures LastPathishSegment(s) == "MyComic.pdf"
    ensures TrimQueryAndFrag("MyComic.pdf") == "MyComic.pdf"
  {
    var b := "MyComic.pdf";
    assert s == "/tree/primary:Download" + ['/'] + b;
    assert HasNo(b, '/') && HasNo(b, ':') && HasNo(b, '?') && HasNo(b, '#');
    SubstringAfterLastSplit("/tree/primary:Download", '/', b);
  }

  /** `trimQueryAndFrag` keeps a prefix, so it brings in no new character. */
  lemma TrimQueryAndFragKeeps(s: string, d: char)
    requires HasNo(s, d)
    ensures HasNo(TrimQueryAndFrag(s), d)
  {
    SubstringBeforeKeeps(s, '?', d);
    SubstringBeforeKeeps(SubstringBefore(s, '?'), '#', d);
  }

  predicate IsQuote(c: char)
  {
    c == '"' || c == '\''
  }

  /** `trimQuotes`: whitespace trimmed, then every leading and trailing quote. */
  function TrimQuotes(s: string): (r: string)
    ensures r == [] || (!IsQuote(r[0]) && !IsQuote(r[|r| - 1]))
  {
    TrimStartSpec(Trim(s), IsQuote);
    TrimEndSpec(TrimStart(Trim(s), IsQuote), IsQuote);
    TrimBy(Trim(s), IsQuote)
  }

  /** Unquoting and trimming bring in no character that was not there. */
  lemma TrimQuotesKeepsOut(s: string, c: char)
    requires HasNo(s, c)
    ensures HasNo(Trim(TrimQuotes(s)), c)
  {
    TrimByChars(s, IsWhitespace, c);
    TrimByChars(Trim(s), IsQuote, c);
    TrimByChars(TrimQuotes(s), IsWhitespace, c);
  }

  /** None of the separators `getFileName` cuts at. */
  predicate NoSeparators(s: string)
  {
    HasNo(s, '/') && HasNo(s, ':') && HasNo(s, '?') && HasNo(s, '#')
  }

  /** The chain of `map` steps one candidate goes through, after decoding. */
  function Clean(s: string): (r: string)
    ensures NoSeparators(r)
  {
    var b := LastPathishSegment(StripNoise(s));
    var c := TrimQueryAndFrag(b);
    TrimQueryAndFragKeeps(b, '/');
    TrimQueryAndFragKeeps(b, ':');
    TrimQuotesKeepsOut(c, '/');
    TrimQuotesKeepsOut(c, ':');
    TrimQuotesKeepsOut(c, '?');
    TrimQuotesKeepsOut(c, '#');
    Trim(TrimQuotes(c))
  }

  // ------------------------------------------------------ isMeaningful

  predicate IsSeparator(c: char)
  {
    c == '-' || c == '_' || IsRegexSpace(c)
  }

  /**
   * `replace(Regex("\\s*\\(\\d+\\)$"), "")`: a trailing "(digits)" and the
   * blanks before it go; anything else is left alone.
   */
  function DropCopyCounter(s: string): (r: string)
    ensures |r| <= |s|
  {
    if s == [] || s[|s| - 1] != ')' then s
    else
      var u := s[..|s| - 1];
      var d := TrimEnd(u, IsDigit);
      if |d| == |u| || d == [] || d[|d| - 1] != '(' then s
      else TrimEnd(d[..|d| - 1], IsRegexSpace)
  }

  /**
   * `replace(Regex("[-_\\s]*\\d+$"), "")`: trailing digits and the
   * separators before them go; anything else is left alone.
   */
  function DropTrailingNumber(s: string): (r: string)
    ensures |r| <= |s|
    ensures s == [] || !IsDigit(s[|s| - 1]) ==> r == s
  {
    var d := TrimEnd(s, IsDigit);
    if |d| == |s| then s else TrimEnd(d, IsSeparator)
  }

  /** The part of a name `isMeaningful` looks at. */
  function MeaningBase(name: string): (r: string)
    ensures |r| <= |name|
  {
    Trim(DropTrailingNumber(DropCopyCounter(SubstringBeforeLast(Lower(name), '.'))))
  }


  /** `base == p || base.startsWith("p ") || base.startsWith("p_") || base.startsWith("p-")`. */
  predicate IsPlaceholderFor(base: string, p: string)
  {
    base == p || StartsWith(base, p + " ") || StartsWith(base, p + "_") || StartsWith(base, p + "-")
  }

  /** `placeholders.none { ... }` over the six generic names. */
  predicate NoPlaceholder(base: string)
  {
    && !IsPlaceholderFor(base, "document") && !IsPlaceholderFor(base, "file")
    && !IsPlaceholderFor(base, "download") && !IsPlaceholderFor(base, "content")
    && !IsPlaceholderFor(base, "item") && !IsPlaceholderFor(base, "untitled")
  }

  /** `isMeaningful`: a non-blank base that is no generic placeholder. */
  predicate IsMeaningful(name: string): (b: bool)
    ensures b ==> name != []
  {
    var base := MeaningBase(name);
    !IsBlank(base) && NoPlaceholder(base)
  }

  // ------------------------------------------------------- getFileName

  /**
   * `scheme.equals("content", ignoreCase = true)`; "content" is already
   * lower case, so only the scheme needs folding.
   */
  predicate IsContentScheme(scheme: string)
  {
    Lower(scheme) == "content"
  }

  /**
   * The `buildList` of raw candidates, in order, with the absent ones
   * dropped by `mapNotNull` and the rest URL-decoded by `decode`.
   */
  function RawCandidates(uri: Uri, displayName: Option<string>, documentName: Option<string>,
                         decode: string -> string): (r: seq<string>)
    ensures |r| >= 1 && r[|r| - 1] == decode(uri.text)
  {
    var shown := if IsContentScheme(uri.scheme) && displayName.Some? then [decode(displayName.value)] else [];
    var doc := if documentName.Some? then [decode(documentName.value)] else [];
    var path := if uri.path.Some? then [decode(uri.path.value)] else [];
    shown + doc + path + [decode(uri.text)]
  }

  /** `map(clean).filter(String::isNotBlank)`. */
  function CleanAll(raw: seq<string>): (r: seq<string>)
    ensures forall k :: 0 <= k < |r| ==> !IsBlank(r[k]) && NoSeparators(r[k])
  {
    if raw == [] then []
    else
      var c, rest := Clean(raw[0]), CleanAll(raw[1..]);
      if IsBlank(c) then rest
      else
        assert forall k :: 0 < k <= |rest| ==> ([c] + rest)[k] == rest[k - 1];
        [c] + rest
  }

  /** `firstOrNull(p)`: the index of the first element satisfying `p`. */
  function FirstWhere(cs: seq<string>, p: string -> bool): (r: Option<nat>)
    ensures r.Some? ==> r.value < |cs| && p(cs[r.value])
    ensures r.Some? ==> forall k :: 0 <= k < r.value ==> !p(cs[k])
    ensures r.None? <==> forall k :: 0 <= k < |cs| ==> !p(cs[k])
    ensures forall i :: 0 <= i < |cs| && p(cs[i]) && (forall k :: 0 <= k < i ==> !p(cs[k])) ==> r == Some(i)
  {
    if cs == [] then None
    else if p(cs[0]) then Some(0)
    else match FirstWhere(cs[1..], p)
      case None => None
      case Some(i) => Some(i + 1)
  }

  /**
   * `getFileName`: "Unknown", or a non-blank, meaningful name with no
   * path, volume, query or fragment separator left in it.
   */
  function GetFileName(uri: Uri, displayName: Option<string>, documentName: Option<string>,
                       decode: string -> string): (r: string)
    ensures r == Fallback
      || (!IsBlank(r) && IsMeaningful(r) && NoSeparators(r))
  {
    var cs := CleanAll(RawCandidates(uri, displayName, documentName, decode));
    match FirstWhere(cs, IsMeaningful)
    case Some(i) => cs[i]
    case None => Fallback
  }

  /**
   * The fallback is taken exactly when no cleaned candidate is
   * meaningful, and otherwise every candidate offered earlier was rejected.
   */
  lemma GetFileNameFirst(uri: Uri, displayName: Option<string>, documentName: Option<string>, decode: string -> string)
    ensures var cs := CleanAll(RawCandidates(uri, displayName, documentName, decode));
      var r := GetFileName(uri, displayName, documentName, decode);
      && ((forall k :: 0 <= k < |cs| ==> !IsMeaningful(cs[k])) ==> r == Fallback)
      && (forall i :: 0 <= i < |cs| && IsMeaningful(cs[i]) && (forall k :: 0 <= k < i ==> !IsMeaningful(cs[k])) ==> r == cs[i])
  {
  }


  /** A name with no upper-case letter is its own lower-case form. */
  lemma {:induction false} LowerNoUpper(s: string)
    requires forall k :: 0 <= k < |s| ==> !('A' <= s[k] <= 'Z')
    ensures Lower(s) == s
  {
  }

  /** A name with no digit at its end and no blank at either end is its own base. */
  lemma PlainBase(s: string)
    requires s != [] && !IsDigit(s[|s| - 1]) && s[|s| - 1] != ')'
    requires !IsWhitespace(s[0]) && !IsWhitespace(s[|s| - 1])
    ensures Trim(DropTrailingNumber(DropCopyCounter(s))) == s
  {
    assert TrimStart(s, IsWhitespace) == s;
    assert TrimEnd(s, IsWhitespace) == s;
  }

  /**
   * A lower-cased name `stem.ext` whose extension has no dot and whose stem
   * ends in no digit, ')' or blank has the stem as its base.
   */
  lemma StemBase(name: string, stem: string, ext: string)
    requires Lower(name) == stem + ['.'] + ext && HasNo(ext, '.')
    requires stem != [] && !IsDigit(stem[|stem| - 1]) && stem[|stem| - 1] != ')'
    requires !IsWhitespace(stem[0]) && !IsWhitespace(stem[|stem| - 1])
    ensures MeaningBase(name) == stem
  {
    SubstringBeforeLastSplit(stem, '.', ext);
    PlainBase(stem);
  }

  /** "document.pdf", the display name of the unit test, is a placeholder. */
  lemma DocumentIsPlaceholder(name: string)
    requires name == "document.pdf"
    ensures !IsMeaningful(name)
  {
    var stem := "document";
    LowerNoUpper(name);
    assert name == stem + ['.'] + "pdf";
    StemBase(name, stem, "pdf");
    assert IsPlaceholderFor(stem, "document");
  }

  /** "MyComic.pdf" is a meaningful name. */
  lemma MyComicIsMeaningful(name: string)
    requires name == "MyComic.pdf"
    ensures IsMeaningful(name)
  {
    var stem := "mycomic";
    var lowered := stem + ['.'] + "pdf";
    assert |Lower(name)| == |lowered|;
    assert forall k :: 0 <= k < |name| ==> Lower(name)[k] == LowerChar(name[k]) == lowered[k];
    assert Lower(name) == lowered;
    StemBase(name, stem, "pdf");
    assert !IsBlank(stem) by { assert !IsWhitespace(stem[0]); }
    FirstCharDiffers(stem, "document");
    FirstCharDiffers(stem, "file");
    FirstCharDiffers(stem, "download");
    FirstCharDiffers(stem, "content");
    FirstCharDiffers(stem, "item");
    FirstCharDiffers(stem, "untitled");
  }

  /**
   * "unknown.pdf" counts as meaningful: unlike the placeholder check of
   * the view model, this list has no "unknown".
   */
  lemma UnknownIsMeaningful(name: string)
    requires name == "unknown.pdf"
    ensures IsMeaningful(name)
  {
    var stem := "unknown";
    LowerNoUpper(name);
    assert name == stem + ['.'] + "pdf";
    StemBase(name, stem, "pdf");
    UnknownNoPlaceholder(stem);
  }

  lemma UnknownNoPlaceholder(stem: string)
    requires stem == "unknown"
    ensures !IsBlank(stem) && NoPlaceholder(stem)
  {
    assert !IsWhitespace(stem[0]);
    FirstCharDiffers(stem, "document");
    FirstCharDiffers(stem, "file");
    FirstCharDiffers(stem, "download");
    FirstCharDiffers(stem, "content");
    FirstCharDiffers(stem, "item");
    assert |stem| < |"untitled"|;
  }

  /** A base whose first letter differs from a placeholder's is not that placeholder. */
  lemma FirstCharDiffers(base: string, p: string)
    requires base != [] && p != [] && base[0] != p[0]
    ensures !IsPlaceholderFor(base, p)
  {
    assert (p + " ")[0] == (p + "_")[0] == (p + "-")[0] == p[0];
  }
}
