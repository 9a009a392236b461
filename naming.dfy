/**
 * How the view model names its output PDFs (`getPdfFileNames` and
 * `isPlaceholderName`). The display name, the parent folder's name and
 * the Mihon parent map of each selected file are inputs.
 */
module Naming {
  import opened Wrappers
  import opened Strings
  import opened DisplayName
  import opened Chapters

  // ------------------------------------------------------ placeholders

  /** The generic names the view model refuses as a manga name. */
  predicate IsPlaceholderBase(base: string)
  {
    base == "unknown" || base == "document" || base == "file" || base == "download" || base == "content"
  }

  /**
   * `isPlaceholderName`: the same base as `isMeaningful` (lower case, no
   * extension, no copy counter or trailing number, trimmed) tested
   * against five placeholders.
   */
  predicate IsPlaceholderName(name: string): (b: bool)
    ensures b ==> |name| >= 4
  {
    IsPlaceholderBase(MeaningBase(name))
  }

  /** A lower-cased `stem.ext` with a placeholder stem is a placeholder. */
  lemma PlaceholderWithExtension(name: string, stem: string, ext: string)
    requires Lower(name) == stem + ['.'] + ext && HasNo(ext, '.') && IsPlaceholderBase(stem)
    ensures IsPlaceholderName(name)
  {
    StemBase(name, stem, ext);
  }

  /** A name without a dot whose lower case is a placeholder is one. */
  lemma PlaceholderBare(name: string)
    requires HasNo(name, '.') && IsPlaceholderBase(Lower(name))
    ensures IsPlaceholderName(name)
  {
    var l := Lower(name);
    assert HasNo(l, '.');
    assert SubstringBeforeLast(l, '.') == l;
    PlaceholderEnds(l);
    PlainBase(l);
  }

  /** The five placeholders start and end with a letter. */
  lemma PlaceholderEnds(b: string)
    requires IsPlaceholderBase(b)
    ensures b != [] && !IsDigit(b[|b| - 1]) && b[|b| - 1] != ')'
    ensures !IsWhitespace(b[0]) && !IsWhitespace(b[|b| - 1])
  {
    if b == "unknown" {
    } else if b == "document" {
    } else if b == "file" {
    } else if b == "download" {
    } else {
    }
  }

  /**
   * Both checks read the same base: a view-model placeholder other than
   * "unknown" is never meaningful to the display-name lookup.
   */
  lemma PlaceholderNotMeaningful(name: string)
    requires IsPlaceholderName(name) && MeaningBase(name) != "unknown"
    ensures !IsMeaningful(name)
  {
    var b := MeaningBase(name);
    assert IsPlaceholderFor(b, "document") || IsPlaceholderFor(b, "file")
      || IsPlaceholderFor(b, "download") || IsPlaceholderFor(b, "content");
  }

  /** The lookup's fallback "Unknown" is a placeholder for the view model. */
  lemma FallbackIsPlaceholder()
    ensures IsPlaceholderName(Fallback)
  {
    var name := Fallback;
    var l := Lower(name);
    assert l == "unknown" by {
      assert forall k :: 0 <= k < |l| ==> l[k] == LowerChar(name[k]);
    }
    PlaceholderBare(name);
  }

  // ----------------------------------------------------------- inputs

  /**
   * What the view model knows of one selected file: its display name
   * (`getFileName`), the name of its parent folder (from the document
   * tree, else the uri's second-to-last path segment) and the parent
   * recorded for it by the Mihon scan.
   */
  datatype FileInfo = FileInfo(fileName: string, parentName: Option<string>, mihonParent: Option<string>)

  /** The settings `getPdfFileNames` reads. */
  datatype NameSettings = NameSettings(overrideName: string, mergeFiles: bool, autoNameWithChapters: bool,
                                       sameParent: bool)

  /** `substringBeforeLast('.', it)`. */
  function BaseNoExt(fileName: string): (r: string)
    ensures |r| <= |fileName|
  {
    SubstringBeforeLast(fileName, '.')
  }

  /** The base name unless it is a placeholder, else "Unknown". */
  function BaseOrUnknown(base: string): (r: string)
    ensures r == base || r == Fallback
    ensures !IsPlaceholderName(r) || r == Fallback
  {
    if !IsPlaceholderName(base) then base else Fallback
  }

  // ------------------------------------------------ default (non-Mihon)

  /**
   * The name a file gets outside Mihon mode: the parent folder unless it
   * is a placeholder, else the base name unless it is one, else
   * "Unknown".
   */
  function ResolvedParent(f: FileInfo): (r: string)
    ensures !IsPlaceholderName(r) || r == Fallback
    ensures f.parentName.Some? && !IsPlaceholderName(f.parentName.value) ==> r == f.parentName.value
    ensures (f.parentName.None? || IsPlaceholderName(f.parentName.value)) ==> r == BaseOrUnknown(BaseNoExt(f.fileName))
  {
    if f.parentName.Some? && !IsPlaceholderName(f.parentName.value) then f.parentName.value
    else BaseOrUnknown(BaseNoExt(f.fileName))
  }

  // ---------------------------------------------------------- Mihon mode

  /** Mihon mode: the Mihon parent, else the (unfiltered) parent folder, else the base name or "Unknown". */
  function MangaName(f: FileInfo): (r: string)
    ensures f.mihonParent.Some? ==> r == f.mihonParent.value
    ensures f.mihonParent.None? && f.parentName.Some? ==> r == f.parentName.value
    ensures f.mihonParent.None? && f.parentName.None? ==>
      r == Fallback || (r == BaseNoExt(f.fileName) && !IsPlaceholderName(r))
  {
    if f.mihonParent.Some? then f.mihonParent.value
    else if f.parentName.Some? then f.parentName.value
    else BaseOrUnknown(BaseNoExt(f.fileName))
  }

  /** The chapter of a file, looked for only in chapter mode. */
  function ChapterOf(f: FileInfo, auto: bool): (r: Option<string>)
    ensures !auto ==> r.None?
  {
    if auto then ExtractChapterNumber(BaseNoExt(f.fileName)) else None
  }

  /** `"_" + chapter`, else "" for a lone file, else `"_" + (i + 1)`. */
  function Suffix(chapter: Option<string>, i: nat, n: nat): string
  {
    if chapter.Some? then "_" + chapter.value
    else if n == 1 then ""
    else "_" + NatToString(i + 1)
  }

  function DefaultName(f: FileInfo, i: nat, n: nat, auto: bool): string
  {
    MangaName(f) + Suffix(ChapterOf(f, auto), i, n) + ".pdf"
  }

  /** `defaultNames` before the merge adjustment. */
  function DefaultNames(files: seq<FileInfo>, auto: bool): (r: seq<string>)
    ensures |r| == |files|
    ensures forall i :: 0 <= i < |files| ==> r[i] == DefaultName(files[i], i, |files|, auto)
  {
    seq(|files|, i requires 0 <= i < |files| => DefaultName(files[i], i, |files|, auto))
  }

  /** The chapters of the files that have one, with their values (`chapterPairs`). */
  function ChapterPairs(files: seq<FileInfo>, auto: bool): (r: seq<(Decimal, string)>)
    ensures |r| <= |files|
  {
    if files == [] then []
    else
      var rest := ChapterPairs(files[1..], auto);
      match ChapterOf(files[0], auto)
      case None => rest
      case Some(ch) =>
        match ParseChapter(ch)
        case None => rest
        case Some(v) => [(v, ch)] + rest
  }

  function Values(ps: seq<(Decimal, string)>): (r: seq<Decimal>)
    ensures |r| == |ps| && forall i :: 0 <= i < |ps| ==> r[i] == ps[i].0
  {
    seq(|ps|, i requires 0 <= i < |ps| => ps[i].0)
  }

  /**
   * `"_min"` when the lowest and the highest chapter pair coincide, else
   * `"_min-max"`; "" when no chapter is numeric.
   */
  function RangeSuffix(ps: seq<(Decimal, string)>): (r: string)
    ensures r == "" <==> ps == []
    ensures r != "" ==> r[0] == '_'
  {
    if ps == [] then ""
    else
      var lo, hi := ps[FirstMin(Values(ps))], ps[FirstMax(Values(ps))];
      if DecSame(lo.0, hi.0) && lo.1 == hi.1 then "_" + lo.1 else "_" + lo.1 + "-" + hi.1
  }

  /** The single name of a merged Mihon job. */
  function MergedName(files: seq<FileInfo>, auto: bool): (r: string)
    requires |files| > 0
    ensures StartsWith(r, MangaName(files[0])) && EndsWith(r, ".pdf")
    ensures !auto || ChapterPairs(files, auto) == [] ==> r == MangaName(files[0]) + ".pdf"
  {
    var base := MangaName(files[0]);
    if auto then base + RangeSuffix(ChapterPairs(files, auto)) + ".pdf" else base + ".pdf"
  }

  /**
   * Mihon mode's names before the override: the defaults, the first one
   * replaced by the merged name when merging files of one parent. With
   * no file at all that replacement fails (`first()` of an empty list).
   */
  function MihonNames(files: seq<FileInfo>, s: NameSettings): (r: Option<seq<string>>)
    ensures r.None? <==> s.mergeFiles && s.sameParent && files == []
    ensures r.Some? ==> |r.value| == |files|
  {
    var d := DefaultNames(files, s.autoNameWithChapters);
    if s.mergeFiles && s.sameParent then
      if files == [] then None else Some([MergedName(files, s.autoNameWithChapters)] + d[1..])
    else Some(d)
  }

  // ------------------------------------------------------------ override

  /** `"${override}_${i + 1}.pdf"` for each of `n` files. */
  function NumberedOverride(o: string, n: nat): (r: seq<string>)
    ensures |r| == n
  {
    seq(n, i requires 0 <= i < n => o + "_" + NatToString(i + 1) + ".pdf")
  }

  /** The override name, when one is set, takes precedence over the defaults. */
  function ApplyOverride(n: nat, defaults: seq<string>, s: NameSettings): (r: seq<string>)
    requires |defaults| == n
    ensures n > 0 ==> |r| == n
  {
    if !IsBlank(s.overrideName) && s.mergeFiles then
      [s.overrideName + ".pdf"] + (if n > 1 then defaults[1..] else [])
    else if !IsBlank(s.overrideName) then
      if n == 1 then [s.overrideName + ".pdf"] else NumberedOverride(s.overrideName, n)
    else defaults
  }

  /** Outside Mihon mode: each file after its resolved parent, as ".pdf". */
  function DefaultModeNames(files: seq<FileInfo>): (r: seq<string>)
    ensures |r| == |files|
    ensures forall i :: 0 <= i < |files| ==> r[i] == ResolvedParent(files[i]) + ".pdf"
  {
    seq(|files|, i requires 0 <= i < |files| => ResolvedParent(files[i]) + ".pdf")
  }

  /** The names before the override is applied. */
  function BaseNames(files: seq<FileInfo>, useParentDirectoryName: bool, s: NameSettings): (r: Option<seq<string>>)
    ensures r.None? <==> useParentDirectoryName && s.mergeFiles && s.sameParent && files == []
    ensures r.Some? ==> |r.value| == |files|
  {
    if !useParentDirectoryName then Some(DefaultModeNames(files)) else MihonNames(files, s)
  }

  /** `getPdfFileNames`; `None` where the Kotlin code throws. */
  function GetPdfFileNames(files: seq<FileInfo>, useParentDirectoryName: bool, s: NameSettings): (r: Option<seq<string>>)
    ensures r.None? <==> useParentDirectoryName && s.mergeFiles && s.sameParent && files == []
    ensures r.Some? && files != [] ==> |r.value| == |files|
  {
    match BaseNames(files, useParentDirectoryName, s)
    case None => None
    case Some(d) => Some(ApplyOverride(|files|, d, s))
  }

  // -------------------------------------------------------------- lemmas

  lemma PdfEnds(a: string)
    ensures EndsWith(a + ".pdf", ".pdf")
  {
    assert (a + ".pdf")[|a|..] == ".pdf";
  }

  /** `p + a + q == p + b + q` only when `a == b`. */
  lemma CancelAround(p: string, a: string, b: string, q: string)
    requires p + a + q == p + b + q
    ensures a == b
  {
    var x := p + a + q;
    assert |a| == |b|;
    assert a == x[|p|..|p| + |a|];
    assert b == (p + b + q)[|p|..|p| + |b|];
  }

  /** The base names all end in ".pdf". */
  lemma BaseNamesArePdf(files: seq<FileInfo>, useParentDirectoryName: bool, s: NameSettings)
    requires BaseNames(files, useParentDirectoryName, s).Some?
    ensures forall k :: 0 <= k < |files| ==> EndsWith(BaseNames(files, useParentDirectoryName, s).value[k], ".pdf")
  {
    var d := BaseNames(files, useParentDirectoryName, s).value;
    forall k | 0 <= k < |files| ensures EndsWith(d[k], ".pdf") {
      if !useParentDirectoryName {
        PdfEnds(ResolvedParent(files[k]));
      } else if s.mergeFiles && s.sameParent && k == 0 {
        var base := MangaName(files[0]);
        var auto := s.autoNameWithChapters;
        PdfEnds(if auto then base + RangeSuffix(ChapterPairs(files, auto)) else base);
        assert MergedName(files, auto) == (if auto then base + RangeSuffix(ChapterPairs(files, auto)) else base) + ".pdf";
      } else {
        var f := files[k];
        PdfEnds(MangaName(f) + Suffix(ChapterOf(f, s.autoNameWithChapters), k, |files|));
      }
    }
  }

  /** The override keeps every name a ".pdf" file name. */
  lemma OverrideKeepsPdf(n: nat, defaults: seq<string>, s: NameSettings)
    requires |defaults| == n && forall k :: 0 <= k < n ==> EndsWith(defaults[k], ".pdf")
    ensures forall k :: 0 <= k < |ApplyOverride(n, defaults, s)| ==> EndsWith(ApplyOverride(n, defaults, s)[k], ".pdf")
  {
    var r := ApplyOverride(n, defaults, s);
    var o := s.overrideName;
    PdfEnds(o);
    forall k | 0 <= k < |r| ensures EndsWith(r[k], ".pdf") {
      if !IsBlank(o) && !s.mergeFiles && n != 1 {
        PdfEnds(o + "_" + NatToString(k + 1));
      }
    }
  }

  /** Every name the view model proposes is a ".pdf" file name. */
  lemma NamesArePdf(files: seq<FileInfo>, useParentDirectoryName: bool, s: NameSettings)
    requires GetPdfFileNames(files, useParentDirectoryName, s).Some?
    ensures forall k :: 0 <= k < |GetPdfFileNames(files, useParentDirectoryName, s).value| ==>
      EndsWith(GetPdfFileNames(files, useParentDirectoryName, s).value[k], ".pdf")
  {
    BaseNamesArePdf(files, useParentDirectoryName, s);
    OverrideKeepsPdf(|files|, BaseNames(files, useParentDirectoryName, s).value, s);
  }

  /**
   * Outside Mihon mode and without an override, file `i` is named after
   * its parent folder, else its base name, never after a placeholder
   * other than "Unknown".
   */
  lemma DefaultModeNamed(files: seq<FileInfo>, s: NameSettings, i: nat)
    requires IsBlank(s.overrideName) && i < |files|
    ensures var r := GetPdfFileNames(files, false, s).value;
      var stem := ResolvedParent(files[i]);
      && |r| == |files| && r[i] == stem + ".pdf"
      && (!IsPlaceholderName(stem) || stem == Fallback)
  {
    assert GetPdfFileNames(files, false, s).value == DefaultModeNames(files);
  }

  /** Outside Mihon mode and without an override, the names are the resolved parents. */
  lemma DefaultModeList(files: seq<FileInfo>, s: NameSettings)
    requires IsBlank(s.overrideName)
    ensures GetPdfFileNames(files, false, s) == Some(DefaultModeNames(files))
  {
    NoOverrideKeeps(|files|, DefaultModeNames(files), s);
  }

  /** Without merging, numbered override names never collide. */
  lemma OverrideNamesDistinct(n: nat, defaults: seq<string>, s: NameSettings, i: nat, j: nat)
    requires |defaults| == n && !IsBlank(s.overrideName) && !s.mergeFiles && i < j < n
    ensures var r := ApplyOverride(n, defaults, s);
      r[i] == s.overrideName + "_" + NatToString(i + 1) + ".pdf" && r[i] != r[j]
  {
    var r := ApplyOverride(n, defaults, s);
    var o := s.overrideName;
    assert r == NumberedOverride(o, n);
    if r[i] == r[j] {
      CancelAround(o + "_", NatToString(i + 1), NatToString(j + 1), ".pdf");
      NatToStringInjective(i + 1, j + 1);
    }
  }

  /** With an override and merging, the first name is the override and the rest keep their base names. */
  lemma OverrideMergeNames(n: nat, defaults: seq<string>, s: NameSettings)
    requires |defaults| == n && !IsBlank(s.overrideName) && s.mergeFiles && n > 0
    ensures var r := ApplyOverride(n, defaults, s);
      r[0] == s.overrideName + ".pdf" && r[1..] == defaults[1..]
  {
  }

  /** Without an override the base names are kept. */
  lemma NoOverrideKeeps(n: nat, defaults: seq<string>, s: NameSettings)
    requires |defaults| == n && IsBlank(s.overrideName)
    ensures ApplyOverride(n, defaults, s) == defaults
  {
  }

  /**
   * Merging chapter files of one parent names the job after the first
   * file's manga and its lowest and highest chapter.
   */
  lemma MergedRange(files: seq<FileInfo>, s: NameSettings)
    requires s.mergeFiles && s.sameParent && s.autoNameWithChapters && |files| > 0
    ensures var d := BaseNames(files, true, s).value;
      var ps := ChapterPairs(files, true);
      && d[0] == MangaName(files[0]) + RangeSuffix(ps) + ".pdf"
      && (ps != [] ==> forall j :: 0 <= j < |ps| ==>
            !DecLess(ps[j].0, ps[FirstMin(Values(ps))].0) && !DecLess(ps[FirstMax(Values(ps))].0, ps[j].0))
  {
    var ps := ChapterPairs(files, true);
    if ps != [] {
      var vs := Values(ps);
      assert forall j :: 0 <= j < |ps| ==> vs[j] == ps[j].0;
    }
  }

  // ------------------------------------------------- the unit test cases

  /** Two files in non-placeholder folders are named after those folders. */
  lemma TwoFilesNamedAfterParents(files: seq<FileInfo>, s: NameSettings, p1: string, p2: string)
    requires !IsPlaceholderName(p1) && !IsPlaceholderName(p2)
    requires |files| == 2 && files[0].parentName == Some(p1) && files[1].parentName == Some(p2)
    requires IsBlank(s.overrideName)
    ensures GetPdfFileNames(files, false, s) == Some([p1 + ".pdf", p2 + ".pdf"])
  {
    DefaultModeList(files, s);
    var d := DefaultModeNames(files);
    assert ResolvedParent(files[0]) == p1;
    assert ResolvedParent(files[1]) == p2;
    assert d == [d[0], d[1]];
  }

  /**
   * Two files whose display name fell back to "Unknown" are named after
   * their folders "ParentOne" and "ParentTwo".
   */
  lemma ParentFallbackExample(files: seq<FileInfo>, s: NameSettings, p1: string, p2: string)
    requires p1 == "ParentOne" && p2 == "ParentTwo"
    requires |files| == 2 && files[0].parentName == Some(p1) && files[1].parentName == Some(p2)
    requires s.overrideName == ""
    ensures GetPdfFileNames(files, false, s) == Some([p1 + ".pdf", p2 + ".pdf"])
  {
    ParentOneNotPlaceholder(p1);
    ParentTwoNotPlaceholder(p2);
    TwoFilesNamedAfterParents(files, s, p1, p2);
  }

  lemma ParentOneNotPlaceholder(p: string)
    requires p == "ParentOne"
    ensures !IsPlaceholderName(p)
  {
    NotPlaceholderByLength(p);
  }

  lemma ParentTwoNotPlaceholder(p: string)
    requires p == "ParentTwo"
    ensures !IsPlaceholderName(p)
  {
    NotPlaceholderByLength(p);
  }

  /** A lone file whose folder and base name are both placeholders is named "Unknown.pdf". */
  lemma LoneFileNamedUnknown(files: seq<FileInfo>, s: NameSettings)
    requires |files| == 1 && files[0].parentName.Some? && IsPlaceholderName(files[0].parentName.value)
    requires IsPlaceholderName(BaseNoExt(files[0].fileName))
    requires IsBlank(s.overrideName)
    ensures GetPdfFileNames(files, false, s) == Some([Fallback + ".pdf"])
  {
    DefaultModeList(files, s);
    var d := DefaultModeNames(files);
    assert ResolvedParent(files[0]) == Fallback;
    assert d == [d[0]];
  }

  /** A file "document.pdf" in a folder "document" is named "Unknown.pdf" (the fallback). */
  lemma DocumentFolderExample(files: seq<FileInfo>, s: NameSettings)
    requires |files| == 1 && files[0].fileName == "document.pdf" && files[0].parentName == Some("document")
    requires s.overrideName == ""
    ensures GetPdfFileNames(files, false, s) == Some([Fallback + ".pdf"])
  {
    DocumentParentPlaceholder(files[0].parentName.value);
    DocumentBasePlaceholder(files[0].fileName);
    LoneFileNamedUnknown(files, s);
  }

  lemma DocumentParentPlaceholder(parent: string)
    requires parent == "document"
    ensures IsPlaceholderName(parent)
  {
    LowerNoUpper(parent);
    PlaceholderBare(parent);
  }

  /** "document.pdf" loses its extension and then is a placeholder. */
  lemma DocumentBasePlaceholder(name: string)
    requires name == "document.pdf"
    ensures IsPlaceholderName(BaseNoExt(name))
  {
    var stem := "document";
    assert name == stem + ['.'] + "pdf";
    SubstringBeforeLastSplit(stem, '.', "pdf");
    DocumentParentPlaceholder(stem);
  }

  /**
   * In Mihon mode the folder name is taken unfiltered: "MyManga.cbz" in
   * a folder "document" becomes "document.pdf".
   */
  lemma MihonDocumentFolderExample(files: seq<FileInfo>, s: NameSettings)
    requires |files| == 1 && files[0].parentName == Some("document") && files[0].mihonParent.None?
    requires s == NameSettings("", false, false, true)
    ensures GetPdfFileNames(files, true, s) == Some(["document.pdf"])
  {
    var d := DefaultNames(files, false);
    assert MangaName(files[0]) == files[0].parentName.value;
    assert d[0] == "document" + "" + ".pdf";
    assert d == [d[0]];
    assert MihonNames(files, s) == Some(d);
    NoOverrideKeeps(1, d, s);
    assert "document" + "" + ".pdf" == "document.pdf";
    assert d == ["document.pdf"];
    assert BaseNames(files, true, s) == Some(d);
  }

  /** A dot-free name of nine characters or more, plain at both ends, is no placeholder. */
  lemma NotPlaceholderByLength(name: string)
    requires |name| >= 9 && !IsDigit(name[|name| - 1]) && name[|name| - 1] != ')'
    requires !IsWhitespace(name[0]) && !IsWhitespace(name[|name| - 1]) && HasNo(name, '.')
    ensures !IsPlaceholderName(name)
  {
    var l := Lower(name);
    assert HasNo(l, '.') && SubstringBeforeLast(l, '.') == l;
    assert l[0] == LowerChar(name[0]) && l[|l| - 1] == LowerChar(name[|name| - 1]);
    assert !IsWhitespace(l[0]) && !IsWhitespace(l[|l| - 1]);
    assert !IsDigit(l[|l| - 1]) && l[|l| - 1] != ')';
    PlainBase(l);
    assert MeaningBase(name) == l;
    assert |l| >= 9;
  }
}
