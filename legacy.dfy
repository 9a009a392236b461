/**
 * The earlier conversion engine, kept beside the current one: the same
 * ordering and the same split into parts, but no WebP conversion, no
 * compression setting, no status line for an image that fails, and a
 * single file longer than 300 images rendered as part files in the cache
 * that are then merged through the caller's list of output files.
 */
module Legacy {
  import opened Wrappers
  import opened Strings
  import opened Archive
  import opened Partition
  import opened Pdf
  import opened Plan
  import opened Merge
  import Export

  /** `createSinglePdfFromCbz`'s default `batchSize`. */
  const LegacyBatchSize: nat := 300

  // --------------------------------------------------------- rendering

  /** A document of the earlier engine: every page as stored, default compression. */
  function LegacyDoc(es: seq<Entry>, decode: Entry -> Decoded): PdfDoc
  {
    PdfDoc(RenderPages(es, decode, false), DefaultCompression)
  }

  /** Without the WebP branch every page keeps its stored encoding. */
  lemma {:induction false} LegacyPagesAsStored(es: seq<Entry>, decode: Entry -> Decoded)
    ensures forall p :: p in RenderPages(es, decode, false) ==> p.encoding == AsStored
  {
    if es != [] {
      LegacyPagesAsStored(es[..|es| - 1], decode);
    }
  }

  /** On archives without WebP entries the two engines render the same pages. */
  lemma {:induction false} SamePagesWithoutWebp(es: seq<Entry>, decode: Entry -> Decoded)
    requires forall k :: 0 <= k < |es| ==> !IsWebp(es[k])
    ensures RenderPages(es, decode, false) == RenderPages(es, decode, true)
  {
    if es != [] {
      var init := es[..|es| - 1];
      assert forall k :: 0 <= k < |init| ==> init[k] == es[k];
      SamePagesWithoutWebp(init, decode);
      assert PageOf(es[|es| - 1], decode, false) == PageOf(es[|es| - 1], decode, true);
    }
  }

  lemma LinesStep(images: seq<Entry>, k: nat, decode: Entry -> Decoded, fmt: ProgressFormat)
    requires k < |images|
    ensures RenderLog(images[..k + 1], decode, false, fmt) == RenderLog(images[..k], decode, false, fmt) + [Progress(fmt, k + 1)]
  {
    assert images[..k + 1] == images[..k] + [images[k]];
    RenderLogSnoc(images[..k], images[k], decode, false, fmt);
    assert ImageLog(images[k], decode, false, fmt, k + 1) == [Progress(fmt, k + 1)];
  }

  lemma PagesStep(images: seq<Entry>, k: nat, decode: Entry -> Decoded)
    requires k < |images|
    ensures RenderPages(images[..k + 1], decode, false)
         == RenderPages(images[..k], decode, false)
            + (match PageOf(images[k], decode, false) case Some(p) => [p] case None => [])
  {
    assert images[..k + 1][..k] == images[..k] && images[..k + 1][k] == images[k];
  }

  /**
   * The page loop: a progress line before each image, and a page for
   * each image that decodes. A failing image is only logged to the
   * logger and skipped.
   */
  method AddImages(ws: Workspace, images: seq<Entry>, decode: Entry -> Decoded, fmt: ProgressFormat)
    returns (pages: seq<Page>)
    modifies ws
    ensures pages == RenderPages(images, decode, false)
    ensures ws.log == old(ws.log) + RenderLog(images, decode, false, fmt)
    ensures ws.output == old(ws.output) && ws.cache == old(ws.cache)
  {
    pages := [];
    for k := 0 to |images|
      invariant pages == RenderPages(images[..k], decode, false)
      invariant ws.log == old(ws.log) + RenderLog(images[..k], decode, false, fmt)
      invariant ws.output == old(ws.output) && ws.cache == old(ws.cache)
    {
      LinesStep(images, k, decode, fmt);
      ws.Say(Progress(fmt, k + 1));
      PagesStep(images, k, decode);
      match PageOf(images[k], decode, false) {
        case Some(p) => pages := pages + [p];
        case None =>
      }
    }
    assert images[..|images|] == images;
  }

  // ------------------------------------------------------------ parts

  /** Part `i + 1` of `es` cut every `size` entries: chunk `i` under its part name. */
  function LegacyPart(es: seq<Entry>, outputFileName: string, size: nat, decode: Entry -> Decoded, i: nat): Artifact
    requires size > 0 && i < CeilDiv(|es|, size)
  {
    Artifact(PartName(outputFileName, i + 1), LegacyDoc(Chunk(es, size, i), decode))
  }

  /** Parts `1 .. n`. */
  function LegacyParts(es: seq<Entry>, outputFileName: string, size: nat, decode: Entry -> Decoded, n: nat)
    : (r: seq<Artifact>)
    requires size > 0 && n <= CeilDiv(|es|, size)
    ensures |r| == n
    ensures forall k :: 0 <= k < n ==> r[k] == LegacyPart(es, outputFileName, size, decode, k)
  {
    if n == 0 then [] else LegacyParts(es, outputFileName, size, decode, n - 1) + [LegacyPart(es, outputFileName, size, decode, n - 1)]
  }

  /** The progress lines of parts `1 .. n`, each counting images across the whole archive. */
  function PartLines(es: seq<Entry>, size: nat, decode: Entry -> Decoded, n: nat): seq<Status>
    requires size > 0 && n <= CeilDiv(|es|, size)
  {
    if n == 0 then []
    else PartLines(es, size, decode, n - 1)
         + RenderLog(Chunk(es, size, n - 1), decode, false, PartFile(n, CeilDiv(|es|, size), (n - 1) * size, |es|))
  }

  /** The paths of `arts` in directory `d`, in order. */
  function PathsOf(d: Dir, arts: seq<Artifact>): (r: seq<Path>)
    ensures |r| == |arts|
    ensures forall k :: 0 <= k < |arts| ==> r[k] == Path(d, arts[k].name)
  {
    if arts == [] then [] else PathsOf(d, arts[..|arts| - 1]) + [Path(d, arts[|arts| - 1].name)]
  }

  lemma PathsOfSnoc(d: Dir, arts: seq<Artifact>, a: Artifact)
    ensures PathsOf(d, arts + [a]) == PathsOf(d, arts) + [Path(d, a.name)]
  {
    assert (arts + [a])[..|arts|] == arts;
  }

  /** The names of `arts`. */
  function NamesOf(arts: seq<Artifact>): set<string>
  {
    set k | 0 <= k < |arts| :: arts[k].name
  }

  /**
   * The inline ranges of one part: `[index * max, min((index + 1) * max, total))`,
   * which is the chunk `calculateRange` gives in the current engine.
   */
  lemma InlineRange(es: seq<Entry>, size: nat, i: nat)
    requires size > 0 && i < CeilDiv(|es|, size)
    ensures var end := if (i + 1) * size > |es| then |es| else (i + 1) * size;
      i * size <= end <= |es| && es[i * size..end] == Chunk(es, size, i)
  {
    RangesTile(i, size, |es|);
  }

  /**
   * One iteration of `createMultiplePdfFromCbz`: part `i + 1` written to
   * directory `d` and listed. Its progress lines count images from
   * `i * size + 1` of the whole archive.
   */
  method WritePart(ws: Workspace, files: FileList, es: seq<Entry>, outputFileName: string, d: Dir, size: nat,
                   decode: Entry -> Decoded, i: nat)
    requires size > 0 && i < CeilDiv(|es|, size)
    modifies ws, files
    ensures var a := LegacyPart(es, outputFileName, size, decode, i);
      && ws.output == (if d == OutputDir then old(ws.output)[a.name := a.doc] else old(ws.output))
      && ws.cache == (if d == CacheDir then old(ws.cache)[a.name := a.doc] else old(ws.cache))
      && files.items == old(files.items) + [Path(d, a.name)]
    ensures ws.log == old(ws.log)
                      + RenderLog(Chunk(es, size, i), decode, false, PartFile(i + 1, CeilDiv(|es|, size), i * size, |es|))
  {
    var amount := CeilDiv(|es|, size);
    var name := PartName(outputFileName, i + 1);
    var startIndex := i * size;
    var nextPossibleEndIndex := (i + 1) * size;
    var endIndex := if nextPossibleEndIndex > |es| then |es| else nextPossibleEndIndex;
    InlineRange(es, size, i);
    var pages := AddImages(ws, es[startIndex..endIndex], decode, PartFile(i + 1, amount, startIndex, |es|));
    var out := Path(d, name);
    ws.Write(out, PdfDoc(pages, DefaultCompression));
    files.Add(out);
  }

  /**
   * `createMultiplePdfFromCbz`: parts `1 .. ceil(total / size)` written
   * to directory `d` in order, each listed as it is written.
   */
  method CreateMultiplePdfFromCbz(ws: Workspace, files: FileList, es: seq<Entry>, outputFileName: string, d: Dir,
                                  size: nat, decode: Entry -> Decoded)
    requires size > 0
    modifies ws, files
    ensures var parts := LegacyParts(es, outputFileName, size, decode, CeilDiv(|es|, size));
      && ws.output == (if d == OutputDir then ApplyWrites(old(ws.output), parts) else old(ws.output))
      && ws.cache == (if d == CacheDir then ApplyWrites(old(ws.cache), parts) else old(ws.cache))
      && files.items == old(files.items) + PathsOf(d, parts)
    ensures ws.log == old(ws.log) + PartLines(es, size, decode, CeilDiv(|es|, size))
  {
    var amount := CeilDiv(|es|, size);
    for i := 0 to amount
      invariant d == OutputDir ==> ws.output == ApplyWrites(old(ws.output), LegacyParts(es, outputFileName, size, decode, i))
      invariant d == OutputDir ==> ws.cache == old(ws.cache)
      invariant d == CacheDir ==> ws.cache == ApplyWrites(old(ws.cache), LegacyParts(es, outputFileName, size, decode, i))
      invariant d == CacheDir ==> ws.output == old(ws.output)
      invariant files.items == old(files.items) + PathsOf(d, LegacyParts(es, outputFileName, size, decode, i))
      invariant ws.log == old(ws.log) + PartLines(es, size, decode, i)
    {
      WritePart(ws, files, es, outputFileName, d, size, decode, i);
      PartStep(old(ws.output), old(ws.cache), es, outputFileName, size, decode, i);
      PartListStep(old(files.items), es, outputFileName, d, size, decode, i);
      PartLogStep(old(ws.log), es, size, decode, i);
    }
  }

  /** Parts `1 .. i + 1` are parts `1 .. i` followed by part `i + 1`. */
  lemma PartsSnoc(es: seq<Entry>, outputFileName: string, size: nat, decode: Entry -> Decoded, i: nat)
    requires size > 0 && i < CeilDiv(|es|, size)
    ensures LegacyParts(es, outputFileName, size, decode, i + 1)
            == LegacyParts(es, outputFileName, size, decode, i) + [LegacyPart(es, outputFileName, size, decode, i)]
  {
  }

  /** The directories after parts `1 .. i + 1`: those after parts `1 .. i`, then part `i + 1` written. */
  lemma PartStep(output: map<string, PdfDoc>, cache: map<string, PdfDoc>,
                 es: seq<Entry>, outputFileName: string, size: nat, decode: Entry -> Decoded, i: nat)
    requires size > 0 && i < CeilDiv(|es|, size)
    ensures var a := LegacyPart(es, outputFileName, size, decode, i);
      && ApplyWrites(output, LegacyParts(es, outputFileName, size, decode, i + 1))
         == ApplyWrites(output, LegacyParts(es, outputFileName, size, decode, i))[a.name := a.doc]
      && ApplyWrites(cache, LegacyParts(es, outputFileName, size, decode, i + 1))
         == ApplyWrites(cache, LegacyParts(es, outputFileName, size, decode, i))[a.name := a.doc]
  {
    var parts := LegacyParts(es, outputFileName, size, decode, i);
    var a := LegacyPart(es, outputFileName, size, decode, i);
    PartsSnoc(es, outputFileName, size, decode, i);
    Export.ApplyWritesSnoc(output, parts, a);
    Export.ApplyWritesSnoc(cache, parts, a);
  }

  /** The list after parts `1 .. i + 1`: the list after parts `1 .. i`, then part `i + 1`. */
  lemma PartListStep(items: seq<Path>, es: seq<Entry>, outputFileName: string, d: Dir, size: nat,
                     decode: Entry -> Decoded, i: nat)
    requires size > 0 && i < CeilDiv(|es|, size)
    ensures items + PathsOf(d, LegacyParts(es, outputFileName, size, decode, i + 1))
            == items + PathsOf(d, LegacyParts(es, outputFileName, size, decode, i))
               + [Path(d, LegacyPart(es, outputFileName, size, decode, i).name)]
  {
    var parts := LegacyParts(es, outputFileName, size, decode, i);
    var a := LegacyPart(es, outputFileName, size, decode, i);
    PartsSnoc(es, outputFileName, size, decode, i);
    PathsOfSnoc(d, parts, a);
    Assoc(items, PathsOf(d, parts), [Path(d, a.name)]);
  }

  /** The log after parts `1 .. i + 1`: the log after parts `1 .. i`, then the lines of part `i + 1`. */
  lemma PartLogStep(log: seq<Status>, es: seq<Entry>, size: nat, decode: Entry -> Decoded, i: nat)
    requires size > 0 && i < CeilDiv(|es|, size)
    ensures log + PartLines(es, size, decode, i + 1)
            == log + PartLines(es, size, decode, i)
               + RenderLog(Chunk(es, size, i), decode, false, PartFile(i + 1, CeilDiv(|es|, size), i * size, |es|))
  {
    Assoc(log, PartLines(es, size, decode, i),
          RenderLog(Chunk(es, size, i), decode, false, PartFile(i + 1, CeilDiv(|es|, size), i * size, |es|)));
  }

  // ------------------------------------------------- what the parts hold

  /** Parts `1 .. n` hold the pages of the entries their chunks cover. */
  lemma {:induction false} LegacyPartsPages(es: seq<Entry>, outputFileName: string, size: nat,
                                            decode: Entry -> Decoded, n: nat)
    requires size > 0 && n <= CeilDiv(|es|, size)
    ensures AllPages(LegacyParts(es, outputFileName, size, decode, n)) == RenderPages(es[..Covered(es, size, n)], decode, false)
  {
    if n == 0 {
      assert es[..0] == [];
    } else {
      var parts := LegacyParts(es, outputFileName, size, decode, n - 1);
      var a := LegacyPart(es, outputFileName, size, decode, n - 1);
      LegacyPartsPages(es, outputFileName, size, decode, n - 1);
      AllPagesSnoc(parts, a);
      RangesTile(n - 1, size, |es|);
      var lo, hi := Start(n - 1, size, |es|), End(n - 1, size, |es|);
      if n >= 2 { RangesTile(n - 2, size, |es|); }
      assert Covered(es, size, n - 1) == lo;
      SliceSplit(es, lo, hi);
      RenderPagesAppend(es[..lo], es[lo..hi], decode, false);
    }
  }

  /** All the parts together hold every page of the archive, in order. */
  lemma PartsCoverPages(es: seq<Entry>, outputFileName: string, size: nat, decode: Entry -> Decoded)
    requires size > 0
    ensures AllPages(LegacyParts(es, outputFileName, size, decode, CeilDiv(|es|, size))) == RenderPages(es, decode, false)
  {
    var n := CeilDiv(|es|, size);
    LegacyPartsPages(es, outputFileName, size, decode, n);
    ChunkPagesCover(es, size, decode, n);
    assert es[..|es|] == es;
  }

  // ------------------------------------------------------- part names

  lemma {:induction false} ContainsLength(s: string, pat: string)
    requires Contains(s, pat)
    ensures |pat| <= |s|
    decreases |s|
  {
    if !StartsWith(s, pat) {
      ContainsLength(s[1..], pat);
    }
  }

  /** What `replace` puts in place of each ".pdf" for part `n`. */
  function PartSuffix(n: nat): string
  {
    "_part-" + NatToString(n) + ".pdf"
  }

  /** Two part suffixes that start equal strings are the same suffix. */
  lemma SuffixHead(j: nat, k: nat, x: string, y: string)
    requires PartSuffix(j) + x == PartSuffix(k) + y
    ensures j == k
  {
    var dj, dk := NatToString(j), NatToString(k);
    assert (PartSuffix(j) + x)[6..] == dj + "." + ("pdf" + x);
    assert (PartSuffix(k) + y)[6..] == dk + "." + ("pdf" + y);
    DigitsThenDot(dj, dk, "pdf" + x, "pdf" + y);
    NatToStringInjective(j, k);
  }

  /** `replace` on a string holding ".pdf", with two suffixes, gives equal results only for equal suffixes. */
  lemma {:induction false} ReplaceInjective(s: string, j: nat, k: nat)
    requires Contains(s, ".pdf")
    requires ReplaceAll(s, ".pdf", PartSuffix(j)) == ReplaceAll(s, ".pdf", PartSuffix(k))
    ensures j == k
    decreases |s|
  {
    ContainsLength(s, ".pdf");
    if s[..4] == ".pdf" {
      SuffixHead(j, k, ReplaceAll(s[4..], ".pdf", PartSuffix(j)), ReplaceAll(s[4..], ".pdf", PartSuffix(k)));
    } else {
      var x, y := ReplaceAll(s[1..], ".pdf", PartSuffix(j)), ReplaceAll(s[1..], ".pdf", PartSuffix(k));
      assert [s[0]] + x == [s[0]] + y;
      assert x == ([s[0]] + x)[1..] && y == ([s[0]] + y)[1..];
      ReplaceInjective(s[1..], j, k);
    }
  }

  /** A name holding ".pdf" gives a different part name for each part number. */
  lemma PartNameInjective(s: string, j: nat, k: nat)
    requires Contains(s, ".pdf") && PartName(s, j) == PartName(s, k)
    ensures j == k
  {
    ReplaceInjective(s, j, k);
  }

  /** No two of `arts` share a name. */
  predicate DistinctNames(arts: seq<Artifact>)
  {
    forall i, j :: 0 <= i < j < |arts| ==> arts[i].name != arts[j].name
  }

  /** The parts of a name holding ".pdf" have pairwise different names. */
  lemma PartNamesDistinct(es: seq<Entry>, outputFileName: string, size: nat, decode: Entry -> Decoded, n: nat)
    requires size > 0 && n <= CeilDiv(|es|, size) && Contains(outputFileName, ".pdf")
    ensures DistinctNames(LegacyParts(es, outputFileName, size, decode, n))
  {
    var parts := LegacyParts(es, outputFileName, size, decode, n);
    forall i, j | 0 <= i < j < n ensures parts[i].name != parts[j].name {
      if parts[i].name == parts[j].name {
        PartNameInjective(outputFileName, i + 1, j + 1);
      }
    }
  }

  // ------------------------------------------------------------ merging

  /**
   * What `mergePdfFiles` needs of the list it is handed: distinct files,
   * each a file of the output directory that exists, and none of them
   * the merge's own output.
   */
  predicate Listed(output: map<string, PdfDoc>, items: seq<Path>, outputFileName: string)
  {
    && Distinct(items)
    && (forall k :: 0 <= k < |items| ==> items[k].dir == OutputDir && items[k].name in output)
    && Path(OutputDir, outputFileName) !in items
  }

  lemma {:induction false} MergedPagesAppend(output: map<string, PdfDoc>, cache: map<string, PdfDoc>, a: seq<Path>, b: seq<Path>)
    ensures MergedPages(output, cache, a + b) == MergedPages(output, cache, a) + MergedPages(output, cache, b)
  {
    if b == [] {
      assert a + b == a;
    } else {
      var init, p := b[..|b| - 1], b[|b| - 1];
      var t := match Stored(output, cache, p) case Some(d) => d.pages case None => [];
      assert a + b == (a + init) + [p];
      MergedPagesSnoc(output, cache, a + init, p);
      assert b == init + [p];
      MergedPagesSnoc(output, cache, init, p);
      MergedPagesAppend(output, cache, a, init);
      Assoc(MergedPages(output, cache, a), MergedPages(output, cache, init), t);
    }
  }

  /** Files of the output directory are read the same whatever the cache holds. */
  lemma {:induction false} MergedPagesOutputOnly(output: map<string, PdfDoc>, c1: map<string, PdfDoc>,
                                                 c2: map<string, PdfDoc>, items: seq<Path>)
    requires forall k :: 0 <= k < |items| ==> items[k].dir == OutputDir
    ensures MergedPages(output, c1, items) == MergedPages(output, c2, items)
  {
    if items != [] {
      MergedPagesOutputOnly(output, c1, c2, items[..|items| - 1]);
    }
  }

  /** Merging part files written under distinct names reads back their pages in order. */
  lemma {:induction false} MergedParts(output: map<string, PdfDoc>, cache: map<string, PdfDoc>, parts: seq<Artifact>, n: nat)
    requires n <= |parts|
    requires DistinctNames(parts)
    ensures MergedPages(output, ApplyWrites(cache, parts), PathsOf(CacheDir, parts[..n])) == AllPages(parts[..n])
  {
    if n > 0 {
      var w, init, a := ApplyWrites(cache, parts), parts[..n - 1], parts[n - 1];
      MergedParts(output, cache, parts, n - 1);
      SliceSnoc(parts, n - 1);
      PathsOfSnoc(CacheDir, init, a);
      AllPagesSnoc(init, a);
      MergedPagesSnoc(output, w, PathsOf(CacheDir, init), Path(CacheDir, a.name));
      PartWritten(cache, parts, n - 1);
    }
  }

  /** Among parts with distinct names, each part's document is what its name holds. */
  lemma PartWritten(cache: map<string, PdfDoc>, parts: seq<Artifact>, k: nat)
    requires k < |parts| && DistinctNames(parts)
    ensures parts[k].name in ApplyWrites(cache, parts)
    ensures ApplyWrites(cache, parts)[parts[k].name] == parts[k].doc
  {
    ApplyWritesSpec(cache, parts, parts[k].name);
  }

  lemma SliceAll<T>(s: seq<T>)
    ensures s[..|s|] == s
  {
  }

  /** The list once the part files are appended: the names in each directory. */
  lemma NamesAfterParts(items: seq<Path>, parts: seq<Artifact>)
    requires forall k :: 0 <= k < |items| ==> items[k].dir == OutputDir
    ensures NamesIn(items + PathsOf(CacheDir, parts), OutputDir) == NamesIn(items, OutputDir)
    ensures NamesIn(items + PathsOf(CacheDir, parts), CacheDir) == NamesOf(parts)
  {
    var all, ps := items + PathsOf(CacheDir, parts), PathsOf(CacheDir, parts);
    assert forall k :: 0 <= k < |items| ==> all[k] == items[k];
    assert forall k :: 0 <= k < |ps| ==> all[|items| + k] == ps[k];
    forall x | x in NamesOf(parts) ensures x in NamesIn(all, CacheDir) {
      var k :| 0 <= k < |parts| && parts[k].name == x;
      assert all[|items| + k] == Path(CacheDir, x);
    }
  }

  /** The list once the part files are appended is one `mergePdfFiles` can read. */
  lemma ReadyAfterParts(output: map<string, PdfDoc>, cache: map<string, PdfDoc>, items: seq<Path>,
                        parts: seq<Artifact>, outputFileName: string)
    requires Listed(output, items, outputFileName)
    requires DistinctNames(parts)
    ensures var all := items + PathsOf(CacheDir, parts);
      && Distinct(all)
      && (forall k :: 0 <= k < |all| ==>
            (all[k].dir == OutputDir ==> all[k].name in output)
            && (all[k].dir == CacheDir ==> all[k].name in ApplyWrites(cache, parts)))
      && Path(OutputDir, outputFileName) !in all
  {
    var all, ps := items + PathsOf(CacheDir, parts), PathsOf(CacheDir, parts);
    assert forall k :: 0 <= k < |items| ==> all[k] == items[k];
    assert forall k :: 0 <= k < |ps| ==> all[|items| + k] == ps[k];
    forall k | |items| <= k < |all| ensures all[k].name in ApplyWrites(cache, parts) {
      ApplyWritesSpec(cache, parts, parts[k - |items|].name);
    }
  }

  /** Writing names and deleting the same names leaves what deleting alone leaves. */
  lemma ApplyWritesMinus(m: map<string, PdfDoc>, arts: seq<Artifact>)
    ensures ApplyWrites(m, arts) - NamesOf(arts) == m - NamesOf(arts)
  {
    forall x | x !in NamesOf(arts)
      ensures (x in ApplyWrites(m, arts) <==> x in m) && (x in m ==> ApplyWrites(m, arts)[x] == m[x])
    {
      ApplyWritesSpec(m, arts, x);
    }
  }

  /** The merged file's pages: the listed files' pages, then every page of the archive. */
  lemma MergedAfterParts(output: map<string, PdfDoc>, cache: map<string, PdfDoc>, items: seq<Path>,
                         es: seq<Entry>, outputFileName: string, decode: Entry -> Decoded)
    requires forall k :: 0 <= k < |items| ==> items[k].dir == OutputDir
    requires Contains(outputFileName, ".pdf")
    ensures var parts := BatchParts(es, outputFileName, decode);
      MergedPages(output, ApplyWrites(cache, parts), items + PathsOf(CacheDir, parts))
      == MergedPages(output, cache, items) + RenderPages(es, decode, false)
  {
    var parts := BatchParts(es, outputFileName, decode);
    PartNamesDistinct(es, outputFileName, LegacyBatchSize, decode, CeilDiv(|es|, LegacyBatchSize));
    MergedPagesAppend(output, ApplyWrites(cache, parts), items, PathsOf(CacheDir, parts));
    MergedPagesOutputOnly(output, ApplyWrites(cache, parts), cache, items);
    MergedParts(output, cache, parts, |parts|);
    SliceAll(parts);
    PartsCoverPages(es, outputFileName, LegacyBatchSize, decode);
  }

  // -------------------------------------------------------- single file

  /** The part files of a batched single file, written to the cache and merged. */
  function BatchParts(es: seq<Entry>, outputFileName: string, decode: Entry -> Decoded): seq<Artifact>
  {
    LegacyParts(es, outputFileName, LegacyBatchSize, decode, CeilDiv(|es|, LegacyBatchSize))
  }

  /**
   * The output directory after merging the list `items` followed by the
   * part files of `es`: the listed files are deleted, and the output file
   * holds their pages, in list order, ahead of the archive's pages.
   */
  function SharedBatchOutput(output: map<string, PdfDoc>, cache: map<string, PdfDoc>, items: seq<Path>,
                             outputFileName: string, es: seq<Entry>, decode: Entry -> Decoded): map<string, PdfDoc>
  {
    (output - NamesIn(items, OutputDir))
      [outputFileName := PdfDoc(MergedPages(output, cache, items) + RenderPages(es, decode, false), DefaultCompression)]
  }

  /** With nothing listed before, the batched file is the file of all the pages. */
  lemma SharedEmptyList(output: map<string, PdfDoc>, cache: map<string, PdfDoc>, outputFileName: string,
                        es: seq<Entry>, decode: Entry -> Decoded)
    ensures SharedBatchOutput(output, cache, [], outputFileName, es, decode) == output[outputFileName := LegacyDoc(es, decode)]
  {
    assert NamesIn([], OutputDir) == {};
    assert output - {} == output;
    assert [] + RenderPages(es, decode, false) == RenderPages(es, decode, false);
  }

  /**
   * The batch branch of `createSinglePdfFromCbz`: the archive rendered as
   * part files of 300 images into the cache, appended to `files`, then
   * `mergePdfFiles` of everything `files` lists into `outputFileName`.
   */
  method BatchThenMerge(ws: Workspace, files: FileList, es: seq<Entry>, outputFileName: string, decode: Entry -> Decoded)
    requires Contains(outputFileName, ".pdf") && Listed(ws.output, files.items, outputFileName)
    modifies ws, files
    ensures ws.output == SharedBatchOutput(old(ws.output), old(ws.cache), old(files.items), outputFileName, es, decode)
    ensures ws.cache == old(ws.cache) - NamesOf(BatchParts(es, outputFileName, decode))
    ensures ws.log == old(ws.log) + PartLines(es, LegacyBatchSize, decode, CeilDiv(|es|, LegacyBatchSize))
    ensures files.items == [Path(OutputDir, outputFileName)]
  {
    ghost var listed, output, cache := files.items, ws.output, ws.cache;
    ghost var parts := BatchParts(es, outputFileName, decode);
    PartNamesDistinct(es, outputFileName, LegacyBatchSize, decode, CeilDiv(|es|, LegacyBatchSize));
    ReadyAfterParts(output, cache, listed, parts, outputFileName);
    MergeAfterParts(output, cache, listed, es, outputFileName, decode);
    CreateMultiplePdfFromCbz(ws, files, es, outputFileName, CacheDir, LegacyBatchSize, decode);
    forall k | 0 <= k < |files.items| ensures ws.Exists(files.items[k]) {
      var p := files.items[k];
      assert p.dir == OutputDir ==> p.name in output;
      assert p.dir == CacheDir ==> p.name in ApplyWrites(cache, parts);
    }
    MergePdfFiles(ws, files, outputFileName, false);
  }

  /** What `mergePdfFiles` leaves once the part files follow the listed files. */
  lemma MergeAfterParts(output: map<string, PdfDoc>, cache: map<string, PdfDoc>, listed: seq<Path>,
                        es: seq<Entry>, outputFileName: string, decode: Entry -> Decoded)
    requires Contains(outputFileName, ".pdf") && Listed(output, listed, outputFileName)
    ensures var parts := BatchParts(es, outputFileName, decode);
      var all, written := listed + PathsOf(CacheDir, parts), ApplyWrites(cache, parts);
      && (output - NamesIn(all, OutputDir))[outputFileName := PdfDoc(MergedPages(output, written, all), Level(false))]
         == SharedBatchOutput(output, cache, listed, outputFileName, es, decode)
      && written - NamesIn(all, CacheDir) == cache - NamesOf(parts)
  {
    var parts := BatchParts(es, outputFileName, decode);
    MergedAfterParts(output, cache, listed, es, outputFileName, decode);
    NamesAfterParts(listed, parts);
    ApplyWritesMinus(cache, parts);
  }

  /** The lines of a single file: parts of 300 when batched, else one line per image. */
  function SingleLines(es: seq<Entry>, decode: Entry -> Decoded): seq<Status>
  {
    if |es| > LegacyBatchSize then PartLines(es, LegacyBatchSize, decode, CeilDiv(|es|, LegacyBatchSize))
    else RenderLog(es, decode, false, SingleFile(|es|))
  }

  /** The cache files a single file deletes again: its batch parts, if batched. */
  function SingleSwept(es: seq<Entry>, outputFileName: string, decode: Entry -> Decoded): set<string>
  {
    if |es| > LegacyBatchSize then NamesOf(BatchParts(es, outputFileName, decode)) else {}
  }

  /** The unbatched branch: one file of all the images, listed. */
  method WriteSingle(ws: Workspace, files: FileList, es: seq<Entry>, outputFileName: string, decode: Entry -> Decoded)
    modifies ws, files
    ensures ws.output == old(ws.output)[outputFileName := LegacyDoc(es, decode)]
    ensures ws.cache == old(ws.cache)
    ensures ws.log == old(ws.log) + RenderLog(es, decode, false, SingleFile(|es|))
    ensures files.items == old(files.items) + [Path(OutputDir, outputFileName)]
  {
    var out := Path(OutputDir, outputFileName);
    var pages := AddImages(ws, es, decode, SingleFile(|es|));
    ws.Write(out, PdfDoc(pages, DefaultCompression));
    files.Add(out);
  }

  /**
   * `createSinglePdfFromCbz` as written: past 300 images the merge
   * consumes the caller's whole list of output files, so files listed by
   * earlier archives are merged into this one and deleted.
   */
  method CreateSinglePdfFromCbz(ws: Workspace, files: FileList, es: seq<Entry>, outputFileName: string,
                                decode: Entry -> Decoded)
    requires |es| > LegacyBatchSize ==> Contains(outputFileName, ".pdf") && Listed(ws.output, files.items, outputFileName)
    modifies ws, files
    ensures |es| > LegacyBatchSize ==>
      && ws.output == SharedBatchOutput(old(ws.output), old(ws.cache), old(files.items), outputFileName, es, decode)
      && files.items == [Path(OutputDir, outputFileName)]
    ensures |es| <= LegacyBatchSize ==>
      && ws.output == old(ws.output)[outputFileName := LegacyDoc(es, decode)]
      && files.items == old(files.items) + [Path(OutputDir, outputFileName)]
    ensures ws.cache == old(ws.cache) - SingleSwept(es, outputFileName, decode)
    ensures ws.log == old(ws.log) + SingleLines(es, decode)
  {
    if |es| > LegacyBatchSize {
      BatchThenMerge(ws, files, es, outputFileName, decode);
    } else {
      WriteSingle(ws, files, es, outputFileName, decode);
      assert old(ws.cache) - {} == old(ws.cache);
    }
  }

  /**
   * As written, a batched single file exported after another file was
   * listed (the second archive of `applyEachFileAndCreatePdf`, which
   * hands every archive the same list) deletes that earlier file and
   * starts with its pages.
   */
  lemma SharedListSwallowsEarlierFile(output: map<string, PdfDoc>, cache: map<string, PdfDoc>, earlier: string,
                                      outputFileName: string, es: seq<Entry>, decode: Entry -> Decoded)
    requires earlier in output && earlier != outputFileName
    ensures var o := SharedBatchOutput(output, cache, [Path(OutputDir, earlier)], outputFileName, es, decode);
      && earlier !in o
      && o[outputFileName].pages == output[earlier].pages + RenderPages(es, decode, false)
      && (output[earlier].pages != [] ==> o[outputFileName] != LegacyDoc(es, decode))
  {
    var p := Path(OutputDir, earlier);
    assert NamesIn([p], OutputDir) == {earlier} by {
      assert [p][0] == p;
    }
    MergedPagesSnoc(output, cache, [], p);
    assert [] + [p] == [p];
  }

  /**
   * `createSinglePdfFromCbz` as evidently intended (and as the current
   * engine does it): the batch parts go through a list of their own, so
   * the file holds exactly the archive's pages and the caller's list only
   * gains the merged file, batched or not.
   */
  method CreateSinglePdfFromCbzOwnList(ws: Workspace, files: FileList, es: seq<Entry>, outputFileName: string,
                                       decode: Entry -> Decoded)
    requires |es| > LegacyBatchSize ==> Contains(outputFileName, ".pdf")
    modifies ws, files
    ensures ws.output == old(ws.output)[outputFileName := LegacyDoc(es, decode)]
    ensures ws.cache == old(ws.cache) - SingleSwept(es, outputFileName, decode)
    ensures ws.log == old(ws.log) + SingleLines(es, decode)
    ensures files.items == old(files.items) + [Path(OutputDir, outputFileName)]
  {
    if |es| > LegacyBatchSize {
      var temps := new FileList();
      BatchThenMerge(ws, temps, es, outputFileName, decode);
      SharedEmptyList(old(ws.output), old(ws.cache), outputFileName, es, decode);
      files.Add(Path(OutputDir, outputFileName));
    } else {
      WriteSingle(ws, files, es, outputFileName, decode);
      assert old(ws.cache) - {} == old(ws.cache);
    }
  }

  // ---------------------------------------------------- single or parts

  /**
   * What the earlier `createPdfEitherSingleOrMultiple` leaves in the
   * output directory from the ordered entries: nothing for an empty
   * archive, the parts when longer than `maxPages`, else one file.
   */
  function LegacyArtifacts(es: seq<Entry>, outputFileName: string, maxPages: nat, decode: Entry -> Decoded): seq<Artifact>
    requires maxPages > 0
  {
    if |es| == 0 then []
    else if |es| > maxPages then LegacyParts(es, outputFileName, maxPages, decode, CeilDiv(|es|, maxPages))
    else [Artifact(outputFileName, LegacyDoc(es, decode))]
  }

  function LegacySwept(es: seq<Entry>, outputFileName: string, maxPages: nat, decode: Entry -> Decoded): set<string>
    requires maxPages > 0
  {
    if 0 < |es| <= maxPages then SingleSwept(es, outputFileName, decode) else {}
  }

  function LegacyLog(es: seq<Entry>, outputFileName: string, maxPages: nat, decode: Entry -> Decoded): seq<Status>
    requires maxPages > 0
  {
    if |es| == 0 then [NoImagesFound(outputFileName)]
    else if |es| > maxPages then PartLines(es, maxPages, decode, CeilDiv(|es|, maxPages))
    else SingleLines(es, decode)
  }

  /**
   * The split decision: nothing for an empty archive; `ceil(total / maxPages)`
   * parts named `_part-1` onwards that together hold every page in order
   * when longer than `maxPages`; otherwise one file of all the pages.
   */
  lemma LegacyArtifactsSpec(es: seq<Entry>, outputFileName: string, maxPages: nat, decode: Entry -> Decoded)
    requires maxPages > 0
    ensures var arts := LegacyArtifacts(es, outputFileName, maxPages, decode);
      && (|es| == 0 <==> arts == [])
      && (0 < |es| <= maxPages ==> arts == [Artifact(outputFileName, LegacyDoc(es, decode))])
      && (|es| > maxPages ==>
            |arts| == CeilDiv(|es|, maxPages)
            && (forall k :: 0 <= k < |arts| ==> arts[k].name == PartName(outputFileName, k + 1))
            && AllPages(arts) == RenderPages(es, decode, false))
  {
    if |es| > maxPages {
      LegacySplitSpec(es, outputFileName, maxPages, decode);
    }
  }

  /** The parts of an archive longer than `maxPages`. */
  lemma LegacySplitSpec(es: seq<Entry>, outputFileName: string, maxPages: nat, decode: Entry -> Decoded)
    requires maxPages > 0 && |es| > maxPages
    ensures var arts := LegacyParts(es, outputFileName, maxPages, decode, CeilDiv(|es|, maxPages));
      && |arts| == CeilDiv(|es|, maxPages) && arts != []
      && (forall k :: 0 <= k < |arts| ==> arts[k].name == PartName(outputFileName, k + 1))
      && AllPages(arts) == RenderPages(es, decode, false)
  {
    var arts := LegacyParts(es, outputFileName, maxPages, decode, CeilDiv(|es|, maxPages));
    CeilDivBounds(|es|, maxPages);
    PartsCoverPages(es, outputFileName, maxPages, decode);
    forall k | 0 <= k < |arts| ensures arts[k].name == PartName(outputFileName, k + 1) {
      var a := LegacyPart(es, outputFileName, maxPages, decode, k);
      assert arts[k] == a;
    }
  }

  /**
   * On archives without WebP entries the earlier engine writes what the
   * current one writes without compression.
   */
  lemma SameArtifactsWithoutWebp(es: seq<Entry>, outputFileName: string, maxPages: nat, decode: Entry -> Decoded)
    requires maxPages > 0
    requires forall k :: 0 <= k < |es| ==> !IsWebp(es[k])
    ensures LegacyArtifacts(es, outputFileName, maxPages, decode) == EitherArtifacts(es, outputFileName, maxPages, false, decode)
  {
    if |es| > maxPages {
      var n := CeilDiv(|es|, maxPages);
      var a, b := LegacyParts(es, outputFileName, maxPages, decode, n), PartArtifacts(es, outputFileName, maxPages, false, decode, n);
      forall k | 0 <= k < n ensures a[k] == b[k] {
        var c := Chunk(es, maxPages, k);
        RangesTile(k, maxPages, |es|);
        assert forall m :: 0 <= m < |c| ==> c[m] == es[Start(k, maxPages, |es|) + m];
        SamePagesWithoutWebp(c, decode);
      }
    } else if |es| > 0 {
      SamePagesWithoutWebp(es, decode);
    }
  }

  /**
   * Whether an archive of `n` images goes out as one file batched through
   * the caller's shared list: more than 300 images, but no more than
   * `maxPages`.
   */
  predicate SharedMerge(n: nat, maxPages: nat)
  {
    LegacyBatchSize < n <= maxPages
  }

  /**
   * The output directory after the earlier `createPdfEitherSingleOrMultiple`:
   * a shared-list merge swallows the listed files, anything else writes
   * `LegacyArtifacts`.
   */
  function LegacyOutput(output: map<string, PdfDoc>, cache: map<string, PdfDoc>, listed: seq<Path>, es: seq<Entry>,
                        outputFileName: string, maxPages: nat, decode: Entry -> Decoded): map<string, PdfDoc>
    requires maxPages > 0
  {
    if SharedMerge(|es|, maxPages) then SharedBatchOutput(output, cache, listed, outputFileName, es, decode)
    else ApplyWrites(output, LegacyArtifacts(es, outputFileName, maxPages, decode))
  }

  /** The caller's list afterwards: the merged file alone, or the earlier list and the new files. */
  function LegacyListed(listed: seq<Path>, es: seq<Entry>, outputFileName: string, maxPages: nat,
                        decode: Entry -> Decoded): seq<Path>
    requires maxPages > 0
  {
    if SharedMerge(|es|, maxPages) then [Path(OutputDir, outputFileName)]
    else listed + FilesOf(LegacyArtifacts(es, outputFileName, maxPages, decode))
  }

  /** With nothing listed before, the earlier engine writes exactly `LegacyArtifacts`. */
  lemma LegacyOutputEmptyList(output: map<string, PdfDoc>, cache: map<string, PdfDoc>, es: seq<Entry>,
                              outputFileName: string, maxPages: nat, decode: Entry -> Decoded)
    requires maxPages > 0
    ensures LegacyOutput(output, cache, [], es, outputFileName, maxPages, decode)
            == ApplyWrites(output, LegacyArtifacts(es, outputFileName, maxPages, decode))
    ensures LegacyListed([], es, outputFileName, maxPages, decode)
            == FilesOf(LegacyArtifacts(es, outputFileName, maxPages, decode))
  {
    EmptyListOutput(output, cache, es, outputFileName, maxPages, decode);
    EmptyListListed(es, outputFileName, maxPages, decode);
  }

  lemma EmptyListOutput(output: map<string, PdfDoc>, cache: map<string, PdfDoc>, es: seq<Entry>,
                        outputFileName: string, maxPages: nat, decode: Entry -> Decoded)
    requires maxPages > 0
    ensures LegacyOutput(output, cache, [], es, outputFileName, maxPages, decode)
            == ApplyWrites(output, LegacyArtifacts(es, outputFileName, maxPages, decode))
  {
    if SharedMerge(|es|, maxPages) {
      SharedEmptyOutput(output, cache, es, outputFileName, maxPages, decode);
    }
  }

  lemma SharedEmptyOutput(output: map<string, PdfDoc>, cache: map<string, PdfDoc>, es: seq<Entry>,
                          outputFileName: string, maxPages: nat, decode: Entry -> Decoded)
    requires maxPages > 0 && SharedMerge(|es|, maxPages)
    ensures LegacyOutput(output, cache, [], es, outputFileName, maxPages, decode)
            == ApplyWrites(output, LegacyArtifacts(es, outputFileName, maxPages, decode))
  {
    SingleOutput(output, cache, [], es, outputFileName, maxPages, decode);
    SharedEmptyList(output, cache, outputFileName, es, decode);
  }

  /** The parts branch in terms of the multi-part export's own contract. */
  lemma PartsOutput(output: map<string, PdfDoc>, cache: map<string, PdfDoc>, listed: seq<Path>, es: seq<Entry>,
                    outputFileName: string, maxPages: nat, decode: Entry -> Decoded)
    requires 0 < maxPages < |es|
    ensures var parts := LegacyParts(es, outputFileName, maxPages, decode, CeilDiv(|es|, maxPages));
      && LegacyOutput(output, cache, listed, es, outputFileName, maxPages, decode) == ApplyWrites(output, parts)
      && LegacyListed(listed, es, outputFileName, maxPages, decode) == listed + PathsOf(OutputDir, parts)
      && LegacySwept(es, outputFileName, maxPages, decode) == {}
      && LegacyLog(es, outputFileName, maxPages, decode) == PartLines(es, maxPages, decode, CeilDiv(|es|, maxPages))
  {
    var parts := LegacyParts(es, outputFileName, maxPages, decode, CeilDiv(|es|, maxPages));
    assert PathsOf(OutputDir, parts) == FilesOf(parts);
  }

  lemma EmptyListListed(es: seq<Entry>, outputFileName: string, maxPages: nat, decode: Entry -> Decoded)
    requires maxPages > 0
    ensures LegacyListed([], es, outputFileName, maxPages, decode)
            == FilesOf(LegacyArtifacts(es, outputFileName, maxPages, decode))
  {
    var l := FilesOf(LegacyArtifacts(es, outputFileName, maxPages, decode));
    if SharedMerge(|es|, maxPages) {
      var a := Artifact(outputFileName, LegacyDoc(es, decode));
      assert LegacyArtifacts(es, outputFileName, maxPages, decode) == [a];
      Export.FilesOfSnoc([], a);
      assert [] + [a] == [a];
    } else {
      assert [] + l == l;
    }
  }

  lemma OneWrite(m: map<string, PdfDoc>, a: Artifact)
    ensures ApplyWrites(m, [a]) == m[a.name := a.doc] && FilesOf([a]) == [Path(OutputDir, a.name)]
  {
    Export.ApplyWritesSnoc(m, [], a);
    Export.FilesOfSnoc([], a);
    assert [] + [a] == [a];
  }

  /** The single-file branch in terms of `createSinglePdfFromCbz`'s own contract. */
  lemma SingleOutput(output: map<string, PdfDoc>, cache: map<string, PdfDoc>, listed: seq<Path>, es: seq<Entry>,
                     outputFileName: string, maxPages: nat, decode: Entry -> Decoded)
    requires 0 < |es| <= maxPages
    ensures var o, l := LegacyOutput(output, cache, listed, es, outputFileName, maxPages, decode),
                        LegacyListed(listed, es, outputFileName, maxPages, decode);
      && (|es| > LegacyBatchSize ==>
            o == SharedBatchOutput(output, cache, listed, outputFileName, es, decode)
            && l == [Path(OutputDir, outputFileName)])
      && (|es| <= LegacyBatchSize ==>
            o == output[outputFileName := LegacyDoc(es, decode)] && l == listed + [Path(OutputDir, outputFileName)])
    ensures LegacySwept(es, outputFileName, maxPages, decode) == SingleSwept(es, outputFileName, decode)
    ensures LegacyLog(es, outputFileName, maxPages, decode) == SingleLines(es, decode)
  {
    var a := Artifact(outputFileName, LegacyDoc(es, decode));
    assert LegacyArtifacts(es, outputFileName, maxPages, decode) == [a];
    OneWrite(output, a);
  }

  /**
   * A shared-list merge deletes every listed file, writes their pages
   * followed by the archive's into the output, and leaves every other
   * file alone.
   */
  lemma SharedOutputSpec(output: map<string, PdfDoc>, cache: map<string, PdfDoc>, listed: seq<Path>, es: seq<Entry>,
                         outputFileName: string, maxPages: nat, decode: Entry -> Decoded)
    requires maxPages > 0 && SharedMerge(|es|, maxPages) && Listed(output, listed, outputFileName)
    ensures var o := LegacyOutput(output, cache, listed, es, outputFileName, maxPages, decode);
      && (forall k :: 0 <= k < |listed| ==> listed[k].name !in o)
      && outputFileName in o
      && o[outputFileName].pages == MergedPages(output, cache, listed) + RenderPages(es, decode, false)
      && (forall n :: n in output && n != outputFileName && n !in NamesIn(listed, OutputDir) ==> n in o && o[n] == output[n])
  {
    var o := LegacyOutput(output, cache, listed, es, outputFileName, maxPages, decode);
    forall k | 0 <= k < |listed| ensures listed[k].name !in o {
      assert listed[k].name in NamesIn(listed, OutputDir);
      assert listed[k].name != outputFileName;
    }
  }

  /** The non-empty branch: the ordered entries exported as parts or as one file. */
  method ExportOrdered(ws: Workspace, files: FileList, ordered: seq<Entry>, outputFileName: string, maxPages: nat,
                       decode: Entry -> Decoded)
    requires maxPages > 0 && ordered != []
    requires SharedMerge(|ordered|, maxPages) ==>
      Contains(outputFileName, ".pdf") && Listed(ws.output, files.items, outputFileName)
    modifies ws, files
    ensures ws.output == LegacyOutput(old(ws.output), old(ws.cache), old(files.items), ordered, outputFileName,
                                      maxPages, decode)
    ensures files.items == LegacyListed(old(files.items), ordered, outputFileName, maxPages, decode)
    ensures ws.cache == old(ws.cache) - LegacySwept(ordered, outputFileName, maxPages, decode)
    ensures ws.log == old(ws.log) + LegacyLog(ordered, outputFileName, maxPages, decode)
  {
    if |ordered| > maxPages {
      PartsOutput(ws.output, ws.cache, files.items, ordered, outputFileName, maxPages, decode);
      CreateMultiplePdfFromCbz(ws, files, ordered, outputFileName, OutputDir, maxPages, decode);
      assert old(ws.cache) - {} == old(ws.cache);
    } else {
      SingleOutput(ws.output, ws.cache, files.items, ordered, outputFileName, maxPages, decode);
      CreateSinglePdfFromCbz(ws, files, ordered, outputFileName, decode);
    }
  }

  /**
   * The earlier `createPdfEitherSingleOrMultiple` on one archive's
   * entries: an empty archive only reports that no image was found and
   * yields an empty list; otherwise the ordered entries are exported
   * through the caller's shared list, which is returned.
   */
  method CreatePdfEitherSingleOrMultiple(ws: Workspace, files: FileList, es: seq<Entry>, useOffset: bool,
                                         outputFileName: string, maxPages: nat, decode: Entry -> Decoded)
    returns (r: seq<Path>)
    requires maxPages > 0
    requires SharedMerge(|es|, maxPages) ==>
      Contains(outputFileName, ".pdf") && Listed(ws.output, files.items, outputFileName)
    modifies ws, files
    ensures ws.output == LegacyOutput(old(ws.output), old(ws.cache), old(files.items), OrderEntries(es, useOffset),
                                      outputFileName, maxPages, decode)
    ensures files.items == LegacyListed(old(files.items), OrderEntries(es, useOffset), outputFileName, maxPages, decode)
    ensures ws.cache == old(ws.cache) - LegacySwept(OrderEntries(es, useOffset), outputFileName, maxPages, decode)
    ensures ws.log == old(ws.log) + LegacyLog(OrderEntries(es, useOffset), outputFileName, maxPages, decode)
    ensures r == if es == [] then [] else files.items
  {
    if |es| == 0 {
      ws.Say(NoImagesFound(outputFileName));
      assert old(ws.cache) - {} == old(ws.cache);
      assert files.items == old(files.items) + [];
      return [];
    }
    var ordered := OrderEntries(es, useOffset);
    ExportOrdered(ws, files, ordered, outputFileName, maxPages, decode);
    r := files.items;
  }
}
