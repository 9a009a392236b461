/**
 * What the CBZ to PDF engine produces, stated without running it: the
 * names of the files it writes, the split of the ordered entries into
 * parts of at most `maxPages` pages and memory batches of at most
 * `batchSize` pages, the documents left in the output directory and the
 * status lines reported on the way. The documents do not depend on the
 * batch size: batching changes which temporary files exist on the way,
 * not what comes out.
 */
module Plan {
  import opened Wrappers
  import opened Strings
  import opened Archive
  import opened Partition
  import opened Pdf

  // ------------------------------------------------------------- names

  /** `outputFileName.replace(".pdf", "_part-${part}.pdf")`. */
  function PartName(outputFileName: string, part: nat): string
  {
    ReplaceAll(outputFileName, ".pdf", "_part-" + NatToString(part) + ".pdf")
  }

  /** `"temp_memory_batch_${batch}.pdf"`, a file of the cache directory. */
  function BatchName(batch: nat): string
  {
    "temp_memory_batch_" + NatToString(batch) + ".pdf"
  }

  lemma BatchNameInjective(a: nat, b: nat)
    ensures BatchName(a) == BatchName(b) ==> a == b
  {
    if BatchName(a) == BatchName(b) {
      BatchNameSame(a, b);
    }
  }

  lemma BatchNameSame(a: nat, b: nat)
    requires BatchName(a) == BatchName(b)
    ensures a == b
  {
    var p := "temp_memory_batch_";
    assert BatchName(a) == p + (NatToString(a) + ".pdf");
    assert BatchName(b) == p + (NatToString(b) + ".pdf");
    assert BatchName(a)[|p|..] == NatToString(a) + ".pdf";
    assert BatchName(b)[|p|..] == NatToString(b) + ".pdf";
    assert NatToString(a) + ".pdf" == NatToString(a) + "." + "pdf";
    assert NatToString(b) + ".pdf" == NatToString(b) + "." + "pdf";
    DigitsThenDot(NatToString(a), NatToString(b), "pdf", "pdf");
    NatToStringInjective(a, b);
  }

  /** A digit string followed by a dot is recovered from the whole. */
  lemma DigitsThenDot(a: string, b: string, x: string, y: string)
    requires AllDigits(a) && AllDigits(b) && a + "." + x == b + "." + y
    ensures a == b
  {
    SubstringBeforeFirst(a, '.', x);
    SubstringBeforeFirst(b, '.', y);
  }

  /** Set of the batch files `1 .. count`. */
  function BatchNames(count: nat): set<string>
  {
    set k | 1 <= k <= count :: BatchName(k)
  }

  // ------------------------------------------------------------ chunks

  /** The entries of chunk `i` of size `size`. */
  function Chunk(es: seq<Entry>, size: nat, i: nat): (c: seq<Entry>)
    requires size > 0 && i < CeilDiv(|es|, size)
    ensures 0 < |c| <= size
  {
    RangesTile(i, size, |es|);
    es[Start(i, size, |es|)..End(i, size, |es|)]
  }

  /** How many entries chunks `0 .. n-1` cover. */
  function Covered(es: seq<Entry>, size: nat, n: nat): (k: nat)
    requires size > 0 && n <= CeilDiv(|es|, size)
    ensures k <= |es|
  {
    if n == 0 then 0 else RangesTile(n - 1, size, |es|); End(n - 1, size, |es|)
  }

  /** The pages of chunks `0 .. n-1`, one after the other. */
  function ChunkPages(es: seq<Entry>, size: nat, decode: Entry -> Decoded, n: nat): seq<Page>
    requires size > 0 && n <= CeilDiv(|es|, size)
  {
    if n == 0 then [] else ChunkPages(es, size, decode, n - 1) + RenderPages(Chunk(es, size, n - 1), decode, true)
  }

  /**
   * Rendering the chunks one by one and joining the pages gives the pages
   * of the entries they cover; all the chunks cover every entry.
   */
  lemma {:induction false} ChunkPagesCover(es: seq<Entry>, size: nat, decode: Entry -> Decoded, n: nat)
    requires size > 0 && n <= CeilDiv(|es|, size)
    ensures ChunkPages(es, size, decode, n) == RenderPages(es[..Covered(es, size, n)], decode, true)
    ensures n == CeilDiv(|es|, size) ==> Covered(es, size, n) == |es|
  {
    if n == 0 {
      CeilDivBounds(|es|, size);
    } else {
      ChunkPagesCover(es, size, decode, n - 1);
      RangesTile(n - 1, size, |es|);
      var lo, hi := Start(n - 1, size, |es|), End(n - 1, size, |es|);
      if n >= 2 { RangesTile(n - 2, size, |es|); }
      assert Covered(es, size, n - 1) == lo;
      SliceSplit(es, lo, hi);
      RenderPagesAppend(es[..lo], es[lo..hi], decode, true);
    }
  }

  // --------------------------------------------------------- artifacts

  /** A PDF the engine leaves in the output directory. */
  datatype Artifact = Artifact(name: string, doc: PdfDoc)

  /** The output directory after writing `arts` in order (a later write wins). */
  function ApplyWrites(m: map<string, PdfDoc>, arts: seq<Artifact>): map<string, PdfDoc>
  {
    if arts == [] then m
    else ApplyWrites(m, arts[..|arts| - 1])[arts[|arts| - 1].name := arts[|arts| - 1].doc]
  }

  lemma {:induction false} ApplyWritesAppend(m: map<string, PdfDoc>, a: seq<Artifact>, b: seq<Artifact>)
    ensures ApplyWrites(m, a + b) == ApplyWrites(ApplyWrites(m, a), b)
  {
    if b == [] {
      assert a + b == a;
    } else {
      assert (a + b)[..|a + b| - 1] == a + b[..|b| - 1];
      ApplyWritesAppend(m, a, b[..|b| - 1]);
    }
  }

  /** Writing `arts` creates or replaces their names and nothing else, the last write of a name winning. */
  lemma {:induction false} ApplyWritesSpec(m: map<string, PdfDoc>, arts: seq<Artifact>, n: string)
    ensures n in ApplyWrites(m, arts) <==> n in m || exists k :: 0 <= k < |arts| && arts[k].name == n
    ensures (forall k :: 0 <= k < |arts| ==> arts[k].name != n) && n in m ==> ApplyWrites(m, arts)[n] == m[n]
    ensures forall k ::
      (0 <= k < |arts| && arts[k].name == n && forall j :: k < j < |arts| ==> arts[j].name != n)
      ==> ApplyWrites(m, arts)[n] == arts[k].doc
  {
    if arts != [] {
      var init := arts[..|arts| - 1];
      ApplyWritesSpec(m, init, n);
      assert forall k :: 0 <= k < |init| ==> init[k] == arts[k];
    }
  }

  /** The paths of the produced files, in order. */
  function FilesOf(arts: seq<Artifact>): (r: seq<Path>)
    ensures |r| == |arts|
    ensures forall k :: 0 <= k < |arts| ==> r[k] == Path(OutputDir, arts[k].name)
  {
    if arts == [] then [] else FilesOf(arts[..|arts| - 1]) + [Path(OutputDir, arts[|arts| - 1].name)]
  }

  function Doc(es: seq<Entry>, compress: bool, decode: Entry -> Decoded): PdfDoc
  {
    PdfDoc(RenderPages(es, decode, true), Level(compress))
  }

  /** Part `i + 1` of an archive longer than `maxPages`: chunk `i`, under the part name. */
  function PartArtifact(es: seq<Entry>, outputFileName: string, maxPages: nat, compress: bool,
                        decode: Entry -> Decoded, i: nat): (a: Artifact)
    requires maxPages > 0 && i < CeilDiv(|es|, maxPages)
    ensures a.name == PartName(outputFileName, i + 1) && a.doc.compression == Level(compress)
  {
    Artifact(PartName(outputFileName, i + 1), Doc(Chunk(es, maxPages, i), compress, decode))
  }

  /** The part files of an archive longer than `maxPages`: parts `1 .. n`. */
  function PartArtifacts(es: seq<Entry>, outputFileName: string, maxPages: nat, compress: bool,
                         decode: Entry -> Decoded, n: nat): (r: seq<Artifact>)
    requires maxPages > 0 && n <= CeilDiv(|es|, maxPages)
    ensures |r| == n
    ensures forall k :: 0 <= k < n ==> r[k] == PartArtifact(es, outputFileName, maxPages, compress, decode, k)
  {
    if n == 0 then []
    else PartArtifacts(es, outputFileName, maxPages, compress, decode, n - 1)
         + [PartArtifact(es, outputFileName, maxPages, compress, decode, n - 1)]
  }

  /**
   * What `createPdfEitherSingleOrMultiple` produces from the ordered
   * entries: nothing for an empty archive, `ceil(total / maxPages)` part
   * files when it is longer than `maxPages`, otherwise one file of all
   * its pages. Directory entries count like any other entry.
   */
  function EitherArtifacts(es: seq<Entry>, outputFileName: string, maxPages: nat, compress: bool,
                           decode: Entry -> Decoded): seq<Artifact>
    requires maxPages > 0
  {
    if |es| == 0 then []
    else if |es| > maxPages then PartArtifacts(es, outputFileName, maxPages, compress, decode, CeilDiv(|es|, maxPages))
    else [Artifact(outputFileName, Doc(es, compress, decode))]
  }

  /**
   * Split decision: no file for an empty archive; the parts of a long
   * archive are named `_part-1` to `_part-N` and together hold every
   * page in order; otherwise one file under the given name holds them.
   */
  lemma EitherArtifactsSpec(es: seq<Entry>, outputFileName: string, maxPages: nat, compress: bool,
                            decode: Entry -> Decoded)
    requires maxPages > 0
    ensures var arts := EitherArtifacts(es, outputFileName, maxPages, compress, decode);
      && (|es| == 0 <==> arts == [])
      && (0 < |es| <= maxPages ==> arts == [Artifact(outputFileName, Doc(es, compress, decode))])
      && (|es| > maxPages ==>
            |arts| == CeilDiv(|es|, maxPages)
            && (forall k :: 0 <= k < |arts| ==> arts[k].name == PartName(outputFileName, k + 1)
                                                && arts[k].doc.compression == Level(compress))
            && AllPages(arts) == RenderPages(es, decode, true))
  {
    if |es| > maxPages {
      LongSplitSpec(es, outputFileName, maxPages, compress, decode);
    }
  }

  /** The parts of an archive longer than `maxPages`. */
  lemma LongSplitSpec(es: seq<Entry>, outputFileName: string, maxPages: nat, compress: bool, decode: Entry -> Decoded)
    requires maxPages > 0 && |es| > maxPages
    ensures var arts := PartArtifacts(es, outputFileName, maxPages, compress, decode, CeilDiv(|es|, maxPages));
      && |arts| == CeilDiv(|es|, maxPages) && arts != []
      && (forall k :: 0 <= k < |arts| ==> arts[k].name == PartName(outputFileName, k + 1)
                                          && arts[k].doc.compression == Level(compress))
      && AllPages(arts) == RenderPages(es, decode, true)
  {
    var n := CeilDiv(|es|, maxPages);
    var arts := PartArtifacts(es, outputFileName, maxPages, compress, decode, n);
    CeilDivBounds(|es|, maxPages);
    PartsCoverPages(es, outputFileName, maxPages, compress, decode);
    forall k | 0 <= k < |arts|
      ensures arts[k].name == PartName(outputFileName, k + 1) && arts[k].doc.compression == Level(compress)
    {
      var a := PartArtifact(es, outputFileName, maxPages, compress, decode, k);
      assert arts[k] == a;
    }
  }

  /** Whatever the split, the files of one archive hold all its pages in order. */
  lemma EitherPages(es: seq<Entry>, outputFileName: string, maxPages: nat, compress: bool, decode: Entry -> Decoded)
    requires maxPages > 0
    ensures AllPages(EitherArtifacts(es, outputFileName, maxPages, compress, decode)) == RenderPages(es, decode, true)
  {
    EitherArtifactsSpec(es, outputFileName, maxPages, compress, decode);
    if 0 < |es| <= maxPages {
      var a := Artifact(outputFileName, Doc(es, compress, decode));
      AllPagesSnoc([], a);
      assert [] + [a] == [a];
    }
  }

  /** Together the parts hold every page, in order. */
  lemma PartsCoverPages(es: seq<Entry>, outputFileName: string, maxPages: nat, compress: bool,
                        decode: Entry -> Decoded)
    requires maxPages > 0
    ensures AllPages(PartArtifacts(es, outputFileName, maxPages, compress, decode, CeilDiv(|es|, maxPages)))
         == RenderPages(es, decode, true)
  {
    var n := CeilDiv(|es|, maxPages);
    PartArtifactsPages(es, outputFileName, maxPages, compress, decode, n);
    ChunkPagesCover(es, maxPages, decode, n);
    assert es[..|es|] == es;
  }

  /** The pages of several documents, one after the other. */
  function AllPages(arts: seq<Artifact>): seq<Page>
  {
    if arts == [] then [] else AllPages(arts[..|arts| - 1]) + arts[|arts| - 1].doc.pages
  }

  lemma AllPagesSnoc(arts: seq<Artifact>, a: Artifact)
    ensures AllPages(arts + [a]) == AllPages(arts) + a.doc.pages
  {
    assert (arts + [a])[..|arts|] == arts;
  }

  lemma {:induction false} PartArtifactsPages(es: seq<Entry>, outputFileName: string, maxPages: nat, compress: bool,
                                              decode: Entry -> Decoded, n: nat)
    requires maxPages > 0 && n <= CeilDiv(|es|, maxPages)
    ensures AllPages(PartArtifacts(es, outputFileName, maxPages, compress, decode, n)) == ChunkPages(es, maxPages, decode, n)
  {
    if n > 0 {
      PartArtifactsPages(es, outputFileName, maxPages, compress, decode, n - 1);
      AllPagesSnoc(PartArtifacts(es, outputFileName, maxPages, compress, decode, n - 1),
                   PartArtifact(es, outputFileName, maxPages, compress, decode, n - 1));
    }
  }

  // --------------------------------------------------------------- logs

  /** The lines of `createPdfWithBatchProcessing`'s batches `1 .. n`. */
  function BatchLog(es: seq<Entry>, batchSize: nat, decode: Entry -> Decoded, ch: Channel, n: nat): seq<Status>
    requires batchSize > 0 && n <= CeilDiv(|es|, batchSize)
  {
    if n == 0 then []
    else BatchLog(es, batchSize, decode, ch, n - 1)
         + SayAll(ch, RenderLog(Chunk(es, batchSize, n - 1), decode, true,
                                MemoryBatch(n, CeilDiv(|es|, batchSize), Start(n - 1, batchSize, |es|), |es|)))
  }

  /** The lines for one file of all of `es`, batched when longer than `batchSize`. */
  function SingleLog(es: seq<Entry>, batchSize: nat, decode: Entry -> Decoded): seq<Status>
    requires batchSize > 0
  {
    if |es| > batchSize then BatchLog(es, batchSize, decode, Direct, CeilDiv(|es|, batchSize))
    else RenderLog(es, decode, true, SingleFile(|es|))
  }

  /** The lines of part `i` (from 0) of `parts`. */
  function PartLog(es: seq<Entry>, maxPages: nat, batchSize: nat, decode: Entry -> Decoded, i: nat): seq<Status>
    requires maxPages > 0 && batchSize > 0 && i < CeilDiv(|es|, maxPages)
  {
    var c := Chunk(es, maxPages, i);
    var parts := CeilDiv(|es|, maxPages);
    if |c| > batchSize then BatchLog(c, batchSize, decode, WithinPart(i + 1, parts), CeilDiv(|c|, batchSize))
    else RenderLog(c, decode, true, PartFile(i + 1, parts, Start(i, maxPages, |es|), |es|))
  }

  function PartsLog(es: seq<Entry>, maxPages: nat, batchSize: nat, decode: Entry -> Decoded, n: nat): seq<Status>
    requires maxPages > 0 && batchSize > 0 && n <= CeilDiv(|es|, maxPages)
  {
    if n == 0 then [] else PartsLog(es, maxPages, batchSize, decode, n - 1) + PartLog(es, maxPages, batchSize, decode, n - 1)
  }

  function EitherLog(es: seq<Entry>, outputFileName: string, maxPages: nat, batchSize: nat,
                     decode: Entry -> Decoded): seq<Status>
    requires maxPages > 0 && batchSize > 0
  {
    if |es| == 0 then [NoImagesFound(outputFileName)]
    else if |es| > maxPages then PartsLog(es, maxPages, batchSize, decode, CeilDiv(|es|, maxPages))
    else SingleLog(es, batchSize, decode)
  }
}
