/**
 * `createSinglePdfFromCbz`, `createMultiplePdfFromCbz` and
 * `createPdfEitherSingleOrMultiple`: the export of one archive's entries
 * as one file or as parts.
 */
module Export {
  import opened Wrappers
  import opened Archive
  import opened Partition
  import opened Pdf
  import opened Plan
  import opened Render
  import opened Merge
  import opened Batches

  // ------------------------------------------------------- single file

  /** The batch files a single-file export deletes again: none unless it batched. */
  function SingleSwept(es: seq<Entry>, batchSize: nat): set<string>
    requires batchSize > 0
  {
    if |es| > batchSize then BatchNames(CeilDiv(|es|, batchSize)) else {}
  }

  /**
   * `createSinglePdfFromCbz`: one file of all of `es` under the given
   * name, rendered in memory batches when longer than `batchSize`, and
   * listed among the output files.
   */
  method CreateSinglePdfFromCbz(ws: Workspace, files: FileList, es: seq<Entry>, outputFileName: string,
                                decode: Entry -> Decoded, batchSize: nat, compress: bool)
    requires batchSize > 0
    modifies ws, files
    ensures ws.output == old(ws.output)[outputFileName := Doc(es, compress, decode)]
    ensures ws.cache == old(ws.cache) - SingleSwept(es, batchSize)
    ensures ws.log == old(ws.log) + SingleLog(es, batchSize, decode)
    ensures files.items == old(files.items) + [Path(OutputDir, outputFileName)]
  {
    if |es| > batchSize {
      var processed := CreatePdfWithBatchProcessing(ws, es, outputFileName, decode, Direct, batchSize, compress);
      files.Add(processed);
      return;
    }
    var out := Path(OutputDir, outputFileName);
    CreatePdfFromImageList(ws, es, out, decode, Direct, SingleFile(|es|), compress);
    SayAllDirect(RenderLog(es, decode, true, SingleFile(|es|)));
    MinusMinus(old(ws.cache), {}, {});
    files.Add(out);
  }

  // ------------------------------------------------------------ parts

  function PartsSwept(es: seq<Entry>, maxPages: nat, batchSize: nat, n: nat): set<string>
    requires maxPages > 0 && batchSize > 0 && n <= CeilDiv(|es|, maxPages)
  {
    if n == 0 then {} else PartsSwept(es, maxPages, batchSize, n - 1) + SingleSwept(Chunk(es, maxPages, n - 1), batchSize)
  }

  lemma ApplyWritesSnoc(m: map<string, PdfDoc>, arts: seq<Artifact>, a: Artifact)
    ensures ApplyWrites(m, arts + [a]) == ApplyWrites(m, arts)[a.name := a.doc]
  {
    assert (arts + [a])[..|arts|] == arts;
  }

  lemma FilesOfSnoc(arts: seq<Artifact>, a: Artifact)
    ensures FilesOf(arts + [a]) == FilesOf(arts) + [Path(OutputDir, a.name)]
  {
    assert (arts + [a])[..|arts|] == arts;
  }

  /**
   * One iteration of `createMultiplePdfFromCbz`: part `i + 1` is chunk `i`
   * under its part name, batched (its lines wrapped with the part) when
   * the chunk is longer than `batchSize`.
   */
  method CreatePart(ws: Workspace, files: FileList, es: seq<Entry>, outputFileName: string, maxPages: nat,
                    decode: Entry -> Decoded, batchSize: nat, compress: bool, i: nat)
    requires maxPages > 0 && batchSize > 0 && i < CeilDiv(|es|, maxPages)
    modifies ws, files
    ensures var a := PartArtifact(es, outputFileName, maxPages, compress, decode, i);
      ws.output == old(ws.output)[a.name := a.doc] && files.items == old(files.items) + [Path(OutputDir, a.name)]
    ensures ws.cache == old(ws.cache) - SingleSwept(Chunk(es, maxPages, i), batchSize)
    ensures ws.log == old(ws.log) + PartLog(es, maxPages, batchSize, decode, i)
  {
    var parts := CeilDiv(|es|, maxPages);
    var name := PartName(outputFileName, i + 1);
    var out := Path(OutputDir, name);
    var (start, end) := CalculateRange(i, maxPages, |es|);
    var images := Chunk(es, maxPages, i);
    if |images| > batchSize {
      var processed := CreatePdfWithBatchProcessing(ws, images, name, decode, WithinPart(i + 1, parts), batchSize, compress);
      files.Add(processed);
    } else {
      CreatePdfFromImageList(ws, images, out, decode, Direct, PartFile(i + 1, parts, start, |es|), compress);
      SayAllDirect(RenderLog(images, decode, true, PartFile(i + 1, parts, start, |es|)));
      MinusMinus(old(ws.cache), {}, {});
      files.Add(out);
    }
  }

  /**
   * `createMultiplePdfFromCbz`: parts `1 .. ceil(total / maxPages)`, in
   * order, each written and listed as it is produced.
   */
  method CreateMultiplePdfFromCbz(ws: Workspace, files: FileList, es: seq<Entry>, outputFileName: string,
                                  maxPages: nat, decode: Entry -> Decoded, batchSize: nat, compress: bool)
    requires maxPages > 0 && batchSize > 0
    modifies ws, files
    ensures var arts := PartArtifacts(es, outputFileName, maxPages, compress, decode, CeilDiv(|es|, maxPages));
      ws.output == ApplyWrites(old(ws.output), arts) && files.items == old(files.items) + FilesOf(arts)
    ensures ws.cache == old(ws.cache) - PartsSwept(es, maxPages, batchSize, CeilDiv(|es|, maxPages))
    ensures ws.log == old(ws.log) + PartsLog(es, maxPages, batchSize, decode, CeilDiv(|es|, maxPages))
  {
    var parts := CeilDiv(|es|, maxPages);
    var i := 0;
    while i < parts
      invariant 0 <= i <= parts
      invariant ws.output == ApplyWrites(old(ws.output), PartArtifacts(es, outputFileName, maxPages, compress, decode, i))
      invariant files.items == old(files.items) + FilesOf(PartArtifacts(es, outputFileName, maxPages, compress, decode, i))
      invariant ws.cache == old(ws.cache) - PartsSwept(es, maxPages, batchSize, i)
      invariant ws.log == old(ws.log) + PartsLog(es, maxPages, batchSize, decode, i)
    {
      PartTurn(ws, files, es, outputFileName, maxPages, decode, batchSize, compress, i,
               old(ws.output), old(files.items), old(ws.cache), old(ws.log));
      i := i + 1;
    }
  }

  /** Part `i + 1` written: the state after parts `1 .. i` becomes the state after parts `1 .. i + 1`. */
  method PartTurn(ws: Workspace, files: FileList, es: seq<Entry>, outputFileName: string, maxPages: nat,
                  decode: Entry -> Decoded, batchSize: nat, compress: bool, i: nat,
                  ghost output: map<string, PdfDoc>, ghost items: seq<Path>, ghost cache: map<string, PdfDoc>,
                  ghost log: seq<Status>)
    requires maxPages > 0 && batchSize > 0 && i < CeilDiv(|es|, maxPages)
    requires ws.output == ApplyWrites(output, PartArtifacts(es, outputFileName, maxPages, compress, decode, i))
    requires files.items == items + FilesOf(PartArtifacts(es, outputFileName, maxPages, compress, decode, i))
    requires ws.cache == cache - PartsSwept(es, maxPages, batchSize, i)
    requires ws.log == log + PartsLog(es, maxPages, batchSize, decode, i)
    modifies ws, files
    ensures ws.output == ApplyWrites(output, PartArtifacts(es, outputFileName, maxPages, compress, decode, i + 1))
    ensures files.items == items + FilesOf(PartArtifacts(es, outputFileName, maxPages, compress, decode, i + 1))
    ensures ws.cache == cache - PartsSwept(es, maxPages, batchSize, i + 1)
    ensures ws.log == log + PartsLog(es, maxPages, batchSize, decode, i + 1)
  {
    CreatePart(ws, files, es, outputFileName, maxPages, decode, batchSize, compress, i);
    PartsStep(output, items, es, outputFileName, maxPages, compress, decode, i);
    PartsTrailStep(cache, log, es, maxPages, batchSize, decode, i);
  }

  /** The output directory and list after parts `1 .. i + 1`: those after parts `1 .. i`, then part `i + 1`. */
  lemma PartsStep(output: map<string, PdfDoc>, items: seq<Path>, es: seq<Entry>, outputFileName: string,
                  maxPages: nat, compress: bool, decode: Entry -> Decoded, i: nat)
    requires maxPages > 0 && i < CeilDiv(|es|, maxPages)
    ensures var arts := PartArtifacts(es, outputFileName, maxPages, compress, decode, i);
      var a := PartArtifact(es, outputFileName, maxPages, compress, decode, i);
      var arts' := PartArtifacts(es, outputFileName, maxPages, compress, decode, i + 1);
      && ApplyWrites(output, arts') == ApplyWrites(output, arts)[a.name := a.doc]
      && items + FilesOf(arts') == items + FilesOf(arts) + [Path(OutputDir, a.name)]
  {
    var arts := PartArtifacts(es, outputFileName, maxPages, compress, decode, i);
    var a := PartArtifact(es, outputFileName, maxPages, compress, decode, i);
    assert PartArtifacts(es, outputFileName, maxPages, compress, decode, i + 1) == arts + [a];
    ApplyWritesSnoc(output, arts, a);
    FilesOfSnoc(arts, a);
    Assoc(items, FilesOf(arts), [Path(OutputDir, a.name)]);
  }

  /** The cache and log after parts `1 .. i + 1`: those after parts `1 .. i`, then part `i + 1`. */
  lemma PartsTrailStep(cache: map<string, PdfDoc>, log: seq<Status>, es: seq<Entry>, maxPages: nat, batchSize: nat,
                       decode: Entry -> Decoded, i: nat)
    requires maxPages > 0 && batchSize > 0 && i < CeilDiv(|es|, maxPages)
    ensures cache - PartsSwept(es, maxPages, batchSize, i + 1)
            == cache - PartsSwept(es, maxPages, batchSize, i) - SingleSwept(Chunk(es, maxPages, i), batchSize)
    ensures log + PartsLog(es, maxPages, batchSize, decode, i + 1)
            == log + PartsLog(es, maxPages, batchSize, decode, i) + PartLog(es, maxPages, batchSize, decode, i)
  {
    MinusMinus(cache, PartsSwept(es, maxPages, batchSize, i), SingleSwept(Chunk(es, maxPages, i), batchSize));
    Assoc(log, PartsLog(es, maxPages, batchSize, decode, i), PartLog(es, maxPages, batchSize, decode, i));
  }

  // ----------------------------------------------------- single or parts

  function EitherSwept(es: seq<Entry>, maxPages: nat, batchSize: nat): set<string>
    requires maxPages > 0 && batchSize > 0
  {
    if |es| == 0 then {}
    else if |es| > maxPages then PartsSwept(es, maxPages, batchSize, CeilDiv(|es|, maxPages))
    else SingleSwept(es, batchSize)
  }

  /** The export of a non-empty archive's ordered entries: parts when longer than `maxPages`, else one file. */
  method ExportOrdered(ws: Workspace, files: FileList, ordered: seq<Entry>, outputFileName: string, maxPages: nat,
                       batchSize: nat, compress: bool, decode: Entry -> Decoded)
    requires maxPages > 0 && batchSize > 0 && ordered != []
    modifies ws, files
    ensures var arts := EitherArtifacts(ordered, outputFileName, maxPages, compress, decode);
      ws.output == ApplyWrites(old(ws.output), arts) && files.items == old(files.items) + FilesOf(arts)
    ensures ws.cache == old(ws.cache) - EitherSwept(ordered, maxPages, batchSize)
    ensures ws.log == old(ws.log) + EitherLog(ordered, outputFileName, maxPages, batchSize, decode)
  {
    if |ordered| > maxPages {
      CreateMultiplePdfFromCbz(ws, files, ordered, outputFileName, maxPages, decode, batchSize, compress);
    } else {
      CreateSinglePdfFromCbz(ws, files, ordered, outputFileName, decode, batchSize, compress);
      ghost var a := Artifact(outputFileName, Doc(ordered, compress, decode));
      ApplyWritesSnoc(old(ws.output), [], a);
      FilesOfSnoc([], a);
      assert [] + [a] == [a];
    }
  }

  /**
   * `createPdfEitherSingleOrMultiple` on the entries of one archive: an
   * empty archive only reports that no image was found; otherwise the
   * entries are ordered and exported as one file or as parts. Returns the
   * output list, or an empty list for an empty archive.
   */
  method CreatePdfEitherSingleOrMultiple(ws: Workspace, files: FileList, es: seq<Entry>, useOffset: bool,
                                         outputFileName: string, maxPages: nat, batchSize: nat, compress: bool,
                                         decode: Entry -> Decoded)
    returns (r: seq<Path>)
    requires maxPages > 0 && batchSize > 0
    modifies ws, files
    ensures var arts := EitherArtifacts(OrderEntries(es, useOffset), outputFileName, maxPages, compress, decode);
      ws.output == ApplyWrites(old(ws.output), arts) && files.items == old(files.items) + FilesOf(arts)
    ensures ws.cache == old(ws.cache) - EitherSwept(OrderEntries(es, useOffset), maxPages, batchSize)
    ensures ws.log == old(ws.log) + EitherLog(OrderEntries(es, useOffset), outputFileName, maxPages, batchSize, decode)
    ensures r == if es == [] then [] else files.items
  {
    if |es| == 0 {
      ws.Say(NoImagesFound(outputFileName));
      MinusMinus(old(ws.cache), {}, {});
      assert files.items == old(files.items) + [];
      return [];
    }
    var ordered := OrderEntries(es, useOffset);
    ExportOrdered(ws, files, ordered, outputFileName, maxPages, batchSize, compress, decode);
    r := files.items;
  }
}
