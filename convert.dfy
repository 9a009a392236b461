/**
 * `convertCbzToPdf`: the whole job over the selected files, either each
 * file on its own or all of them merged into one archive first.
 */
module Convert {
  import opened Wrappers
  import opened Strings
  import opened Archive
  import opened Pdf
  import opened Plan
  import opened Export
  import opened Combine

  /** The defaults of `convertCbzToPdf`'s parameters. */
  const DefaultMaxPages: nat := 100
  const DefaultBatchSize: nat := 300

  /** The default output names: `output_0.pdf`, `output_1.pdf`, and so on. */
  function DefaultNames(n: nat): (r: seq<string>)
    ensures |r| == n && forall i :: 0 <= i < n ==> r[i] == "output_" + NatToString(i) + ".pdf"
  {
    if n == 0 then [] else DefaultNames(n - 1) + ["output_" + NatToString(n - 1) + ".pdf"]
  }

  // --------------------------------------------------- file by file

  /** The files one selected file yields when converted on its own. */
  function SourceArtifacts(src: Source, outputFileName: string, useOffset: bool, maxPages: nat, compress: bool,
                           decode: Entry -> Decoded): seq<Artifact>
    requires maxPages > 0
  {
    match src
    case Cbz(es) => EitherArtifacts(OrderEntries(es, useOffset), outputFileName, maxPages, compress, decode)
    case _ => []
  }

  function SourceLines(src: Source, outputFileName: string, useOffset: bool, maxPages: nat, batchSize: nat,
                       decode: Entry -> Decoded): seq<Status>
    requires maxPages > 0 && batchSize > 0
  {
    match src
    case NoStream(path) => [CouldNotCopy(path)]
    case Unreadable => []
    case Cbz(es) => EitherLog(OrderEntries(es, useOffset), outputFileName, maxPages, batchSize, decode)
  }

  function SourceSwept(src: Source, useOffset: bool, maxPages: nat, batchSize: nat): set<string>
    requires maxPages > 0 && batchSize > 0
  {
    match src
    case Cbz(es) => EitherSwept(OrderEntries(es, useOffset), maxPages, batchSize)
    case _ => {}
  }

  function EachArtifacts(sources: seq<Source>, names: seq<string>, useOffset: bool, maxPages: nat, compress: bool,
                         decode: Entry -> Decoded, n: nat): seq<Artifact>
    requires maxPages > 0 && n <= |sources| <= |names|
  {
    if n == 0 then []
    else EachArtifacts(sources, names, useOffset, maxPages, compress, decode, n - 1)
         + SourceArtifacts(sources[n - 1], names[n - 1], useOffset, maxPages, compress, decode)
  }

  function EachLog(sources: seq<Source>, names: seq<string>, useOffset: bool, maxPages: nat, batchSize: nat,
                   decode: Entry -> Decoded, n: nat): seq<Status>
    requires maxPages > 0 && batchSize > 0 && n <= |sources| <= |names|
  {
    if n == 0 then []
    else EachLog(sources, names, useOffset, maxPages, batchSize, decode, n - 1)
         + SourceLines(sources[n - 1], names[n - 1], useOffset, maxPages, batchSize, decode)
  }

  function EachSwept(sources: seq<Source>, useOffset: bool, maxPages: nat, batchSize: nat, n: nat): set<string>
    requires maxPages > 0 && batchSize > 0 && n <= |sources|
  {
    if n == 0 then {} else EachSwept(sources, useOffset, maxPages, batchSize, n - 1) + SourceSwept(sources[n - 1], useOffset, maxPages, batchSize)
  }

  lemma FilesOfAppend(a: seq<Artifact>, b: seq<Artifact>)
    ensures FilesOf(a + b) == FilesOf(a) + FilesOf(b)
  {
    var l, r := FilesOf(a + b), FilesOf(a) + FilesOf(b);
    assert |l| == |r|;
    forall k | 0 <= k < |l| ensures l[k] == r[k] {
      if k < |a| { assert (a + b)[k] == a[k]; } else { assert (a + b)[k] == b[k - |a|]; }
    }
  }

  /**
   * One iteration of `applyEachFileAndCreatePdf`: the file is copied to
   * the cache and exported; a file that cannot be opened is reported
   * and skipped, one that is not a readable ZIP archive is skipped
   * silently.
   */
  method ExportSource(ws: Workspace, files: FileList, src: Source, outputFileName: string, useOffset: bool,
                      maxPages: nat, batchSize: nat, compress: bool, decode: Entry -> Decoded)
    requires maxPages > 0 && batchSize > 0
    modifies ws, files
    ensures ws.output == ApplyWrites(old(ws.output), SourceArtifacts(src, outputFileName, useOffset, maxPages, compress, decode))
    ensures files.items == old(files.items) + FilesOf(SourceArtifacts(src, outputFileName, useOffset, maxPages, compress, decode))
    ensures ws.cache == old(ws.cache) - SourceSwept(src, useOffset, maxPages, batchSize)
    ensures ws.log == old(ws.log) + SourceLines(src, outputFileName, useOffset, maxPages, batchSize, decode)
  {
    match src {
      case NoStream(path) =>
        ws.Say(CouldNotCopy(path));
      case Unreadable =>
        assert ws.log == old(ws.log) + [];
      case Cbz(es) =>
        var _ := CreatePdfEitherSingleOrMultiple(ws, files, es, useOffset, outputFileName, maxPages, batchSize, compress, decode);
    }
    if !src.Cbz? {
      MinusMinus(old(ws.cache), {}, {});
      assert files.items == old(files.items) + [];
    }
  }

  /** One more file adds its files after those of the files before it. */
  lemma EachStep(output: map<string, PdfDoc>, items: seq<Path>, sources: seq<Source>, names: seq<string>, useOffset: bool,
                 maxPages: nat, compress: bool, decode: Entry -> Decoded, i: nat)
    requires maxPages > 0 && i < |sources| <= |names|
    ensures var done := EachArtifacts(sources, names, useOffset, maxPages, compress, decode, i);
      var more := SourceArtifacts(sources[i], names[i], useOffset, maxPages, compress, decode);
      var all := EachArtifacts(sources, names, useOffset, maxPages, compress, decode, i + 1);
      && ApplyWrites(output, all) == ApplyWrites(ApplyWrites(output, done), more)
      && items + FilesOf(all) == (items + FilesOf(done)) + FilesOf(more)
  {
    var done := EachArtifacts(sources, names, useOffset, maxPages, compress, decode, i);
    var more := SourceArtifacts(sources[i], names[i], useOffset, maxPages, compress, decode);
    assert EachArtifacts(sources, names, useOffset, maxPages, compress, decode, i + 1) == done + more;
    ApplyWritesAppend(output, done, more);
    FilesOfAppend(done, more);
    Assoc(items, FilesOf(done), FilesOf(more));
  }

  /** One more file adds its lines after those of the files before it, and sweeps its batch files. */
  lemma EachStepLog(cache: map<string, PdfDoc>, log: seq<Status>, sources: seq<Source>, names: seq<string>, useOffset: bool,
                    maxPages: nat, batchSize: nat, decode: Entry -> Decoded, i: nat)
    requires maxPages > 0 && batchSize > 0 && i < |sources| <= |names|
    ensures cache - EachSwept(sources, useOffset, maxPages, batchSize, i + 1)
         == (cache - EachSwept(sources, useOffset, maxPages, batchSize, i)) - SourceSwept(sources[i], useOffset, maxPages, batchSize)
    ensures log + EachLog(sources, names, useOffset, maxPages, batchSize, decode, i + 1)
         == (log + EachLog(sources, names, useOffset, maxPages, batchSize, decode, i))
            + SourceLines(sources[i], names[i], useOffset, maxPages, batchSize, decode)
  {
    MinusMinus(cache, EachSwept(sources, useOffset, maxPages, batchSize, i), SourceSwept(sources[i], useOffset, maxPages, batchSize));
    Assoc(log, EachLog(sources, names, useOffset, maxPages, batchSize, decode, i),
          SourceLines(sources[i], names[i], useOffset, maxPages, batchSize, decode));
  }

  /** One round of the loop of `applyEachFileAndCreatePdf`: file `i` is exported after files `0 .. i-1`. */
  method ExportNext(ws: Workspace, files: FileList, ghost output: map<string, PdfDoc>, ghost items: seq<Path>,
                    ghost cache: map<string, PdfDoc>, ghost log: seq<Status>, sources: seq<Source>, names: seq<string>,
                    useOffset: bool, maxPages: nat, batchSize: nat, compress: bool, decode: Entry -> Decoded, i: nat)
    requires maxPages > 0 && batchSize > 0 && i < |sources| <= |names|
    requires ws.output == ApplyWrites(output, EachArtifacts(sources, names, useOffset, maxPages, compress, decode, i))
    requires files.items == items + FilesOf(EachArtifacts(sources, names, useOffset, maxPages, compress, decode, i))
    requires ws.cache == cache - EachSwept(sources, useOffset, maxPages, batchSize, i)
    requires ws.log == log + EachLog(sources, names, useOffset, maxPages, batchSize, decode, i)
    modifies ws, files
    ensures ws.output == ApplyWrites(output, EachArtifacts(sources, names, useOffset, maxPages, compress, decode, i + 1))
    ensures files.items == items + FilesOf(EachArtifacts(sources, names, useOffset, maxPages, compress, decode, i + 1))
    ensures ws.cache == cache - EachSwept(sources, useOffset, maxPages, batchSize, i + 1)
    ensures ws.log == log + EachLog(sources, names, useOffset, maxPages, batchSize, decode, i + 1)
  {
    EachStep(output, items, sources, names, useOffset, maxPages, compress, decode, i);
    EachStepLog(cache, log, sources, names, useOffset, maxPages, batchSize, decode, i);
    ExportSource(ws, files, sources[i], names[i], useOffset, maxPages, batchSize, compress, decode);
  }

  /** `applyEachFileAndCreatePdf`: every selected file exported on its own, in selection order. */
  method ApplyEachFileAndCreatePdf(ws: Workspace, files: FileList, sources: seq<Source>, names: seq<string>,
                                   useOffset: bool, maxPages: nat, batchSize: nat, compress: bool,
                                   decode: Entry -> Decoded)
    returns (r: seq<Path>)
    requires maxPages > 0 && batchSize > 0 && |sources| <= |names|
    modifies ws, files
    ensures ws.output == ApplyWrites(old(ws.output), EachArtifacts(sources, names, useOffset, maxPages, compress, decode, |sources|))
    ensures files.items == old(files.items) + FilesOf(EachArtifacts(sources, names, useOffset, maxPages, compress, decode, |sources|))
    ensures ws.cache == old(ws.cache) - EachSwept(sources, useOffset, maxPages, batchSize, |sources|)
    ensures ws.log == old(ws.log) + EachLog(sources, names, useOffset, maxPages, batchSize, decode, |sources|)
    ensures r == files.items
  {
    var i := 0;
    while i < |sources|
      invariant 0 <= i <= |sources|
      invariant ws.output == ApplyWrites(old(ws.output), EachArtifacts(sources, names, useOffset, maxPages, compress, decode, i))
      invariant files.items == old(files.items) + FilesOf(EachArtifacts(sources, names, useOffset, maxPages, compress, decode, i))
      invariant ws.cache == old(ws.cache) - EachSwept(sources, useOffset, maxPages, batchSize, i)
      invariant ws.log == old(ws.log) + EachLog(sources, names, useOffset, maxPages, batchSize, decode, i)
    {
      ExportNext(ws, files, old(ws.output), old(files.items), old(ws.cache), old(ws.log),
                 sources, names, useOffset, maxPages, batchSize, compress, decode, i);
      i := i + 1;
    }
    r := files.items;
  }

  // ---------------------------------------------------------- merged

  /** The entries of `combined_temp.cbz` once every selected file was added. */
  function CombinedEntries(sources: seq<Source>, names: seq<string>, copy: Entry -> Copy): seq<Entry>
    requires |sources| <= |names|
  {
    MergedZip(sources, names, copy, |sources|)
  }

  /**
   * The loop of `mergeFilesAndCreatePdf` that fills the combined archive:
   * source `i` is added under index `i` and its own output name.
   */
  method FillCombined(zip: ZipWriter, ws: Workspace, sources: seq<Source>, names: seq<string>, copy: Entry -> Copy)
    requires |sources| <= |names| && zip.entries == []
    modifies zip, ws
    ensures zip.entries == CombinedEntries(sources, names, copy)
    ensures ws.log == old(ws.log) + MergedZipLog(sources, names, copy, |sources|)
    ensures ws.output == old(ws.output) && ws.cache == old(ws.cache)
  {
    var i := 0;
    while i < |sources|
      invariant 0 <= i <= |sources|
      invariant zip.entries == MergedZip(sources, names, copy, i)
      invariant ws.log == old(ws.log) + MergedZipLog(sources, names, copy, i)
      invariant ws.output == old(ws.output) && ws.cache == old(ws.cache)
    {
      AddEntriesToZip(zip, ws, sources[i], names[i], i, copy);
      Assoc(old(ws.log), MergedZipLog(sources, names, copy, i),
            SourceLog(MergedZip(sources, names, copy, i), sources[i], names[i], i, copy));
      i := i + 1;
    }
  }

  /** The lines of a merged job: the combined archive is announced, filled, then exported. */
  function MergeLog(sources: seq<Source>, names: seq<string>, useOffset: bool, maxPages: nat, batchSize: nat,
                    decode: Entry -> Decoded, copy: Entry -> Copy): seq<Status>
    requires maxPages > 0 && batchSize > 0 && 0 < |sources| <= |names|
  {
    [CreatingCombined] + MergedZipLog(sources, names, copy, |sources|)
    + EitherLog(OrderEntries(CombinedEntries(sources, names, copy), useOffset), names[0], maxPages, batchSize, decode)
  }

  /**
   * `mergeFilesAndCreatePdf`: the selected files are combined into one
   * archive, which is exported under the first output name.
   */
  method MergeFilesAndCreatePdf(ws: Workspace, files: FileList, sources: seq<Source>, names: seq<string>,
                                useOffset: bool, maxPages: nat, batchSize: nat, compress: bool,
                                decode: Entry -> Decoded, copy: Entry -> Copy)
    returns (r: seq<Path>)
    requires maxPages > 0 && batchSize > 0 && 0 < |sources| <= |names|
    modifies ws, files
    ensures var ordered := OrderEntries(CombinedEntries(sources, names, copy), useOffset);
      var arts := EitherArtifacts(ordered, names[0], maxPages, compress, decode);
      && ws.output == ApplyWrites(old(ws.output), arts)
      && files.items == old(files.items) + FilesOf(arts)
      && ws.cache == old(ws.cache) - EitherSwept(ordered, maxPages, batchSize)
      && ws.log == old(ws.log) + MergeLog(sources, names, useOffset, maxPages, batchSize, decode, copy)
    ensures r == files.items
  {
    ws.Say(CreatingCombined);
    var zip := new ZipWriter();
    FillCombined(zip, ws, sources, names, copy);
    ghost var zipLog := MergedZipLog(sources, names, copy, |sources|);
    ghost var exportLog := EitherLog(OrderEntries(zip.entries, useOffset), names[0], maxPages, batchSize, decode);
    var _ := CreatePdfEitherSingleOrMultiple(ws, files, zip.entries, useOffset, names[0], maxPages, batchSize, compress, decode);
    Assoc(old(ws.log), [CreatingCombined], zipLog);
    Assoc(old(ws.log), [CreatingCombined] + zipLog, exportLog);
    r := files.items;
  }

  // ------------------------------------------------------------ job

  /** The files a whole job leaves in the output directory, in writing order. */
  function JobArtifacts(sources: seq<Source>, names: seq<string>, mergeFiles: bool, useOffset: bool, maxPages: nat,
                        compress: bool, decode: Entry -> Decoded, copy: Entry -> Copy): seq<Artifact>
    requires maxPages > 0 && 0 < |sources| <= |names|
  {
    if mergeFiles then EitherArtifacts(OrderEntries(CombinedEntries(sources, names, copy), useOffset), names[0], maxPages, compress, decode)
    else EachArtifacts(sources, names, useOffset, maxPages, compress, decode, |sources|)
  }

  function JobLog(sources: seq<Source>, names: seq<string>, mergeFiles: bool, useOffset: bool, maxPages: nat,
                  batchSize: nat, decode: Entry -> Decoded, copy: Entry -> Copy): seq<Status>
    requires maxPages > 0 && batchSize > 0 && 0 < |sources| <= |names|
  {
    if mergeFiles then MergeLog(sources, names, useOffset, maxPages, batchSize, decode, copy)
    else EachLog(sources, names, useOffset, maxPages, batchSize, decode, |sources|)
  }

  /**
   * `convertCbzToPdf`: nothing happens for an empty selection; otherwise
   * the cache is cleared and the job runs. The result lists the files
   * written, in order; what the output directory ends up holding does
   * not depend on the batch size.
   */
  method ConvertCbzToPdf(ws: Workspace, sources: seq<Source>, names: seq<string>, mergeFiles: bool, useOffset: bool,
                         maxPages: nat, batchSize: nat, compress: bool, decode: Entry -> Decoded, copy: Entry -> Copy)
    returns (r: seq<Path>)
    requires maxPages > 0 && batchSize > 0 && |sources| <= |names|
    modifies ws
    ensures sources == [] ==> r == [] && ws.output == old(ws.output) && ws.cache == old(ws.cache) && ws.log == old(ws.log)
    ensures sources != [] ==>
      var arts := JobArtifacts(sources, names, mergeFiles, useOffset, maxPages, compress, decode, copy);
      && r == FilesOf(arts)
      && ws.output == ApplyWrites(old(ws.output), arts)
      && ws.cache == map[]
      && ws.log == old(ws.log) + JobLog(sources, names, mergeFiles, useOffset, maxPages, batchSize, decode, copy)
  {
    if |sources| == 0 {
      return [];
    }
    var files := new FileList();
    ws.cache := map[];
    if mergeFiles {
      r := MergeFilesAndCreatePdf(ws, files, sources, names, useOffset, maxPages, batchSize, compress, decode, copy);
      EmptyMinus(map[], EitherSwept(OrderEntries(CombinedEntries(sources, names, copy), useOffset), maxPages, batchSize));
    } else {
      r := ApplyEachFileAndCreatePdf(ws, files, sources, names, useOffset, maxPages, batchSize, compress, decode);
      EmptyMinus(map[], EachSwept(sources, useOffset, maxPages, batchSize, |sources|));
    }
    assert [] + r == r;
  }

  lemma EmptyMinus(m: map<string, PdfDoc>, x: set<string>)
    requires m == map[]
    ensures m - x == map[]
  {
  }
}
