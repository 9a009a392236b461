/** `mergePdfFiles`: concatenating listed PDF files into one and deleting them. */
module Merge {
  import opened Wrappers
  import opened Pdf

  // ------------------------------------------------------------ merging

  /** What is stored at `p`, if anything. */
  function Stored(output: map<string, PdfDoc>, cache: map<string, PdfDoc>, p: Path): Option<PdfDoc>
  {
    match p.dir
    case OutputDir => if p.name in output then Some(output[p.name]) else None
    case CacheDir => if p.name in cache then Some(cache[p.name]) else None
  }

  /** The pages of the listed files, one file after the other. */
  function MergedPages(output: map<string, PdfDoc>, cache: map<string, PdfDoc>, items: seq<Path>): seq<Page>
  {
    if items == [] then []
    else
      MergedPages(output, cache, items[..|items| - 1])
      + (match Stored(output, cache, items[|items| - 1]) case Some(d) => d.pages case None => [])
  }

  lemma MergedPagesSnoc(output: map<string, PdfDoc>, cache: map<string, PdfDoc>, items: seq<Path>, p: Path)
    ensures MergedPages(output, cache, items + [p])
         == MergedPages(output, cache, items) + (match Stored(output, cache, p) case Some(d) => d.pages case None => [])
  {
    assert (items + [p])[..|items|] == items;
  }

  /** The names of the listed files that live in directory `d`. */
  function NamesIn(items: seq<Path>, d: Dir): set<string>
  {
    set k | 0 <= k < |items| && items[k].dir == d :: items[k].name
  }

  predicate Distinct(items: seq<Path>)
  {
    forall i, j :: 0 <= i < j < |items| ==> items[i] != items[j]
  }

  /** One more listed file: its name joins the names of its directory. */
  lemma NamesInSnoc(items: seq<Path>, k: nat)
    requires k < |items|
    ensures NamesIn(items[..k + 1], OutputDir)
         == NamesIn(items[..k], OutputDir) + (if items[k].dir == OutputDir then {items[k].name} else {})
    ensures NamesIn(items[..k + 1], CacheDir)
         == NamesIn(items[..k], CacheDir) + (if items[k].dir == CacheDir then {items[k].name} else {})
  {
    var a, b := items[..k + 1], items[..k];
    assert forall j :: 0 <= j < k ==> a[j] == b[j];
    assert a[k] == items[k];
  }

  /** A file not listed before `k` has not been deleted by the time it is read. */
  lemma NotYetDeleted(items: seq<Path>, k: nat)
    requires k < |items| && Distinct(items)
    ensures items[k].name !in NamesIn(items[..k], items[k].dir)
  {
  }

  /**
   * `mergePdfFiles`: the output file receives the pages of every listed
   * file in list order, each listed file is deleted after it is read, and
   * the list is left holding just the output file.
   */
  method MergePdfFiles(ws: Workspace, files: FileList, outputFileName: string, compress: bool)
    requires Distinct(files.items) && forall k :: 0 <= k < |files.items| ==> ws.Exists(files.items[k])
    requires Path(OutputDir, outputFileName) !in files.items
    modifies ws, files
    ensures ws.output == (old(ws.output) - NamesIn(old(files.items), OutputDir))
                         [outputFileName := PdfDoc(MergedPages(old(ws.output), old(ws.cache), old(files.items)), Level(compress))]
    ensures ws.cache == old(ws.cache) - NamesIn(old(files.items), CacheDir)
    ensures ws.log == old(ws.log)
    ensures files.items == [Path(OutputDir, outputFileName)]
  {
    var items := files.items;
    var pages: seq<Page> := [];
    var k := 0;
    while k < |items|
      invariant 0 <= k <= |items|
      invariant pages == MergedPages(old(ws.output), old(ws.cache), items[..k])
      invariant ws.output == old(ws.output) - NamesIn(items[..k], OutputDir)
      invariant ws.cache == old(ws.cache) - NamesIn(items[..k], CacheDir)
      invariant ws.log == old(ws.log)
    {
      var p := items[k];
      NotYetDeleted(items, k);
      NamesInSnoc(items, k);
      SliceSnoc(items, k);
      MergedPagesSnoc(old(ws.output), old(ws.cache), items[..k], p);
      assert Stored(old(ws.output), old(ws.cache), p) == Some(ws.Read(p));
      pages := pages + ws.Read(p).pages;
      ws.Delete(p);
      ghost var outGone, cacheGone := NamesIn(items[..k], OutputDir), NamesIn(items[..k], CacheDir);
      if p.dir == OutputDir {
        MinusMinus(old(ws.output), outGone, {p.name});
        MinusMinus(old(ws.cache), cacheGone, {});
        assert cacheGone + {} == cacheGone;
      } else {
        MinusMinus(old(ws.cache), cacheGone, {p.name});
        MinusMinus(old(ws.output), outGone, {});
        assert outGone + {} == outGone;
      }
      k := k + 1;
    }
    assert items[..k] == items;
    ws.Write(Path(OutputDir, outputFileName), PdfDoc(pages, Level(compress)));
    files.items := [Path(OutputDir, outputFileName)];
  }
}
