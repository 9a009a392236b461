/**
 * `createPdfWithBatchProcessing`: one output file rendered through
 * temporary memory-batch files in the cache directory.
 */
module Batches {
  import opened Wrappers
  import opened Strings
  import opened Archive
  import opened Partition
  import opened Pdf
  import opened Plan
  import opened Render
  import opened Merge

  // ------------------------------------------------------ memory batches

  /** The batch files `1 .. n` of the cache, in order. */
  function BatchPaths(n: nat): (r: seq<Path>)
    ensures |r| == n && forall k :: 0 <= k < n ==> r[k] == Path(CacheDir, BatchName(k + 1))
  {
    if n == 0 then [] else BatchPaths(n - 1) + [Path(CacheDir, BatchName(n))]
  }

  /** The documents of batches `1 .. n`: batch `k + 1` renders chunk `k`. */
  function BatchDocs(es: seq<Entry>, batchSize: nat, compress: bool, decode: Entry -> Decoded, n: nat): (r: seq<PdfDoc>)
    requires batchSize > 0 && n <= CeilDiv(|es|, batchSize)
    ensures |r| == n
  {
    if n == 0 then [] else BatchDocs(es, batchSize, compress, decode, n - 1) + [Doc(Chunk(es, batchSize, n - 1), compress, decode)]
  }

  /** The cache once `docs` were written as batch files `1 .. |docs|`. */
  function BatchWrites(cache: map<string, PdfDoc>, docs: seq<PdfDoc>): map<string, PdfDoc>
  {
    if docs == [] then cache else BatchWrites(cache, docs[..|docs| - 1])[BatchName(|docs|) := docs[|docs| - 1]]
  }

  lemma BatchWritesSnoc(cache: map<string, PdfDoc>, docs: seq<PdfDoc>, d: PdfDoc)
    ensures BatchWrites(cache, docs + [d]) == BatchWrites(cache, docs)[BatchName(|docs| + 1) := d]
  {
    assert (docs + [d])[..|docs|] == docs;
  }

  /** Batch file `k + 1` holds document `k`: later batches write other names. */
  lemma {:induction false} BatchWritesAt(cache: map<string, PdfDoc>, docs: seq<PdfDoc>, k: nat)
    requires k < |docs|
    ensures BatchName(k + 1) in BatchWrites(cache, docs)
    ensures BatchWrites(cache, docs)[BatchName(k + 1)] == docs[k]
  {
    if k < |docs| - 1 {
      BatchWritesAt(cache, docs[..|docs| - 1], k);
      BatchNameInjective(|docs|, k + 1);
    }
  }

  /** Outside the batch names, writing the batches changes nothing. */
  lemma {:induction false} BatchWritesElsewhere(cache: map<string, PdfDoc>, docs: seq<PdfDoc>, x: string)
    requires x !in BatchNames(|docs|)
    ensures x in BatchWrites(cache, docs) <==> x in cache
    ensures x in cache ==> BatchWrites(cache, docs)[x] == cache[x]
  {
    if docs != [] {
      assert BatchName(|docs|) in BatchNames(|docs|);
      assert BatchNames(|docs| - 1) <= BatchNames(|docs|);
      BatchWritesElsewhere(cache, docs[..|docs| - 1], x);
    }
  }

  /** Deleting the batch files again leaves the cache as it was, minus those names. */
  lemma BatchWritesMinus(cache: map<string, PdfDoc>, docs: seq<PdfDoc>)
    ensures BatchWrites(cache, docs) - BatchNames(|docs|) == cache - BatchNames(|docs|)
  {
    var w := BatchWrites(cache, docs);
    forall x | x !in BatchNames(|docs|)
      ensures (x in w <==> x in cache) && (x in cache ==> w[x] == cache[x])
    {
      BatchWritesElsewhere(cache, docs, x);
    }
  }

  /** The pages of several documents, one after the other. */
  function DocPages(docs: seq<PdfDoc>): seq<Page>
  {
    if docs == [] then [] else DocPages(docs[..|docs| - 1]) + docs[|docs| - 1].pages
  }

  lemma DocPagesPrefix(docs: seq<PdfDoc>, m: nat)
    requires 0 < m <= |docs|
    ensures DocPages(docs[..m]) == DocPages(docs[..m - 1]) + docs[m - 1].pages
  {
    assert docs[..m][..m - 1] == docs[..m - 1];
  }

  /** Merging the first `m` batch files in order gives the pages of the first `m` documents. */
  lemma {:induction false} MergedBatches(output: map<string, PdfDoc>, cache: map<string, PdfDoc>, docs: seq<PdfDoc>, m: nat)
    requires m <= |docs|
    ensures MergedPages(output, BatchWrites(cache, docs), BatchPaths(m)) == DocPages(docs[..m])
  {
    if m > 0 {
      var w := BatchWrites(cache, docs);
      var p := Path(CacheDir, BatchName(m));
      MergedBatches(output, cache, docs, m - 1);
      assert BatchPaths(m) == BatchPaths(m - 1) + [p];
      MergedPagesSnoc(output, w, BatchPaths(m - 1), p);
      BatchWritesAt(cache, docs, m - 1);
      assert Stored(output, w, p) == Some(docs[m - 1]);
      DocPagesPrefix(docs, m);
    }
  }

  /** The batch documents hold the pages of the chunks, in order. */
  lemma {:induction false} BatchDocsPages(es: seq<Entry>, batchSize: nat, compress: bool, decode: Entry -> Decoded, n: nat)
    requires batchSize > 0 && n <= CeilDiv(|es|, batchSize)
    ensures DocPages(BatchDocs(es, batchSize, compress, decode, n)) == ChunkPages(es, batchSize, decode, n)
  {
    if n > 0 {
      var docs := BatchDocs(es, batchSize, compress, decode, n);
      BatchDocsPages(es, batchSize, compress, decode, n - 1);
      assert docs[..n - 1] == BatchDocs(es, batchSize, compress, decode, n - 1);
    }
  }

  lemma BatchPathsDistinct(n: nat)
    ensures Distinct(BatchPaths(n))
  {
    var r := BatchPaths(n);
    forall i, j | 0 <= i < j < n ensures r[i] != r[j] {
      BatchNameInjective(i + 1, j + 1);
    }
  }

  lemma BatchPathsNames(n: nat)
    ensures NamesIn(BatchPaths(n), CacheDir) == BatchNames(n)
    ensures NamesIn(BatchPaths(n), OutputDir) == {}
  {
    var r := BatchPaths(n);
    forall x | x in BatchNames(n) ensures x in NamesIn(r, CacheDir) {
      var k :| 1 <= k <= n && BatchName(k) == x;
      assert r[k - 1].name == x;
    }
  }

  /**
   * Merging all the batch files of `es` gives the document of `es`
   * rendered at once, and deleting them gives back the cache they were
   * written to, without the batch names.
   */
  lemma BatchedDoc(output: map<string, PdfDoc>, cache: map<string, PdfDoc>, es: seq<Entry>, batchSize: nat,
                   compress: bool, decode: Entry -> Decoded)
    requires batchSize > 0
    ensures var n := CeilDiv(|es|, batchSize);
      var w := BatchWrites(cache, BatchDocs(es, batchSize, compress, decode, n));
      && PdfDoc(MergedPages(output, w, BatchPaths(n)), Level(compress)) == Doc(es, compress, decode)
      && w - NamesIn(BatchPaths(n), CacheDir) == cache - BatchNames(n)
  {
    var n := CeilDiv(|es|, batchSize);
    var docs := BatchDocs(es, batchSize, compress, decode, n);
    MergedBatches(output, cache, docs, n);
    assert docs[..n] == docs;
    BatchDocsPages(es, batchSize, compress, decode, n);
    ChunkPagesCover(es, batchSize, decode, n);
    assert es[..|es|] == es;
    BatchPathsNames(n);
    BatchWritesMinus(cache, docs);
  }

  /** One more batch: its document comes last. */
  lemma BatchDocsStep(es: seq<Entry>, batchSize: nat, compress: bool, decode: Entry -> Decoded, b: nat)
    requires batchSize > 0 && b < CeilDiv(|es|, batchSize)
    ensures BatchDocs(es, batchSize, compress, decode, b + 1)
         == BatchDocs(es, batchSize, compress, decode, b) + [Doc(Chunk(es, batchSize, b), compress, decode)]
  {
  }

  /** One more batch: its lines come last. */
  lemma BatchLogStep(es: seq<Entry>, batchSize: nat, decode: Entry -> Decoded, ch: Channel, b: nat)
    requires batchSize > 0 && b < CeilDiv(|es|, batchSize)
    ensures BatchLog(es, batchSize, decode, ch, b + 1)
         == BatchLog(es, batchSize, decode, ch, b)
            + SayAll(ch, RenderLog(Chunk(es, batchSize, b), decode, true,
                                   MemoryBatch(b + 1, CeilDiv(|es|, batchSize), Start(b, batchSize, |es|), |es|)))
  {
  }

  /** One more batch: its file comes last. */
  lemma BatchPathsStep(b: nat)
    ensures BatchPaths(b + 1) == BatchPaths(b) + [Path(CacheDir, BatchName(b + 1))]
  {
  }

  /**
   * The batch loop of `createPdfWithBatchProcessing`: batch `b` renders
   * chunk `b` into cache file `temp_memory_batch_{b+1}.pdf` and lists it.
   */
  method WriteBatches(ws: Workspace, es: seq<Entry>, decode: Entry -> Decoded, ch: Channel, batchSize: nat,
                      compress: bool, temps: FileList)
    requires batchSize > 0 && temps.items == []
    modifies ws, temps
    ensures temps.items == BatchPaths(CeilDiv(|es|, batchSize))
    ensures ws.output == old(ws.output)
    ensures ws.cache == BatchWrites(old(ws.cache), BatchDocs(es, batchSize, compress, decode, CeilDiv(|es|, batchSize)))
    ensures ws.log == old(ws.log) + BatchLog(es, batchSize, decode, ch, CeilDiv(|es|, batchSize))
  {
    var batches := CeilDiv(|es|, batchSize);
    var b := 0;
    while b < batches
      invariant 0 <= b <= batches
      invariant temps.items == BatchPaths(b)
      invariant ws.output == old(ws.output)
      invariant ws.cache == BatchWrites(old(ws.cache), BatchDocs(es, batchSize, compress, decode, b))
      invariant ws.log == old(ws.log) + BatchLog(es, batchSize, decode, ch, b)
    {
      BatchDocsStep(es, batchSize, compress, decode, b);
      BatchLogStep(es, batchSize, decode, ch, b);
      BatchPathsStep(b);
      WriteBatch(ws, es, decode, ch, batchSize, compress, temps, b);
      var images := Chunk(es, batchSize, b);
      BatchWritesSnoc(old(ws.cache), BatchDocs(es, batchSize, compress, decode, b), Doc(images, compress, decode));
      Assoc(old(ws.log), BatchLog(es, batchSize, decode, ch, b),
            SayAll(ch, RenderLog(images, decode, true, MemoryBatch(b + 1, batches, Start(b, batchSize, |es|), |es|))));
      b := b + 1;
    }
  }

  /** One turn of the batch loop: chunk `b` is rendered into cache file `b + 1`, which is listed. */
  method WriteBatch(ws: Workspace, es: seq<Entry>, decode: Entry -> Decoded, ch: Channel, batchSize: nat,
                    compress: bool, temps: FileList, b: nat)
    requires batchSize > 0 && b < CeilDiv(|es|, batchSize)
    modifies ws, temps
    ensures temps.items == old(temps.items) + [Path(CacheDir, BatchName(b + 1))]
    ensures ws.output == old(ws.output)
    ensures ws.cache == old(ws.cache)[BatchName(b + 1) := Doc(Chunk(es, batchSize, b), compress, decode)]
    ensures ws.log == old(ws.log) + SayAll(ch, RenderLog(Chunk(es, batchSize, b), decode, true,
                                                         MemoryBatch(b + 1, CeilDiv(|es|, batchSize), Start(b, batchSize, |es|), |es|)))
  {
    var (start, end) := CalculateRange(b, batchSize, |es|);
    var images := Chunk(es, batchSize, b);
    var fmt := MemoryBatch(b + 1, CeilDiv(|es|, batchSize), start, |es|);
    var temp := Path(CacheDir, BatchName(b + 1));
    CreatePdfFromImageList(ws, images, temp, decode, ch, fmt, compress);
    temps.Add(temp);
  }

  /**
   * `createPdfWithBatchProcessing`: the entries are rendered in memory
   * batches of at most `batchSize` into cache files, which are merged in
   * order into the output file and deleted. The output holds the same
   * document one unbatched rendering would produce.
   */
  method CreatePdfWithBatchProcessing(ws: Workspace, es: seq<Entry>, outputFileName: string, decode: Entry -> Decoded,
                                      ch: Channel, batchSize: nat, compress: bool) returns (file: Path)
    requires batchSize > 0
    modifies ws
    ensures file == Path(OutputDir, outputFileName)
    ensures ws.output == old(ws.output)[outputFileName := Doc(es, compress, decode)]
    ensures ws.cache == old(ws.cache) - BatchNames(CeilDiv(|es|, batchSize))
    ensures ws.log == old(ws.log) + BatchLog(es, batchSize, decode, ch, CeilDiv(|es|, batchSize))
  {
    var temps := new FileList();
    WriteBatches(ws, es, decode, ch, batchSize, compress, temps);
    ghost var n := CeilDiv(|es|, batchSize);
    ghost var docs := BatchDocs(es, batchSize, compress, decode, n);
    BatchPathsDistinct(n);
    BatchPathsNames(n);
    forall k | 0 <= k < n ensures ws.Exists(temps.items[k]) {
      BatchWritesAt(old(ws.cache), docs, k);
    }
    BatchedDoc(old(ws.output), old(ws.cache), es, batchSize, compress, decode);
    MinusMinus(old(ws.output), {}, {});
    MergePdfFiles(ws, temps, outputFileName, compress);
    file := Path(OutputDir, outputFileName);
  }
}
