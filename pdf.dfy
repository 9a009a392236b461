/**
 * What the PDF pipeline produces and observes: pages rendered from ZIP
 * entries (the image decoder and the PDF library are an oracle), PDF
 * documents, the output and cache directories, the list of produced files
 * and the progress messages sent to the status callback.
 */
module Pdf {
  import opened Wrappers
  import opened Strings
  import opened Archive

  /**
   * What the PDF library makes of one entry: its bytes could not be
   * extracted to the temporary file, they were extracted but are not an
   * image it can place, or an image of the given size.
   */
  datatype Decoded = ExtractFailed | DecodeFailed | Image(width: nat, height: nat)

  /** How the image bytes end up in the PDF. */
  datatype Encoding = AsStored | Jpeg(quality: nat)

  /** One PDF page: sized to its image. */
  datatype Page = Page(source: Entry, width: nat, height: nat, encoding: Encoding)

  /** The PDF writer's compression level. */
  datatype Compression = DefaultCompression | BestCompression

  datatype PdfDoc = PdfDoc(pages: seq<Page>, compression: Compression)

  /** `compressOutputPdf` sets the writer to `BEST_COMPRESSION`, nothing else. */
  function Level(compress: bool): Compression
  {
    if compress then BestCompression else DefaultCompression
  }

  /** `zipFileEntry.name.lowercase().endsWith(".webp")`. */
  predicate IsWebp(e: Entry)
  {
    EndsWith(Lower(e.name), ".webp")
  }

  /** The last five characters are '.' and the letters w, e, b, p, each in either case. */
  predicate WebpSuffix(n: string)
  {
    var k := |n| - 5;
    && |n| >= 5 && n[k] == '.'
    && LowerChar(n[k + 1]) == 'w' && LowerChar(n[k + 2]) == 'e'
    && LowerChar(n[k + 3]) == 'b' && LowerChar(n[k + 4]) == 'p'
  }

  /** The WebP test is case-insensitive on the last five characters. */
  lemma IsWebpSpec(e: Entry)
    ensures IsWebp(e) <==> WebpSuffix(e.name)
  {
    var n := e.name;
    var l := Lower(n);
    if |n| >= 5 {
      var k := |n| - 5;
      assert l[k..] == [l[k], l[k + 1], l[k + 2], l[k + 3], l[k + 4]];
      assert LowerChar(n[k]) == '.' <==> n[k] == '.';
    }
  }

  /** The quality the WebP-to-JPEG conversion uses. */
  const WebpJpegQuality: nat := 90

  /**
   * The page `extractImageAndAddToPDFDocument` adds for an entry, if any:
   * every failure is caught and the page is omitted. With `webpToJpeg`
   * a WebP entry is re-encoded as JPEG before it is placed.
   */
  function PageOf(e: Entry, decode: Entry -> Decoded, webpToJpeg: bool): (r: Option<Page>)
    ensures r.Some? <==> decode(e).Image?
    ensures r.Some? ==>
      r.value.source == e && r.value.width == decode(e).width && r.value.height == decode(e).height
    ensures r.Some? ==> (r.value.encoding == Jpeg(WebpJpegQuality) <==> webpToJpeg && IsWebp(e))
  {
    match decode(e)
    case Image(w, h) => Some(Page(e, w, h, if webpToJpeg && IsWebp(e) then Jpeg(WebpJpegQuality) else AsStored))
    case _ => None
  }

  /** The pages of a document built from `es`, in order. */
  function RenderPages(es: seq<Entry>, decode: Entry -> Decoded, webpToJpeg: bool): (r: seq<Page>)
    ensures |r| <= |es|
  {
    if es == [] then []
    else
      var init := RenderPages(es[..|es| - 1], decode, webpToJpeg);
      match PageOf(es[|es| - 1], decode, webpToJpeg)
      case Some(p) => init + [p]
      case None => init
  }

  /** Rendering two consecutive slices gives the pages of the whole. */
  lemma {:induction false} RenderPagesAppend(a: seq<Entry>, b: seq<Entry>, decode: Entry -> Decoded, webpToJpeg: bool)
    ensures RenderPages(a + b, decode, webpToJpeg)
         == RenderPages(a, decode, webpToJpeg) + RenderPages(b, decode, webpToJpeg)
  {
    if b == [] {
      assert a + b == a;
    } else {
      var init := b[..|b| - 1];
      assert (a + b)[..|a + b| - 1] == a + init;
      assert (a + b)[|a + b| - 1] == b[|b| - 1];
      RenderPagesAppend(a, init, decode, webpToJpeg);
    }
  }

  /**
   * The pages are exactly the decodable entries, in entry order: page
   * `k` comes from an entry of `es`, and there are as many pages as
   * entries that decode to an image.
   */
  lemma {:induction false} RenderPagesSpec(es: seq<Entry>, decode: Entry -> Decoded, webpToJpeg: bool)
    ensures |RenderPages(es, decode, webpToJpeg)| == Decodable(es, decode)
    ensures forall p :: p in RenderPages(es, decode, webpToJpeg) ==> p.source in es && decode(p.source).Image?
  {
    if es != [] {
      var init := es[..|es| - 1];
      RenderPagesSpec(init, decode, webpToJpeg);
      assert forall e :: e in init ==> e in es;
    }
  }

  /** How many entries decode to an image. */
  function Decodable(es: seq<Entry>, decode: Entry -> Decoded): nat
  {
    if es == [] then 0
    else Decodable(es[..|es| - 1], decode) + (if decode(es[|es| - 1]).Image? then 1 else 0)
  }

  // ------------------------------------------------------------ progress

  /** The `messageFormat` of one `createPdfFromImageList` call. */
  datatype ProgressFormat =
    | SingleFile(total: nat)
    | PartFile(part: nat, parts: nat, start: nat, total: nat)
    | MemoryBatch(batch: nat, batches: nat, start: nat, total: nat)

  /** A line sent to `subStepStatusAction`. */
  datatype Status =
    | CreatingCombined
    | CouldNotCopy(uriPath: Option<string>)
    | AddingEntries(count: nat, fileName: string)
    | EntryFailed(entryName: string)
    | NoImagesFound(outputFileName: string)
    | Progress(format: ProgressFormat, n: nat)
    | ConvertingWebp(entryName: string)
    | InPart(part: nat, parts: nat, inner: Status)
    | EpubPage(page: nat)

  /** The text of a status line, as the source formats it. */
  function Text(s: Status): string
  {
    match s
    case CreatingCombined => "Creating combined_temp.cbz in Cache"
    case CouldNotCopy(p) => "Could not copy CBZ file to cache: " + (match p case Some(v) => v case None => "null")
    case AddingEntries(n, f) => "Adding " + NatToString(n) + " entries from " + f
    case EntryFailed(n) => "Error processing file " + n
    case NoImagesFound(f) => "No images found in CBZ file: " + f
    case Progress(SingleFile(t), n) =>
      "Processing image file " + NatToString(n) + " of " + NatToString(t)
    case Progress(PartFile(i, k, st, t), n) =>
      "Processing part " + NatToString(i) + " of " + NatToString(k)
      + " - Processing image file " + NatToString(st + n) + " of " + NatToString(t)
    case Progress(MemoryBatch(b, k, st, t), n) =>
      "Processing memory batch " + NatToString(b) + " of " + NatToString(k)
      + " - Processing image file " + NatToString(st + n) + " of " + NatToString(t)
    case ConvertingWebp(n) => "Converting WebP image: " + n
    case InPart(i, k, inner) =>
      "Processing part " + NatToString(i) + " of " + NatToString(k) + " - " + Text(inner)
    case EpubPage(n) => "Processing page " + NatToString(n)
  }

  /** The image index a progress line shows. */
  function Shown(f: ProgressFormat, n: nat): nat
  {
    match f
    case SingleFile(_) => n
    case PartFile(_, _, st, _) => st + n
    case MemoryBatch(_, _, st, _) => st + n
  }

  /** The callback a rendering step reports through: as given, or wrapped with its part. */
  datatype Channel = Direct | WithinPart(part: nat, parts: nat)

  function Say(ch: Channel, s: Status): Status
  {
    match ch
    case Direct => s
    case WithinPart(i, k) => InPart(i, k, s)
  }

  function SayAll(ch: Channel, ss: seq<Status>): (r: seq<Status>)
    ensures |r| == |ss|
  {
    if ss == [] then [] else SayAll(ch, ss[..|ss| - 1]) + [Say(ch, ss[|ss| - 1])]
  }

  lemma {:induction false} SayAllAppend(ch: Channel, a: seq<Status>, b: seq<Status>)
    ensures SayAll(ch, a + b) == SayAll(ch, a) + SayAll(ch, b)
  {
    if b != [] {
      assert (a + b)[..|a + b| - 1] == a + b[..|b| - 1];
      SayAllAppend(ch, a, b[..|b| - 1]);
    } else {
      assert a + b == a;
    }
  }

  /** The unwrapped callback passes the lines on as they are. */
  lemma {:induction false} SayAllDirect(ss: seq<Status>)
    ensures SayAll(Direct, ss) == ss
  {
    if ss != [] {
      SayAllDirect(ss[..|ss| - 1]);
    }
  }

  lemma Assoc<T>(a: seq<T>, b: seq<T>, c: seq<T>)
    ensures (a + b) + c == a + (b + c)
  {
  }

  lemma SliceSnoc<T>(s: seq<T>, k: nat)
    requires k < |s|
    ensures s[..k + 1] == s[..k] + [s[k]]
  {
  }

  lemma MinusMinus<K, V>(m: map<K, V>, a: set<K>, b: set<K>)
    ensures (m - a) - b == m - (a + b)
    ensures m - {} == m
  {
  }

  lemma SliceSplit<T>(s: seq<T>, lo: nat, hi: nat)
    requires lo <= hi <= |s|
    ensures s[..hi] == s[..lo] + s[lo..hi]
  {
  }

  /** The WebP notice, sent once a WebP entry was extracted and is about to be converted. */
  function WebpNotice(e: Entry, decode: Entry -> Decoded, webpToJpeg: bool): seq<Status>
  {
    if webpToJpeg && IsWebp(e) && !decode(e).ExtractFailed? then [ConvertingWebp(e.name)] else []
  }

  /** The lines one image produces: its progress line, then the WebP notice. */
  function ImageLog(e: Entry, decode: Entry -> Decoded, webpToJpeg: bool, fmt: ProgressFormat, n: nat): seq<Status>
  {
    [Progress(fmt, n)] + WebpNotice(e, decode, webpToJpeg)
  }

  /** The lines `createPdfFromImageList` emits for `es`, counting images from 1. */
  function RenderLog(es: seq<Entry>, decode: Entry -> Decoded, webpToJpeg: bool, fmt: ProgressFormat): seq<Status>
  {
    if es == [] then []
    else RenderLog(es[..|es| - 1], decode, webpToJpeg, fmt) + ImageLog(es[|es| - 1], decode, webpToJpeg, fmt, |es|)
  }

  lemma RenderLogSnoc(es: seq<Entry>, e: Entry, decode: Entry -> Decoded, webpToJpeg: bool, fmt: ProgressFormat)
    ensures RenderLog(es + [e], decode, webpToJpeg, fmt)
         == RenderLog(es, decode, webpToJpeg, fmt) + ImageLog(e, decode, webpToJpeg, fmt, |es| + 1)
  {
    assert (es + [e])[..|es|] == es;
  }

  /** One progress line per image, in order, numbered 1 to |es|. */
  lemma {:induction false} RenderLogProgress(es: seq<Entry>, decode: Entry -> Decoded, webpToJpeg: bool, fmt: ProgressFormat)
    ensures Progressed(RenderLog(es, decode, webpToJpeg, fmt)) == SeqFrom(1, |es|)
  {
    if es != [] {
      var init := es[..|es| - 1];
      RenderLogProgress(init, decode, webpToJpeg, fmt);
      ProgressedAppend(RenderLog(init, decode, webpToJpeg, fmt), ImageLog(es[|es| - 1], decode, webpToJpeg, fmt, |es|));
      ProgressedAppend([Progress(fmt, |es|)], WebpNotice(es[|es| - 1], decode, webpToJpeg));
      assert Progressed([Progress(fmt, |es|)]) == [|es|] by {
        assert [Progress(fmt, |es|)][..0] == [];
      }
      SeqFromSnoc(1, |es|);
    }
  }

  /** The image numbers of the progress lines, in order. */
  function Progressed(ss: seq<Status>): seq<nat>
  {
    if ss == [] then []
    else Progressed(ss[..|ss| - 1]) + (if ss[|ss| - 1].Progress? then [ss[|ss| - 1].n] else [])
  }

  lemma {:induction false} ProgressedAppend(a: seq<Status>, b: seq<Status>)
    ensures Progressed(a + b) == Progressed(a) + Progressed(b)
  {
    if b != [] {
      assert (a + b)[..|a + b| - 1] == a + b[..|b| - 1];
      ProgressedAppend(a, b[..|b| - 1]);
    } else {
      assert a + b == a;
    }
  }

  /** `[from, from + 1, ..., from + count - 1]`. */
  function SeqFrom(from: nat, count: nat): (r: seq<nat>)
    ensures |r| == count && forall k :: 0 <= k < count ==> r[k] == from + k
  {
    if count == 0 then [] else SeqFrom(from, count - 1) + [from + count - 1]
  }

  lemma SeqFromSnoc(from: nat, count: nat)
    ensures SeqFrom(from, count + 1) == SeqFrom(from, count) + [from + count]
  {
  }

  // ------------------------------------------------------- the file system

  datatype Dir = OutputDir | CacheDir

  datatype Path = Path(dir: Dir, name: string)

  /**
   * The PDF files of the output directory and of the app's cache, and the
   * status lines sent so far.
   */
  class Workspace {
    var output: map<string, PdfDoc>
    var cache: map<string, PdfDoc>
    var log: seq<Status>

    constructor (output0: map<string, PdfDoc>)
      ensures output == output0 && cache == map[] && log == []
    {
      output := output0;
      cache := map[];
      log := [];
    }

    predicate Exists(p: Path)
      reads this
    {
      match p.dir
      case OutputDir => p.name in output
      case CacheDir => p.name in cache
    }

    function Read(p: Path): PdfDoc
      reads this
      requires Exists(p)
    {
      match p.dir
      case OutputDir => output[p.name]
      case CacheDir => cache[p.name]
    }

    /** A PDF writer closing on `p`: the file now holds `doc`. */
    method Write(p: Path, doc: PdfDoc)
      modifies this
      ensures output == (if p.dir == OutputDir then old(output)[p.name := doc] else old(output))
      ensures cache == (if p.dir == CacheDir then old(cache)[p.name := doc] else old(cache))
      ensures log == old(log)
    {
      if p.dir == OutputDir {
        output := output[p.name := doc];
      } else {
        cache := cache[p.name := doc];
      }
    }

    /** `File.delete()`. */
    method Delete(p: Path)
      modifies this
      ensures output == (if p.dir == OutputDir then old(output) - {p.name} else old(output))
      ensures cache == (if p.dir == CacheDir then old(cache) - {p.name} else old(cache))
      ensures log == old(log)
    {
      if p.dir == OutputDir {
        output := output - {p.name};
      } else {
        cache := cache - {p.name};
      }
    }

    /** `subStepStatusAction(text)`. */
    method Say(s: Status)
      modifies this
      ensures log == old(log) + [s]
      ensures output == old(output) && cache == old(cache)
    {
      log := log + [s];
    }
  }

  /** A `MutableList<File>` of produced files, shared between the steps. */
  class FileList {
    var items: seq<Path>

    constructor ()
      ensures items == []
    {
      items := [];
    }

    method Add(p: Path)
      modifies this
      ensures items == old(items) + [p]
    {
      items := items + [p];
    }
  }
}
