/** `createPdfFromImageList`: rendering a list of entries into one PDF file. */
module Render {
  import opened Wrappers
  import opened Archive
  import opened Pdf
  import opened Plan

  // --------------------------------------------------------- rendering

  /** The pages after one more image. */
  lemma PagesStep(images: seq<Entry>, k: nat, decode: Entry -> Decoded, pages: seq<Page>, page: Option<Page>)
    requires k < |images| && pages == RenderPages(images[..k], decode, true) && page == PageOf(images[k], decode, true)
    ensures RenderPages(images[..k + 1], decode, true) == if page.Some? then pages + [page.value] else pages
  {
    assert images[..k + 1][..k] == images[..k] && images[..k + 1][k] == images[k];
  }

  /** The lines after one more image. */
  lemma LinesStep(images: seq<Entry>, k: nat, decode: Entry -> Decoded, ch: Channel, fmt: ProgressFormat)
    requires k < |images|
    ensures SayAll(ch, RenderLog(images[..k + 1], decode, true, fmt))
         == SayAll(ch, RenderLog(images[..k], decode, true, fmt)) + [Say(ch, Progress(fmt, k + 1))]
            + SayAll(ch, WebpNotice(images[k], decode, true))
  {
    var e := images[k];
    assert images[..k + 1] == images[..k] + [e];
    RenderLogSnoc(images[..k], e, decode, true, fmt);
    SayAllAppend(ch, RenderLog(images[..k], decode, true, fmt), ImageLog(e, decode, true, fmt, k + 1));
    SayAllAppend(ch, [Progress(fmt, k + 1)], WebpNotice(e, decode, true));
    assert SayAll(ch, [Progress(fmt, k + 1)]) == [Say(ch, Progress(fmt, k + 1))] by {
      assert [Progress(fmt, k + 1)][..0] == [];
    }
  }

  /**
   * `extractImageAndAddToPDFDocument`: the WebP notice when a WebP entry
   * was extracted, and the page it adds, if any (every failure is caught).
   */
  method ExtractImageAndAddToPdfDocument(ws: Workspace, e: Entry, decode: Entry -> Decoded, ch: Channel)
    returns (page: Option<Page>)
    modifies ws
    ensures page == PageOf(e, decode, true)
    ensures ws.log == old(ws.log) + SayAll(ch, WebpNotice(e, decode, true))
    ensures ws.output == old(ws.output) && ws.cache == old(ws.cache)
  {
    if !decode(e).ExtractFailed? && IsWebp(e) {
      ws.Say(Say(ch, ConvertingWebp(e.name)));
      assert SayAll(ch, WebpNotice(e, decode, true)) == [Say(ch, ConvertingWebp(e.name))] by {
        assert WebpNotice(e, decode, true)[..0] == [];
      }
    }
    page := PageOf(e, decode, true);
  }

  /**
   * The page loop of `createPdfFromImageList`: a progress line per image
   * before it is extracted, and the pages of the images that decode.
   */
  method AddImages(ws: Workspace, images: seq<Entry>, decode: Entry -> Decoded, ch: Channel, fmt: ProgressFormat)
    returns (pages: seq<Page>)
    modifies ws
    ensures pages == RenderPages(images, decode, true)
    ensures ws.log == old(ws.log) + SayAll(ch, RenderLog(images, decode, true, fmt))
    ensures ws.output == old(ws.output) && ws.cache == old(ws.cache)
  {
    pages := [];
    var k := 0;
    while k < |images|
      invariant 0 <= k <= |images|
      invariant pages == RenderPages(images[..k], decode, true)
      invariant ws.log == old(ws.log) + SayAll(ch, RenderLog(images[..k], decode, true, fmt))
      invariant ws.output == old(ws.output) && ws.cache == old(ws.cache)
    {
      LinesStep(images, k, decode, ch, fmt);
      ghost var done := SayAll(ch, RenderLog(images[..k], decode, true, fmt));
      ghost var progress := [Say(ch, Progress(fmt, k + 1))];
      ws.Say(Say(ch, Progress(fmt, k + 1)));
      var page := ExtractImageAndAddToPdfDocument(ws, images[k], decode, ch);
      Assoc(old(ws.log), done, progress);
      Assoc(old(ws.log), done + progress, SayAll(ch, WebpNotice(images[k], decode, true)));
      PagesStep(images, k, decode, pages, page);
      if page.Some? {
        pages := pages + [page.value];
      }
      k := k + 1;
    }
    assert images[..k] == images;
  }

  /**
   * `createPdfFromImageList`: the file at `out` ends up holding the pages
   * of the images that decode, in order, at the chosen compression.
   */
  method CreatePdfFromImageList(ws: Workspace, images: seq<Entry>, out: Path, decode: Entry -> Decoded,
                                ch: Channel, fmt: ProgressFormat, compress: bool)
    modifies ws
    ensures ws.output == (if out.dir == OutputDir then old(ws.output)[out.name := Doc(images, compress, decode)] else old(ws.output))
    ensures ws.cache == (if out.dir == CacheDir then old(ws.cache)[out.name := Doc(images, compress, decode)] else old(ws.cache))
    ensures ws.log == old(ws.log) + SayAll(ch, RenderLog(images, decode, true, fmt))
  {
    var pages := AddImages(ws, images, decode, ch, fmt);
    ws.Write(out, PdfDoc(pages, Level(compress)));
  }
}
