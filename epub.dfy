/**
 * `createEpubFromCbz` and `createEpubFromImageList`: an archive's image
 * entries packed into an EPUB container. The container's layout is
 * modelled entry by entry; the XML texts are modelled by the items they
 * list, not byte for byte.
 */
module Epub {
  import opened Wrappers
  import opened Strings
  import opened Archive
  import opened Pdf

  // ------------------------------------------------------------- names

  /** `getFileExtension`: the text from the last '.', or "" without one. */
  function GetFileExtension(name: string): (r: string)
    ensures |r| <= |name| && (r == "" || r[0] == '.')
  {
    match LastIndexOf(name, '.')
    case None => ""
    case Some(dot) => name[dot..]
  }

  /**
   * The extension is "" exactly when the name has no '.'; otherwise it
   * is the name's end from its last '.'.
   */
  lemma GetFileExtensionSpec(name: string)
    ensures var r := GetFileExtension(name);
      && (r == "" <==> HasNo(name, '.'))
      && (r != "" ==> r[0] == '.' && HasNo(r[1..], '.'))
      && EndsWith(name, r)
      && IsExtension(r)
  {
    if HasNo(name, '.') {
      assert name[|name|..] == "";
    }
  }

  /** `getMimeType`: the media type of a lower-cased extension, octet-stream otherwise. */
  function GetMimeType(extension: string): (r: string)
    ensures r in {"image/jpeg", "image/png", "image/gif", "image/webp", "application/octet-stream"}
  {
    match Lower(extension)
    case ".jpg" => "image/jpeg"
    case ".jpeg" => "image/jpeg"
    case ".png" => "image/png"
    case ".gif" => "image/gif"
    case ".webp" => "image/webp"
    case _ => "application/octet-stream"
  }

  /** The five extensions with a known media type. */
  predicate KnownImage(lower: string)
  {
    lower == ".jpg" || lower == ".jpeg" || lower == ".png" || lower == ".gif" || lower == ".webp"
  }

  /**
   * The media type ignores letter case, and is an image type exactly for
   * the five known extensions.
   */
  lemma MimeTypeSpec(extension: string)
    ensures GetMimeType(extension) == GetMimeType(Lower(extension))
    ensures GetMimeType(extension) != "application/octet-stream" <==> KnownImage(Lower(extension))
    ensures GetMimeType(extension) == "image/jpeg" <==> Lower(extension) in {".jpg", ".jpeg"}
  {
    LowerIdempotent(extension);
  }

  lemma LowerIdempotent(s: string)
    ensures Lower(Lower(s)) == Lower(s)
  {
    assert forall k :: 0 <= k < |s| ==> LowerChar(LowerChar(s[k])) == LowerChar(s[k]);
  }

  /** What `getFileExtension` can return: "" or a '.' followed by no other '.'. */
  predicate IsExtension(ext: string)
  {
    ext == "" || (ext[0] == '.' && HasNo(ext[1..], '.'))
  }

  /** `"image$index$ext"`. */
  function ImageName(index: nat, ext: string): string
  {
    "image" + NatToString(index) + ext
  }

  /** Where image `index` is stored, relative to the package's folder `OEBPS/`. */
  function ImageHref(index: nat, ext: string): string
  {
    "Images/" + ImageName(index, ext)
  }

  /** `"page$index.xhtml"`. */
  function PageName(index: nat): string
  {
    "page" + NatToString(index) + ".xhtml"
  }

  /** `"Page ${index + 1}"`. */
  function PageLabel(index: nat): string
  {
    "Page " + NatToString(index + 1)
  }

  /** An image name gives back its page index and its extension. */
  lemma ImageNameInjective(i: nat, j: nat, x: string, y: string)
    requires IsExtension(x) && IsExtension(y)
    requires ImageName(i, x) == ImageName(j, y)
    ensures i == j && x == y
  {
    var di, dj := NatToString(i), NatToString(j);
    assert di + x == ImageName(i, x)[5..];
    assert dj + y == ImageName(j, y)[5..];
    DigitsThenExtension(di, dj, x, y);
    NatToStringInjective(i, j);
    assert x == (di + x)[|di|..] && y == (dj + y)[|dj|..];
  }

  /** Digits followed by "" or by a text starting with '.' are recovered from the whole. */
  lemma DigitsThenExtension(a: string, b: string, x: string, y: string)
    requires AllDigits(a) && AllDigits(b) && a + x == b + y
    requires x == "" || x[0] == '.'
    requires y == "" || y[0] == '.'
    ensures a == b
  {
    DigitsEnd(a, x, b + y);
    DigitsEnd(b, y, a + x);
    assert a == (a + x)[..|a|] && b == (b + y)[..|b|];
  }

  /** In digits followed by "" or by a '.', the digits end where the whole's digit run ends. */
  lemma DigitsEnd(a: string, x: string, s: string)
    requires AllDigits(a) && s == a + x
    requires x == "" || x[0] == '.'
    ensures forall k :: 0 <= k < |a| ==> IsDigit(s[k])
    ensures |s| == |a| || !IsDigit(s[|a|])
  {
  }

  /** A page name gives back its page index. */
  lemma PageNameInjective(i: nat, j: nat)
    requires PageName(i) == PageName(j)
    ensures i == j
  {
    var di, dj := NatToString(i), NatToString(j);
    assert di + ".xhtml" == PageName(i)[4..];
    assert dj + ".xhtml" == PageName(j)[4..];
    DigitsThenExtension(di, dj, ".xhtml", ".xhtml");
    NatToStringInjective(i, j);
  }

  // ------------------------------------------------------ entry paths

  /** Where an entry sits in the container: one of the fixed files and folders, an image or a page. */
  datatype Place =
    | MimetypeFile
    | MetaInfDir
    | ContainerFile
    | OebpsDir
    | ImagesDir
    | PackageFile
    | TocFile
    | ImageFile(index: nat, ext: string)
    | PageFile(index: nat)

  /** The entry's name inside the ZIP archive. */
  function PathOf(p: Place): string
  {
    match p
    case MimetypeFile => "mimetype"
    case MetaInfDir => "META-INF/"
    case ContainerFile => "META-INF/container.xml"
    case OebpsDir => "OEBPS/"
    case ImagesDir => "OEBPS/Images/"
    case PackageFile => "OEBPS/content.opf"
    case TocFile => "OEBPS/toc.ncx"
    case ImageFile(i, ext) => "OEBPS/" + ImageHref(i, ext)
    case PageFile(i) => "OEBPS/" + PageName(i)
  }

  /** The places the container uses: image files carry an extension `getFileExtension` can return. */
  predicate ValidPlace(p: Place)
  {
    p.ImageFile? ==> IsExtension(p.ext)
  }

  /** Enough of each path to tell the kinds of place apart: its length, and its first and seventh letters. */
  lemma PathShape(p: Place)
    ensures var s := PathOf(p);
      match p
      case MimetypeFile => |s| == 8 && s[0] == 'm'
      case MetaInfDir => |s| == 9 && s[0] == 'M'
      case ContainerFile => |s| == 22 && s[0] == 'M'
      case OebpsDir => |s| == 6
      case ImagesDir => |s| == 13 && s[6] == 'I'
      case PackageFile => |s| == 17 && s[0] == 'O' && s[6] == 'c'
      case TocFile => |s| == 13 && s[6] == 't'
      case ImageFile(_, _) => |s| > 18 && s[0] == 'O' && s[6] == 'I'
      case PageFile(_) => |s| > 16 && s[0] == 'O' && s[6] == 'p'
  {
  }

  /** Different places have different paths: no two entries of the container share a name. */
  lemma PathOfInjective(p: Place, q: Place)
    requires ValidPlace(p) && ValidPlace(q)
    requires PathOf(p) == PathOf(q)
    ensures p == q
  {
    PathShape(p);
    PathShape(q);
    if p.ImageFile? && q.ImageFile? {
      assert ImageName(p.index, p.ext) == PathOf(p)[13..] && ImageName(q.index, q.ext) == PathOf(q)[13..];
      ImageNameInjective(p.index, q.index, p.ext, q.ext);
    } else if p.PageFile? && q.PageFile? {
      assert PageName(p.index) == PathOf(p)[6..] && PageName(q.index) == PathOf(q)[6..];
      PageNameInjective(p.index, q.index);
    }
  }

  // ------------------------------------------------------- the container

  /** How a ZIP entry's bytes are stored. */
  datatype ZipMethod = Stored | Deflated

  /** A size and a CRC-32 set on the entry before it is written, the CRC being that of `crcOf`. */
  datatype Declared = Declared(size: nat, crcOf: string)

  /** An item of the package's manifest. */
  datatype ManifestItem =
    | ImageRef(index: nat, ext: string)
    | PageRef(index: nat)
    | NcxRef

  function ItemId(m: ManifestItem): string
  {
    match m
    case ImageRef(i, _) => "img" + NatToString(i)
    case PageRef(i) => "page" + NatToString(i)
    case NcxRef => "ncx"
  }

  /** The item's file, relative to the package's folder `OEBPS/`. */
  function ItemHref(m: ManifestItem): string
  {
    match m
    case ImageRef(i, ext) => ImageHref(i, ext)
    case PageRef(i) => PageName(i)
    case NcxRef => "toc.ncx"
  }

  function ItemMediaType(m: ManifestItem): string
  {
    match m
    case ImageRef(_, ext) => GetMimeType(ext)
    case PageRef(_) => "application/xhtml+xml"
    case NcxRef => "application/x-dtbncx+xml"
  }

  /** A navigation point of the table of contents, naming page `index`. */
  datatype NavPoint = NavPoint(index: nat)

  function NavId(p: NavPoint): string
  {
    "navPoint-" + NatToString(p.index)
  }

  function PlayOrder(p: NavPoint): nat
  {
    p.index + 1
  }

  function NavLabel(p: NavPoint): string
  {
    PageLabel(p.index)
  }

  /** The navigation point's target, relative to `OEBPS/`. */
  function NavSrc(p: NavPoint): string
  {
    PageName(p.index)
  }

  /** What an entry of the container holds. */
  datatype Body =
    | Text(text: string)
    | Folder
    | Container(rootFile: string, mediaType: string)
    | ImageBytes(source: Entry)
    | Xhtml(page: nat, ext: string)
    | Package(manifest: seq<ManifestItem>, spine: seq<string>)
    | Toc(navPoints: seq<NavPoint>)

  /** The title of the page document `Xhtml(page, _)`. */
  function XhtmlTitle(page: nat): string
  {
    PageLabel(page)
  }

  /** The image the page document `Xhtml(page, ext)` shows, relative to `OEBPS/`. */
  function XhtmlImageSrc(page: nat, ext: string): string
  {
    ImageHref(page, ext)
  }

  datatype ZipItem = ZipItem(place: Place, storage: ZipMethod, declared: Option<Declared>, body: Body)

  const MimetypeText: string := "application/epub+zip"

  /**
   * The entry section 3.3 of the EPUB Open Container Format 3.0.1 asks
   * for first: `mimetype`, stored uncompressed, with its size and CRC set.
   */
  const Mimetype: ZipItem :=
    ZipItem(MimetypeFile, Stored, Some(Declared(|MimetypeText|, MimetypeText)), Text(MimetypeText))

  function FolderItem(p: Place): ZipItem
  {
    ZipItem(p, Deflated, None, Folder)
  }

  const ContainerItem: ZipItem :=
    ZipItem(ContainerFile, Deflated, None, Container("OEBPS/content.opf", "application/oebps-package+xml"))

  /** The entries written before any image. */
  function Head(): seq<ZipItem>
  {
    [Mimetype, FolderItem(MetaInfDir), ContainerItem, FolderItem(OebpsDir), FolderItem(ImagesDir)]
  }

  /** The entry holding the bytes of image `index`. */
  function ImageItem(index: nat, e: Entry): ZipItem
  {
    ZipItem(ImageFile(index, GetFileExtension(e.name)), Deflated, None, ImageBytes(e))
  }

  /** The page document that shows image `index`. */
  function PageItem(index: nat, e: Entry): ZipItem
  {
    ZipItem(PageFile(index), Deflated, None, Xhtml(index, GetFileExtension(e.name)))
  }

  /** The entries of the first `n` pages, in page order: an image, then its page. */
  function PagesItems(images: seq<Entry>, n: nat): (r: seq<ZipItem>)
    requires n <= |images|
    ensures |r| == 2 * n
  {
    if n == 0 then [] else PagesItems(images, n - 1) + [ImageItem(n - 1, images[n - 1]), PageItem(n - 1, images[n - 1])]
  }

  /** Positions `2i` and `2i+1` hold image `i` and its page. */
  lemma {:induction false} PagesItemsAt(images: seq<Entry>, n: nat, i: nat)
    requires i < n <= |images|
    ensures PagesItems(images, n)[2 * i] == ImageItem(i, images[i])
    ensures PagesItems(images, n)[2 * i + 1] == PageItem(i, images[i])
  {
    if i < n - 1 {
      PagesItemsAt(images, n - 1, i);
      SeqMiddle([], PagesItems(images, n - 1), [ImageItem(n - 1, images[n - 1]), PageItem(n - 1, images[n - 1])], 2 * i);
      SeqMiddle([], PagesItems(images, n - 1), [ImageItem(n - 1, images[n - 1]), PageItem(n - 1, images[n - 1])], 2 * i + 1);
    }
  }

  /** `manifestItems` after `n` pages: an image item, then a page item, per page. */
  function ManifestOf(images: seq<Entry>, n: nat): (r: seq<ManifestItem>)
    requires n <= |images|
    ensures |r| == 2 * n
  {
    if n == 0 then [] else ManifestOf(images, n - 1) + [ImageRef(n - 1, GetFileExtension(images[n - 1].name)), PageRef(n - 1)]
  }

  /** Positions `2i` and `2i+1` hold the manifest items of image `i` and of its page. */
  lemma {:induction false} ManifestAt(images: seq<Entry>, n: nat, i: nat)
    requires i < n <= |images|
    ensures ManifestOf(images, n)[2 * i] == ImageRef(i, GetFileExtension(images[i].name))
    ensures ManifestOf(images, n)[2 * i + 1] == PageRef(i)
  {
    if i < n - 1 {
      ManifestAt(images, n - 1, i);
    }
  }

  /** `spineItems` after `n` pages: the ids of the page items, in page order. */
  function SpineOf(n: nat): (r: seq<string>)
    ensures |r| == n
  {
    if n == 0 then [] else SpineOf(n - 1) + [ItemId(PageRef(n - 1))]
  }

  /** Spine item `i` is the id of page item `i`. */
  lemma {:induction false} SpineAt(n: nat, i: nat)
    requires i < n
    ensures SpineOf(n)[i] == ItemId(PageRef(i))
  {
    if i < n - 1 {
      SpineAt(n - 1, i);
    }
  }

  /** `spineItems.mapIndexed { index, _ -> ... }`: one navigation point per spine item. */
  function NavPoints(spine: seq<string>): (r: seq<NavPoint>)
    ensures |r| == |spine|
  {
    if spine == [] then [] else NavPoints(spine[..|spine| - 1]) + [NavPoint(|spine| - 1)]
  }

  /** Navigation point `i` names page `i`. */
  lemma {:induction false} NavPointsAt(spine: seq<string>, i: nat)
    requires i < |spine|
    ensures NavPoints(spine)[i] == NavPoint(i)
  {
    if i < |spine| - 1 {
      NavPointsAt(spine[..|spine| - 1], i);
    }
  }

  function PackageItem(manifest: seq<ManifestItem>, spine: seq<string>): ZipItem
  {
    ZipItem(PackageFile, Deflated, None, Package(manifest + [NcxRef], spine))
  }

  function TocItem(spine: seq<string>): ZipItem
  {
    ZipItem(TocFile, Deflated, None, Toc(NavPoints(spine)))
  }

  /** The whole container for `images`, entry by entry. */
  function EpubLayout(images: seq<Entry>): seq<ZipItem>
  {
    var n := |images|;
    Head() + PagesItems(images, n) + [PackageItem(ManifestOf(images, n), SpineOf(n)), TocItem(SpineOf(n))]
  }

  /** `"Processing page ${index + 1}"` for the first `n` pages. */
  function PageLines(n: nat): (r: seq<Status>)
    ensures |r| == n && forall i :: 0 <= i < n ==> r[i] == EpubPage(i + 1)
  {
    if n == 0 then [] else PageLines(n - 1) + [EpubPage(n)]
  }

  /**
   * The container's layout: `mimetype` first, stored, holding
   * "application/epub+zip" with its size and CRC; then the fixed folders
   * and `container.xml`; then image `i` followed by its page, in input
   * order; then the package and the table of contents.
   */
  lemma EpubLayoutSpec(images: seq<Entry>)
    ensures var l := EpubLayout(images); var n := |images|;
      && |l| == 2 * n + 7
      && l[0] == Mimetype && l[0].storage == Stored && PathOf(l[0].place) == "mimetype"
      && l[0].declared == Some(Declared(|MimetypeText|, MimetypeText))
      && (forall i :: 0 <= i < n ==>
            && l[5 + 2 * i] == ImageItem(i, images[i])
            && l[6 + 2 * i] == PageItem(i, images[i]))
      && l[5 + 2 * n] == PackageItem(ManifestOf(images, n), SpineOf(n))
      && l[6 + 2 * n] == TocItem(SpineOf(n))
  {
    LayoutEnds(images);
    forall i | 0 <= i < |images|
      ensures EpubLayout(images)[5 + 2 * i] == ImageItem(i, images[i])
      ensures EpubLayout(images)[6 + 2 * i] == PageItem(i, images[i])
    {
      LayoutAt(images, i);
    }
  }

  /** The first entry and the last two. */
  lemma LayoutEnds(images: seq<Entry>)
    ensures var l := EpubLayout(images); var n := |images|;
      && |l| == 2 * n + 7 && l[0] == Mimetype
      && l[5 + 2 * n] == PackageItem(ManifestOf(images, n), SpineOf(n))
      && l[6 + 2 * n] == TocItem(SpineOf(n))
  {
    var n := |images|;
    var head, pages := Head(), PagesItems(images, n);
    var tail := [PackageItem(ManifestOf(images, n), SpineOf(n)), TocItem(SpineOf(n))];
    assert |head| == 5;
    SeqMiddle(head + pages, tail, [], 0);
    SeqMiddle(head + pages, tail, [], 1);
  }

  /** Entries `5 + 2i` and `6 + 2i` are image `i` and its page. */
  lemma LayoutAt(images: seq<Entry>, i: nat)
    requires i < |images|
    ensures EpubLayout(images)[5 + 2 * i] == ImageItem(i, images[i])
    ensures EpubLayout(images)[6 + 2 * i] == PageItem(i, images[i])
  {
    var n := |images|;
    var head, pages := Head(), PagesItems(images, n);
    var tail := [PackageItem(ManifestOf(images, n), SpineOf(n)), TocItem(SpineOf(n))];
    assert |head| == 5;
    PagesItemsAt(images, n, i);
    SeqMiddle(head, pages, tail, 2 * i);
    SeqMiddle(head, pages, tail, 2 * i + 1);
  }

  /** Indexing into the middle run of a concatenation. */
  lemma SeqMiddle<T>(a: seq<T>, b: seq<T>, c: seq<T>, k: nat)
    requires k < |b|
    ensures (a + b + c)[|a| + k] == b[k]
  {
  }

  /** Where each place sits in the layout of `n` images. */
  function Slot(n: nat, p: Place): int
  {
    match p
    case MimetypeFile => 0
    case MetaInfDir => 1
    case ContainerFile => 2
    case OebpsDir => 3
    case ImagesDir => 4
    case PackageFile => 5 + 2 * n
    case TocFile => 6 + 2 * n
    case ImageFile(i, _) => 5 + 2 * i
    case PageFile(i) => 6 + 2 * i
  }

  lemma SlotAt(images: seq<Entry>, k: nat)
    requires k < 2 * |images| + 7
    ensures var p := EpubLayout(images)[k].place; ValidPlace(p) && Slot(|images|, p) == k
  {
    var n := |images|;
    if 5 <= k < 5 + 2 * n {
      var i := (k - 5) / 2;
      Halves(k - 5);
      SlotPage(images, i);
    } else {
      SlotFixed(images, k);
    }
  }

  lemma SlotPage(images: seq<Entry>, i: nat)
    requires i < |images|
    ensures var p := EpubLayout(images)[5 + 2 * i].place; ValidPlace(p) && Slot(|images|, p) == 5 + 2 * i
    ensures var p := EpubLayout(images)[6 + 2 * i].place; ValidPlace(p) && Slot(|images|, p) == 6 + 2 * i
  {
    LayoutAt(images, i);
    GetFileExtensionSpec(images[i].name);
  }

  lemma SlotFixed(images: seq<Entry>, k: nat)
    requires k < 5 || 5 + 2 * |images| <= k < 7 + 2 * |images|
    ensures var p := EpubLayout(images)[k].place; ValidPlace(p) && Slot(|images|, p) == k
  {
    var l, n := EpubLayout(images), |images|;
    LayoutEnds(images);
    if k < 5 {
      assert |Head()| == 5;
      assert l[k] == Head()[k];
    }
  }

  lemma Halves(j: nat)
    ensures j == 2 * (j / 2) || j == 2 * (j / 2) + 1
  {
  }

  /** No two entries of the container have the same name. */
  lemma EntryPathsDistinct(images: seq<Entry>)
    ensures var l := EpubLayout(images);
      forall k, m :: 0 <= k < |l| && 0 <= m < |l| && PathOf(l[k].place) == PathOf(l[m].place) ==> k == m
  {
    var l := EpubLayout(images);
    EpubLayoutSpec(images);
    forall k, m | 0 <= k < |l| && 0 <= m < |l| && PathOf(l[k].place) == PathOf(l[m].place)
      ensures k == m
    {
      SlotAt(images, k);
      SlotAt(images, m);
      PathOfInjective(l[k].place, l[m].place);
    }
  }

  /**
   * The package agrees with the entries: its manifest lists image `i`
   * and page `i` at the paths where the container stores them, typed by
   * the image's extension, and the table of contents last; its spine
   * lists the page items' ids in page order; and navigation point `i`
   * leads to page `i`, numbered `i + 1`.
   */
  lemma PackageSpec(images: seq<Entry>)
    ensures var l := EpubLayout(images); var n := |images|;
      && l[5 + 2 * n].body.Package? && l[6 + 2 * n].body.Toc?
      && |l[5 + 2 * n].body.manifest| == 2 * n + 1
      && |l[5 + 2 * n].body.spine| == n
      && |l[6 + 2 * n].body.navPoints| == n
      && "OEBPS/" + ItemHref(l[5 + 2 * n].body.manifest[2 * n]) == PathOf(l[6 + 2 * n].place)
      && forall i :: 0 <= i < n ==> PackageAgrees(images, l, i)
  {
    LayoutEnds(images);
    forall i | 0 <= i < |images|
      ensures PackageAgrees(images, EpubLayout(images), i)
    {
      PackageAt(images, i);
    }
  }

  /** What the package says about page `i` of the layout `l`. */
  predicate PackageAgrees(images: seq<Entry>, l: seq<ZipItem>, i: nat)
  {
    ManifestAgrees(images, l, i) && SpineAgrees(images, l, i)
  }

  /** The manifest lists image `i` and page `i` where the layout stores them, the image typed by its extension. */
  predicate ManifestAgrees(images: seq<Entry>, l: seq<ZipItem>, i: nat)
  {
    var n := |images|;
    && i < n && |l| == 2 * n + 7 && l[5 + 2 * n].body.Package?
    && var m := l[5 + 2 * n].body.manifest;
    && |m| == 2 * n + 1
    && "OEBPS/" + ItemHref(m[2 * i]) == PathOf(l[5 + 2 * i].place)
    && ItemMediaType(m[2 * i]) == GetMimeType(GetFileExtension(images[i].name))
    && "OEBPS/" + ItemHref(m[2 * i + 1]) == PathOf(l[6 + 2 * i].place)
  }

  /** Spine item `i` is page `i`'s id, and navigation point `i` leads to page `i`, numbered `i + 1`. */
  predicate SpineAgrees(images: seq<Entry>, l: seq<ZipItem>, i: nat)
  {
    var n := |images|;
    && i < n && |l| == 2 * n + 7
    && l[5 + 2 * n].body.Package? && l[6 + 2 * n].body.Toc?
    && var m := l[5 + 2 * n].body.manifest; var spine := l[5 + 2 * n].body.spine;
       var nav := l[6 + 2 * n].body.navPoints;
    && |m| == 2 * n + 1 && |spine| == n && |nav| == n
    && spine[i] == ItemId(m[2 * i + 1])
    && PlayOrder(nav[i]) == i + 1
    && "OEBPS/" + NavSrc(nav[i]) == PathOf(l[6 + 2 * i].place)
  }

  lemma PackageAt(images: seq<Entry>, i: nat)
    requires i < |images|
    ensures PackageAgrees(images, EpubLayout(images), i)
  {
    PageInManifest(images, i);
    PageInSpine(images, i);
  }

  lemma PageInManifest(images: seq<Entry>, i: nat)
    requires i < |images|
    ensures ManifestAgrees(images, EpubLayout(images), i)
  {
    var n := |images|;
    LayoutEnds(images);
    LayoutAt(images, i);
    ManifestAt(images, n, i);
    var m := ManifestOf(images, n) + [NcxRef];
    assert m[2 * i] == ManifestOf(images, n)[2 * i] && m[2 * i + 1] == ManifestOf(images, n)[2 * i + 1];
  }

  lemma PageInSpine(images: seq<Entry>, i: nat)
    requires i < |images|
    ensures SpineAgrees(images, EpubLayout(images), i)
  {
    var n := |images|;
    LayoutEnds(images);
    LayoutAt(images, i);
    ManifestAt(images, n, i);
    SpineAt(n, i);
    NavPointsAt(SpineOf(n), i);
    var m := ManifestOf(images, n) + [NcxRef];
    assert m[2 * i + 1] == ManifestOf(images, n)[2 * i + 1];
  }

  // ---------------------------------------------------------- writing

  /** The `ZipOutputStream` the container is written through. */
  class EpubStream {
    var items: seq<ZipItem>

    constructor ()
      ensures items == []
    {
      items := [];
    }

    method Put(item: ZipItem)
      modifies this
      ensures items == old(items) + [item]
    {
      items := items + [item];
    }
  }

  /** What one turn of the page loop adds: a status line, two entries, two manifest items and a spine item. */
  lemma PageStep(start: seq<ZipItem>, images: seq<Entry>, index: nat)
    requires index < |images|
    ensures start + PagesItems(images, index + 1)
         == start + PagesItems(images, index) + [ImageItem(index, images[index]), PageItem(index, images[index])]
    ensures ManifestOf(images, index + 1)
         == ManifestOf(images, index) + [ImageRef(index, GetFileExtension(images[index].name)), PageRef(index)]
    ensures SpineOf(index + 1) == SpineOf(index) + [ItemId(PageRef(index))]
    ensures PageLines(index + 1) == PageLines(index) + [EpubPage(index + 1)]
  {
    Assoc(start, PagesItems(images, index), [ImageItem(index, images[index]), PageItem(index, images[index])]);
  }

  /**
   * The page loop of `createEpubFromImageList`: for each image, a status
   * line, the image's entry and its page's entry; returns the manifest
   * and spine items collected along the way.
   */
  method WritePages(ws: Workspace, out: EpubStream, images: seq<Entry>)
    returns (manifestItems: seq<ManifestItem>, spineItems: seq<string>)
    modifies ws, out
    ensures out.items == old(out.items) + PagesItems(images, |images|)
    ensures manifestItems == ManifestOf(images, |images|)
    ensures spineItems == SpineOf(|images|)
    ensures ws.log == old(ws.log) + PageLines(|images|)
    ensures ws.output == old(ws.output) && ws.cache == old(ws.cache)
  {
    manifestItems := [];
    spineItems := [];
    for index := 0 to |images|
      invariant out.items == old(out.items) + PagesItems(images, index)
      invariant manifestItems == ManifestOf(images, index)
      invariant spineItems == SpineOf(index)
      invariant ws.log == old(ws.log) + PageLines(index)
      invariant ws.output == old(ws.output) && ws.cache == old(ws.cache)
    {
      PageStep(old(out.items), images, index);
      ws.Say(EpubPage(index + 1));
      var entry := images[index];
      var ext := GetFileExtension(entry.name);
      out.Put(ImageItem(index, entry));
      out.Put(PageItem(index, entry));
      manifestItems := manifestItems + [ImageRef(index, ext), PageRef(index)];
      spineItems := spineItems + [ItemId(PageRef(index))];
    }
  }

  /**
   * `createEpubFromImageList`: writes the container for `images` and
   * reports each page. Returns the entries written, in order.
   */
  method CreateEpubFromImageList(ws: Workspace, images: seq<Entry>) returns (written: seq<ZipItem>)
    modifies ws
    ensures written == EpubLayout(images)
    ensures ws.log == old(ws.log) + PageLines(|images|)
    ensures ws.output == old(ws.output) && ws.cache == old(ws.cache)
  {
    var out := new EpubStream();
    out.Put(Mimetype);
    out.Put(FolderItem(MetaInfDir));
    out.Put(ContainerItem);
    out.Put(FolderItem(OebpsDir));
    out.Put(FolderItem(ImagesDir));
    assert out.items == Head();
    var manifestItems, spineItems := WritePages(ws, out, images);
    out.Put(PackageItem(manifestItems, spineItems));
    out.Put(TocItem(spineItems));
    written := out.items;
  }

  // --------------------------------------------------- from an archive

  /** `filter { !it.isDirectory }`. */
  function NonDirectories(es: seq<Entry>): (r: seq<Entry>)
    ensures forall e :: e in r <==> e in es && !IsDirectory(e)
    ensures |r| <= |es|
  {
    if es == [] then []
    else NonDirectories(es[..|es| - 1]) + (if IsDirectory(es[|es| - 1]) then [] else [es[|es| - 1]])
  }

  /** The filter keeps the order: filtering two runs is filtering each. */
  lemma {:induction false} NonDirectoriesAppend(a: seq<Entry>, b: seq<Entry>)
    ensures NonDirectories(a + b) == NonDirectories(a) + NonDirectories(b)
  {
    if b == [] {
      assert a + b == a;
    } else {
      assert (a + b)[..|a + b| - 1] == a + b[..|b| - 1];
      NonDirectoriesAppend(a, b[..|b| - 1]);
    }
  }

  /**
   * `createEpubFromCbz`: the ordered entries without the directories are
   * packed into the container, which is then listed among the output files.
   */
  method CreateEpubFromCbz(ws: Workspace, files: FileList, es: seq<Entry>, useOffset: bool, outputFileName: string)
    returns (written: seq<ZipItem>)
    modifies ws, files
    ensures written == EpubLayout(NonDirectories(OrderEntries(es, useOffset)))
    ensures ws.log == old(ws.log) + PageLines(|NonDirectories(OrderEntries(es, useOffset))|)
    ensures ws.output == old(ws.output) && ws.cache == old(ws.cache)
    ensures files.items == old(files.items) + [Path(OutputDir, outputFileName)]
  {
    var images := NonDirectories(OrderEntries(es, useOffset));
    written := CreateEpubFromImageList(ws, images);
    files.Add(Path(OutputDir, outputFileName));
  }
}
