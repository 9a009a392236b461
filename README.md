# CBZConverter conversion engine, modelled in Dafny

CBZConverter is an Android app. It turns comic archives (CBZ, that is ZIP files of page images) into PDF files, and optionally into EPUB. This project models its conversion engine, its output-name rules and its display-name cleaning, and proves what they do:

- **Page engine** (`backend/ConversionFunctions.kt`):
  - the chapter ranges of `calculateRange`;
  - entry ordering (archive order, or a stable sort by name);
  - renaming entries of merged sources under a nine-digit index;
  - the split into `_part-N` files;
  - in-memory batching through cache files, and the merge of those files;
  - the WebP rule;
  - the EPUB container layout;
  - the orchestration from the selected files to the files written.
- **Earlier engine** (`puchunguita/ConversionFunctions.kt`): its inline part ranges, its batch-then-merge single file and its merge.
- **View model** (`backend/MainViewModel.kt`): output-name composition, placeholder and chapter detection, conflict resolution, settings parsing, and the selection / merge / in-flight state machine.
- **Display names** (`backend/ContextHelper.kt`): the `getFileName` candidate pipeline and `isMeaningful`.

## How it is modelled

- A ZIP archive is a sequence of `Archive.Entry(name, data)`. A directory entry is one whose name ends in `/`.
- Rendering one entry is an oracle `decode: Entry -> Decoded`. It reports a failed extraction, a failed decode, or an image with its size.
- A PDF is a `Pdf.PdfDoc`: its pages, in order, and its compression level. A page remembers the entry it came from and how it is encoded: as stored, or re-encoded as JPEG at quality 90.
- The file system is a `Pdf.Workspace` class. It holds:
  - `output`, the output directory as a map from names to documents;
  - `cache`, the cache directory, likewise;
  - `log`, the status lines sent to `subStepStatusAction`.
- The mutable `outputFiles` list is a `Pdf.FileList` class over a sequence of paths.
- Loops in the source are `while`/`for` loops in the methods that model them. Each method is proved against a specification function:
  - `Plan.EitherArtifacts` for `createPdfEitherSingleOrMultiple`;
  - `Convert.JobArtifacts` for `convertCbzToPdf`;
  - `Conflicts.Resolution` for `resolveFileNameConflicts`;
  - `Epub.EpubLayout` for `createEpubFromImageList`.
- Properties of those functions are proved as lemmas.

The main result of the engine is the contract of `Convert.ConvertCbzToPdf`. The output directory after a job equals the writes of `Convert.JobArtifacts`, and that function takes no batch size. So the batch size changes only memory use and the status lines, never the files. This is what the settings screen promises for the batch size (app/src/main/java/com/joshiminh/cbzconverter/ui/normal/Configurations.kt:270).

`Batches.BatchedDoc` states it for one file: merging the batch files gives the document rendered at once, and deleting them restores the cache. `Plan.EitherPages` states that the files of one archive hold exactly its decodable entries, in the chosen order.

Where the description of the system and the code disagree, the model follows the code:

- **`isPlaceholderName`** tests five names: unknown, document, file, download and content. `isMeaningful` tests six: document, file, download, content, item and untitled.
- **Mihon-mode test.** One unit test expects a file in a folder named "document" to be named "MyManga.pdf". The code takes the Mihon-mode parent name unfiltered, so the name is "document.pdf". `Naming.MihonDocumentFolderExample` proves the code's result.
- **Directory entries.** The PDF path counts and iterates directory entries too: they reach the rendering oracle like any other entry. Only the EPUB path filters them out.
- **Compression and WebP.** Compression only sets the writer's compression level. WebP entries are always re-encoded as JPEG at quality 90.

## Model

| member | source | states |
|---|---|---|
| Partition.CeilDivBounds | app/src/main/java/com/joshiminh/cbzconverter/backend/ConversionFunctions.kt:662 | `ceil(total / size)` chunks of `size` cover the total, one chunk fewer does not, and there are none exactly when the total is 0 |
| Partition.CalculateRange | app/src/main/java/com/joshiminh/cbzconverter/backend/ConversionFunctions.kt:594-599 | the range starts at `index * pageSize` and ends at the next chunk boundary or at the total, whichever comes first: never past the total, at most `pageSize` long, and a full chunk whenever it ends before the total |
| Partition.RangesTile | app/src/main/java/com/joshiminh/cbzconverter/backend/ConversionFunctions.kt:594-599 | for every index below `ceil(total / size)` the range starts at `index * size`, is non-empty, holds at most `size` items, starts where the previous one ended and is full except the last, which ends at the total: the ranges tile `[0, total)` |
| Partition.CalculateRangeNoOverflow | app/src/main/java/com/joshiminh/cbzconverter/backend/ConversionFunctions.kt:594-599 | for every index below `ceil(total / size)`, an `Int` size and at most 2^30 entries, both products `index * pageSize` and `(index + 1) * pageSize` stay within `Int`, so the source's arithmetic does not wrap there |
| Partition.CalculateRangeExamples | app/src/test/java/com/puchunguita/cbzconverter/HelperFunctionsTest.kt:13-142 | the unit-test cases of `calculateRange`, among them `(1,3,7) -> (3,6)`, `(2,3,7) -> (6,7)`, `(1000,100,100000) -> (100000,100000)`, and `ceil(1500/300) = ceil(2500/500) = 5` |
| Archive.SortByName | app/src/main/java/com/joshiminh/cbzconverter/backend/ConversionFunctions.kt:437-452 | the name sort returns a permutation of the entries (same multiset) in ascending name order |
| Archive.SortByNameStable | app/src/main/java/com/joshiminh/cbzconverter/backend/ConversionFunctions.kt:449 | the sort is stable: the entries of any one name come out in archive order |
| Archive.OrderEntries | app/src/main/java/com/joshiminh/cbzconverter/backend/ConversionFunctions.kt:437-452 | `orderZipEntriesToList` is a permutation; with the offset override it is the archive order itself, otherwise sorted by name; the earlier engine's copy (puchunguita `ConversionFunctions.kt` lines 133-149) is the same |
| Archive.InsertSorted | app/src/main/java/com/joshiminh/cbzconverter/backend/ConversionFunctions.kt:449 | inserting into a name-sorted list keeps it sorted |
| Archive.SortAppend | app/src/main/java/com/joshiminh/cbzconverter/backend/ConversionFunctions.kt:449 | sorting a list whose first part sorts wholly before its second sorts each part on its own |
| Archive.SortPrefixed | app/src/main/java/com/joshiminh/cbzconverter/backend/ConversionFunctions.kt:481-482 | a prefix common to every entry name does not change the name order |
| Archive.CombinedSortOrder | app/src/main/java/com/joshiminh/cbzconverter/backend/ConversionFunctions.kt:475-483 | sorting the combined archive by name gives the sources in ascending index order, each source's entries in their own name order, for fewer than `10^9` sources |
| Archive.LaterBlockAfter | app/src/main/java/com/joshiminh/cbzconverter/backend/ConversionFunctions.kt:481-482 | every name of source `n` sorts after every name indexed below `n` |
| Archive.CombinedIndexed | app/src/main/java/com/joshiminh/cbzconverter/backend/ConversionFunctions.kt:481-482 | every combined name starts with a nine-digit index below the number of sources |
| Archive.SortEach | app/src/main/java/com/joshiminh/cbzconverter/backend/ConversionFunctions.kt:449 | each source block is sorted on its own |
| Archive.ZipWriter.Put | app/src/main/java/com/joshiminh/cbzconverter/backend/ConversionFunctions.kt:484 | `putNextEntry` succeeds exactly when no entry of that name was written before, and then appends the entry |
| Strings.Pad9Order | app/src/main/java/com/joshiminh/cbzconverter/backend/ConversionFunctions.kt:481 | nine-digit, zero-padded indices sort in numeric order whatever follows them |
| Strings.ParseIntRoundTrip | app/src/main/java/com/joshiminh/cbzconverter/backend/MainViewModel.kt:147 | `toIntOrNull` reads back every 32-bit value `toString` writes |
| Strings.BlankIffTrimEmpty | app/src/main/java/com/joshiminh/cbzconverter/backend/MainViewModel.kt:169 | `isBlank()` holds exactly when `trim()` is empty |
| Strings.TrimIdempotent | app/src/main/java/com/joshiminh/cbzconverter/backend/MainViewModel.kt:173 | trimming a trimmed string changes nothing |
| Pdf.PageOf | app/src/main/java/com/joshiminh/cbzconverter/backend/ConversionFunctions.kt:885-934 | an entry yields a page exactly when it decodes to an image; the page keeps the entry and the image size, and it is JPEG at quality 90 exactly when WebP conversion applies and the name ends in ".webp" (any case) |
| Pdf.RenderPages | app/src/main/java/com/joshiminh/cbzconverter/backend/ConversionFunctions.kt:627-636 | a document gets at most one page per entry; `Pdf.RenderPagesSpec` says which pages |
| Pdf.IsWebpSpec | app/src/main/java/com/joshiminh/cbzconverter/backend/ConversionFunctions.kt:903 | an entry is WebP exactly when its name ends in '.' followed by w, e, b, p, each in either letter case |
| Pdf.RenderPagesSpec | app/src/main/java/com/joshiminh/cbzconverter/backend/ConversionFunctions.kt:627-636 | the pages of a document are exactly the decodable entries, in entry order: as many pages as entries that decode, each from an entry of the input that decodes |
| Pdf.RenderPagesAppend | app/src/main/java/com/joshiminh/cbzconverter/backend/ConversionFunctions.kt:627-636 | rendering two consecutive slices gives the pages of the whole |
| Pdf.RenderLogProgress | app/src/main/java/com/joshiminh/cbzconverter/backend/ConversionFunctions.kt:627-628 | one progress line per image, numbered 1 to the number of images, in order |
| Pdf.SayAllDirect | app/src/main/java/com/joshiminh/cbzconverter/backend/ConversionFunctions.kt:695 | the unwrapped status callback passes every line on unchanged |
| Pdf.Workspace.Write | app/src/main/java/com/joshiminh/cbzconverter/backend/ConversionFunctions.kt:618-643 | the written file holds the document; nothing else changes |
| Pdf.Workspace.Delete | app/src/main/java/com/joshiminh/cbzconverter/backend/ConversionFunctions.kt:838 | the file is gone from its directory; nothing else changes |
| Pdf.Workspace.Say | app/src/main/java/com/joshiminh/cbzconverter/backend/ConversionFunctions.kt:628 | the status line is appended to the log; nothing else changes |
| Pdf.FileList.Add | app/src/main/java/com/joshiminh/cbzconverter/backend/ConversionFunctions.kt:687 | the path is appended to the list |
| Render.ExtractImageAndAddToPdfDocument | app/src/main/java/com/joshiminh/cbzconverter/backend/ConversionFunctions.kt:885-934 | the page of `Pdf.PageOf` is added when there is one, a failure is swallowed, and the WebP notice is logged exactly for an extracted WebP entry |
| Render.AddImages | app/src/main/java/com/joshiminh/cbzconverter/backend/ConversionFunctions.kt:627-636 | after the page loop the document holds the rendered pages of the entries and the log holds each image's progress line and notices, in order |
| Render.CreatePdfFromImageList | app/src/main/java/com/joshiminh/cbzconverter/backend/ConversionFunctions.kt:604-644 | the output file holds exactly the pages of the images that decode, in order, at the chosen compression level; only the log and that file change |
| Plan.ChunkPagesCover | app/src/main/java/com/joshiminh/cbzconverter/backend/ConversionFunctions.kt:594-599 | rendering the chunks one at a time and joining their pages gives the pages of the entries they cover, and all the chunks cover every entry |
| Plan.ApplyWritesSpec | app/src/main/java/com/joshiminh/cbzconverter/backend/ConversionFunctions.kt:664-702 | writing a list of files creates or replaces exactly their names, a later write of a name winning, and leaves every other file alone |
| Plan.BatchNameInjective | app/src/main/java/com/joshiminh/cbzconverter/backend/ConversionFunctions.kt:727 | different batch numbers give different cache file names |
| Plan.EitherArtifactsSpec | app/src/main/java/com/joshiminh/cbzconverter/backend/ConversionFunctions.kt:517-559 | no file for an empty archive; `ceil(total / maxPages)` parts named `_part-1` onwards, holding every page in order, for a longer archive; otherwise one file under the given name holding every page |
| Plan.LongSplitSpec | app/src/main/java/com/joshiminh/cbzconverter/backend/ConversionFunctions.kt:662-669 | the parts of an archive longer than `maxPages`: their count, their names and compression, and that together they hold every page in order |
| Plan.EitherPages | app/src/main/java/com/joshiminh/cbzconverter/backend/ConversionFunctions.kt:517-559 | whatever the split, the files of one archive hold its decodable entries in order |
| Plan.PartsCoverPages | app/src/main/java/com/joshiminh/cbzconverter/backend/ConversionFunctions.kt:662-704 | together the part files hold every page, in order |
| Merge.NamesInSnoc | app/src/main/java/com/joshiminh/cbzconverter/backend/ConversionFunctions.kt:831-839 | one more listed file adds its name to the names of its directory |
| Merge.NotYetDeleted | app/src/main/java/com/joshiminh/cbzconverter/backend/ConversionFunctions.kt:831-838 | a file not listed before position `k` has not been deleted when it is read |
| Merge.MergePdfFiles | app/src/main/java/com/joshiminh/cbzconverter/backend/ConversionFunctions.kt:812-844 | the output file receives the pages of every listed file in list order; each listed file is deleted once read; the list then holds only the output file; the earlier engine's merge (lines 358-378) is the same with default compression |
| Batches.BatchWritesAt | app/src/main/java/com/joshiminh/cbzconverter/backend/ConversionFunctions.kt:727-740 | batch file `k + 1` holds batch document `k` |
| Batches.BatchWritesElsewhere | app/src/main/java/com/joshiminh/cbzconverter/backend/ConversionFunctions.kt:727-740 | writing the batches changes no cache file outside the batch names |
| Batches.BatchWritesMinus | app/src/main/java/com/joshiminh/cbzconverter/backend/ConversionFunctions.kt:831-839 | deleting the batch files leaves the cache as before, minus those names |
| Batches.MergedBatches | app/src/main/java/com/joshiminh/cbzconverter/backend/ConversionFunctions.kt:749-754 | merging the first `m` batch files in order gives the pages of the first `m` batch documents |
| Batches.BatchDocsPages | app/src/main/java/com/joshiminh/cbzconverter/backend/ConversionFunctions.kt:724-740 | the batch documents hold the pages of the chunks, in order |
| Batches.BatchPathsDistinct | app/src/main/java/com/joshiminh/cbzconverter/backend/ConversionFunctions.kt:727 | the batch files have distinct paths |
| Batches.BatchedDoc | app/src/main/java/com/joshiminh/cbzconverter/backend/ConversionFunctions.kt:709-758 | merging all the batch files gives exactly the document rendered at once; deleting them gives back the cache without the batch names |
| Batches.WriteBatches | app/src/main/java/com/joshiminh/cbzconverter/backend/ConversionFunctions.kt:724-746 | batch `b` renders chunk `b` into cache file `temp_memory_batch_{b+1}.pdf` and lists it; the log gets each batch's lines |
| Batches.WriteBatch | app/src/main/java/com/joshiminh/cbzconverter/backend/ConversionFunctions.kt:727-745 | one batch: chunk `b` written to its cache file and listed |
| Batches.CreatePdfWithBatchProcessing | app/src/main/java/com/joshiminh/cbzconverter/backend/ConversionFunctions.kt:709-758 | the output file holds the same document as an unbatched rendering; the batch files are gone from the cache; the log gets the batch lines |
| Export.CreateSinglePdfFromCbz | app/src/main/java/com/joshiminh/cbzconverter/backend/ConversionFunctions.kt:763-806 | one file of all of the entries under the given name, batched when longer than `batchSize` with the same result, listed among the output files |
| Export.CreatePart | app/src/main/java/com/joshiminh/cbzconverter/backend/ConversionFunctions.kt:664-702 | part `i + 1` is chunk `i` under its part name, batched when longer than `batchSize`, written and listed |
| Export.CreateMultiplePdfFromCbz | app/src/main/java/com/joshiminh/cbzconverter/backend/ConversionFunctions.kt:649-704 | parts `1 .. ceil(total / maxPages)` are written and listed in order, the output directory ending as `Plan.ApplyWrites` of the parts |
| Export.PartTurn | app/src/main/java/com/joshiminh/cbzconverter/backend/ConversionFunctions.kt:664-702 | one part: the invariant after parts `1 .. i` becomes the invariant after parts `1 .. i + 1` |
| Export.PartsStep | app/src/main/java/com/joshiminh/cbzconverter/backend/ConversionFunctions.kt:664-702 | the output directory and list after one more part |
| Export.ExportOrdered | app/src/main/java/com/joshiminh/cbzconverter/backend/ConversionFunctions.kt:532-559 | a non-empty archive's ordered entries become parts when longer than `maxPages`, else one file |
| Export.CreatePdfEitherSingleOrMultiple | app/src/main/java/com/joshiminh/cbzconverter/backend/ConversionFunctions.kt:505-565 | an empty archive only reports "No images found" and yields nothing; otherwise the output directory becomes `Plan.ApplyWrites` of `Plan.EitherArtifacts` of the ordered entries, the batch files are swept, and the returned list holds the files written |
| Combine.AddedStep | app/src/main/java/com/joshiminh/cbzconverter/backend/ConversionFunctions.kt:483-490 | one more entry is decided against the stream written so far |
| Combine.AddedFresh | app/src/main/java/com/joshiminh/cbzconverter/backend/ConversionFunctions.kt:475-492 | with a fresh prefix, distinct names and copies that succeed, every entry is written in archive order under `pad9(index)_fileName_name`, with no error line |
| Combine.AddEntry | app/src/main/java/com/joshiminh/cbzconverter/backend/ConversionFunctions.kt:477-491 | `putNextEntry` under the unique name, then the copy; a refused or truncated entry is reported and skipped |
| Combine.AddEntriesToZip | app/src/main/java/com/joshiminh/cbzconverter/backend/ConversionFunctions.kt:457-500 | every entry of the source under its unique name in archive order; a refused or failing entry is reported and skipped; a source that cannot be copied reports "Could not copy" and adds nothing; an unreadable archive adds nothing silently; the earlier engine's copy (lines 151-195) behaves the same |
| Combine.MergedZipClean | app/src/main/java/com/joshiminh/cbzconverter/backend/ConversionFunctions.kt:130-174 | without failures the combined archive is the prefixed sources one after the other, and the only lines are one header per source |
| Combine.CleanSourceStep | app/src/main/java/com/joshiminh/cbzconverter/backend/ConversionFunctions.kt:473-492 | a clean source appends exactly its prefixed entries and its header line |
| Combine.MergedOrder | app/src/main/java/com/joshiminh/cbzconverter/backend/ConversionFunctions.kt:437-492 | merged in name order, the sources keep selection order and each source's pages are sorted by entry name; in offset order the sources' blocks follow one another unchanged |
| Convert.DefaultNames | app/src/main/java/com/joshiminh/cbzconverter/backend/ConversionFunctions.kt:42 | the default names are `output_0.pdf`, `output_1.pdf`, ..., one per selected file |
| Convert.ExportSource | app/src/main/java/com/joshiminh/cbzconverter/backend/ConversionFunctions.kt:98-122 | a file is copied to the cache and exported; one that cannot be opened is reported and skipped |
| Convert.EachStep | app/src/main/java/com/joshiminh/cbzconverter/backend/ConversionFunctions.kt:97-123 | one more file adds its files after those of the files before it |
| Convert.ExportNext | app/src/main/java/com/joshiminh/cbzconverter/backend/ConversionFunctions.kt:97-123 | one round of the loop: file `i` is exported after files `0 .. i-1` |
| Convert.ApplyEachFileAndCreatePdf | app/src/main/java/com/joshiminh/cbzconverter/backend/ConversionFunctions.kt:85-125 | every selected file is exported on its own, in selection order; the output directory ends as the writes of all their files |
| Convert.FillCombined | app/src/main/java/com/joshiminh/cbzconverter/backend/ConversionFunctions.kt:145-156 | source `i` is added to the combined archive under index `i` and its own output name |
| Convert.MergeFilesAndCreatePdf | app/src/main/java/com/joshiminh/cbzconverter/backend/ConversionFunctions.kt:130-174 | the selected files are combined into one archive, exported under the first output name |
| Convert.ConvertCbzToPdf | app/src/main/java/com/joshiminh/cbzconverter/backend/ConversionFunctions.kt:36-80 | an empty selection changes nothing and returns no file; otherwise the cache is cleared, the result lists the files written in order, and the output directory becomes the writes of `Convert.JobArtifacts`, which does not depend on the batch size |
| Epub.GetFileExtensionSpec | app/src/main/java/com/joshiminh/cbzconverter/backend/ConversionFunctions.kt:421-424 | the extension is "" exactly when the name has no '.', otherwise the name's end from its last '.' |
| Epub.MimeTypeSpec | app/src/main/java/com/joshiminh/cbzconverter/backend/ConversionFunctions.kt:426-432 | the media type ignores letter case, is an image type exactly for the five known extensions, and is `image/jpeg` exactly for ".jpg" and ".jpeg" |
| Epub.GetFileExtension | app/src/main/java/com/joshiminh/cbzconverter/backend/ConversionFunctions.kt:421-424 | the extension is no longer than the name and is empty or starts with '.' |
| Epub.GetMimeType | app/src/main/java/com/joshiminh/cbzconverter/backend/ConversionFunctions.kt:426-432 | the media type is one of image/jpeg, image/png, image/gif, image/webp and application/octet-stream |
| Epub.ImageNameInjective | app/src/main/java/com/joshiminh/cbzconverter/backend/ConversionFunctions.kt:359-360 | an image name gives back its page index and its extension |
| Epub.PageNameInjective | app/src/main/java/com/joshiminh/cbzconverter/backend/ConversionFunctions.kt:361 | a page name gives back its page index |
| Epub.PathOfInjective | app/src/main/java/com/joshiminh/cbzconverter/backend/ConversionFunctions.kt:318-419 | different places in the container have different entry names |
| Epub.EpubLayoutSpec | app/src/main/java/com/joshiminh/cbzconverter/backend/ConversionFunctions.kt:318-419 | the container holds `2n + 7` entries: `mimetype` first, stored, with the declared size and CRC of "application/epub+zip"; then the fixed folders and `container.xml`; image `i` at `5 + 2i` and its page at `6 + 2i`; then the package and the table of contents (section 3.3 of EPUB Open Container Format 3.0.1) |
| Epub.EntryPathsDistinct | app/src/main/java/com/joshiminh/cbzconverter/backend/ConversionFunctions.kt:318-419 | no two entries of the container share a name |
| Epub.PackageSpec | app/src/main/java/com/joshiminh/cbzconverter/backend/ConversionFunctions.kt:376-404 | the manifest lists `2n` items plus the table of contents at the paths where the container stores them, images typed by their extension; the spine lists the pages in order; navigation point `i` leads to page `i` with play order `i + 1` |
| Epub.ManifestAt | app/src/main/java/com/joshiminh/cbzconverter/backend/ConversionFunctions.kt:376-377 | manifest positions `2i` and `2i + 1` are image `i` and its page |
| Epub.SpineAt | app/src/main/java/com/joshiminh/cbzconverter/backend/ConversionFunctions.kt:378 | spine item `i` is page `i`'s id |
| Epub.NavPointsAt | app/src/main/java/com/joshiminh/cbzconverter/backend/ConversionFunctions.kt:399-403 | navigation point `i` names page `i` |
| Epub.EpubStream.Put | app/src/main/java/com/joshiminh/cbzconverter/backend/ConversionFunctions.kt:332 | the entry is appended to the stream |
| Epub.WritePages | app/src/main/java/com/joshiminh/cbzconverter/backend/ConversionFunctions.kt:353-379 | for each image: a status line, the image's entry and its page's entry; the manifest and spine items collected are those of `Epub.ManifestOf` and `Epub.SpineOf` |
| Epub.CreateEpubFromImageList | app/src/main/java/com/joshiminh/cbzconverter/backend/ConversionFunctions.kt:318-419 | the entries written are exactly `Epub.EpubLayout` of the images; one status line per page; no PDF file changes |
| Epub.NonDirectoriesAppend | app/src/main/java/com/joshiminh/cbzconverter/backend/ConversionFunctions.kt:302 | the directory filter keeps the order |
| Epub.NonDirectories | app/src/main/java/com/joshiminh/cbzconverter/backend/ConversionFunctions.kt:302 | the filter keeps exactly the non-directory entries |
| Epub.CreateEpubFromCbz | app/src/main/java/com/joshiminh/cbzconverter/backend/ConversionFunctions.kt:289-316 | the ordered entries, less the directories, are packed into the container, which is listed among the output files |
| DisplayName.NulToSpace | app/src/main/java/com/joshiminh/cbzconverter/backend/ContextHelper.kt:48 | every NUL becomes a space and nothing else changes |
| DisplayName.StripNoise | app/src/main/java/com/joshiminh/cbzconverter/backend/ContextHelper.kt:48 | no NUL is left |
| DisplayName.LastPathishSegment | app/src/main/java/com/joshiminh/cbzconverter/backend/ContextHelper.kt:50-51 | no '/' and no ':' is left; `DisplayName.LastPathishSegmentSpec` says which text is kept |
| DisplayName.LastPathishSegmentSpec | app/src/main/java/com/joshiminh/cbzconverter/backend/ContextHelper.kt:50-51 | the result is a suffix of the input that is all of it or starts right after a '/' or a ':'; with no '/' or ':' in it, it is the text after the last '/', cut again after the last ':' |
| DisplayName.TrimQueryAndFrag | app/src/main/java/com/joshiminh/cbzconverter/backend/ContextHelper.kt:53-54 | no '?' and no '#' is left; `DisplayName.TrimQueryAndFragSpec` says which text is kept |
| DisplayName.TrimQueryAndFragSpec | app/src/main/java/com/joshiminh/cbzconverter/backend/ContextHelper.kt:53-54 | the result is a prefix of the input that is all of it or ends right before a '?' or a '#'; with no '?' or '#' in it, it is the text before the first '?', cut again before the first '#' |
| DisplayName.PathSegmentExample | app/src/test/java/com/joshiminh/cbzconverter/backend/ContextHelperTest.kt:35-42 | the test's tree path "/tree/primary:Download/MyComic.pdf" is cut to "MyComic.pdf", which has no query or fragment to trim |
| DisplayName.TrimQuotes | app/src/main/java/com/joshiminh/cbzconverter/backend/ContextHelper.kt:56 | the result neither starts nor ends with a quote |
| DisplayName.TrimQuotesKeepsOut | app/src/main/java/com/joshiminh/cbzconverter/backend/ContextHelper.kt:56 | unquoting and trimming bring in no new character |
| DisplayName.Clean | app/src/main/java/com/joshiminh/cbzconverter/backend/ContextHelper.kt:34-39 | a cleaned candidate holds none of the separators '/', ':', '?', '#' |
| DisplayName.DropTrailingNumber | app/src/main/java/com/joshiminh/cbzconverter/backend/ContextHelper.kt:62 | the regex never lengthens the name and leaves a name that does not end in a digit unchanged |
| DisplayName.RawCandidates | app/src/main/java/com/joshiminh/cbzconverter/backend/ContextHelper.kt:22-34 | there is always at least one candidate, and the last is the decoded uri string |
| DisplayName.CleanAll | app/src/main/java/com/joshiminh/cbzconverter/backend/ContextHelper.kt:35-40 | every kept candidate is non-blank and free of separators |
| DisplayName.FirstWhere | app/src/main/java/com/joshiminh/cbzconverter/backend/ContextHelper.kt:42 | `firstOrNull` finds an element satisfying the test with none before it, or none exactly when no element does |
| DisplayName.GetFileName | app/src/main/java/com/joshiminh/cbzconverter/backend/ContextHelper.kt:21-43 | the result is "Unknown" or a non-blank, meaningful name with no '/', ':', '?' or '#' |
| DisplayName.GetFileNameFirst | app/src/main/java/com/joshiminh/cbzconverter/backend/ContextHelper.kt:21-43 | the fallback is taken when no cleaned candidate is meaningful, and otherwise the first meaningful candidate is the result |
| DisplayName.StemBase | app/src/main/java/com/joshiminh/cbzconverter/backend/ContextHelper.kt:59-63 | the base `isMeaningful` tests for a plain `stem.ext` is the stem |
| DisplayName.MeaningBase | app/src/main/java/com/joshiminh/cbzconverter/backend/ContextHelper.kt:59-63 | the base `isMeaningful` tests (lower case, no extension, no copy counter or trailing number, trimmed) is never longer than the name; `DisplayName.StemBase` gives it for `stem.ext` |
| DisplayName.IsMeaningful | app/src/main/java/com/joshiminh/cbzconverter/backend/ContextHelper.kt:58-68 | an empty name is never meaningful; `DisplayName.DocumentIsPlaceholder`, `DisplayName.MyComicIsMeaningful` and `DisplayName.UnknownIsMeaningful` pin down the placeholder test |
| DisplayName.DocumentIsPlaceholder | app/src/test/java/com/joshiminh/cbzconverter/backend/ContextHelperTest.kt:17-44 | "document.pdf" is not meaningful |
| DisplayName.MyComicIsMeaningful | app/src/test/java/com/joshiminh/cbzconverter/backend/ContextHelperTest.kt:42 | "MyComic.pdf" is meaningful |
| DisplayName.UnknownIsMeaningful | app/src/main/java/com/joshiminh/cbzconverter/backend/ContextHelper.kt:66 | "unknown.pdf" counts as meaningful, since "unknown" is not in this list |
| Chapters.RunEnd | app/src/main/java/com/joshiminh/cbzconverter/backend/MainViewModel.kt:397 | the greedy digit run from a position ends at a non-digit or at the end |
| Chapters.MatchEnd | app/src/main/java/com/joshiminh/cbzconverter/backend/MainViewModel.kt:397 | what the engine reports at a position is a match of the whole pattern |
| Chapters.MatchEndComplete | app/src/main/java/com/joshiminh/cbzconverter/backend/MainViewModel.kt:397 | whatever the pattern can match at a position, the engine finds |
| Chapters.FindFrom | app/src/main/java/com/joshiminh/cbzconverter/backend/MainViewModel.kt:397 | `find` reports the first start position at which the pattern matches, and none exactly when there is no match |
| Chapters.ExtractChapterNumber | app/src/main/java/com/joshiminh/cbzconverter/backend/MainViewModel.kt:396-399 | a chapter number is non-empty and starts and ends with a digit |
| Chapters.ParseChapter | app/src/main/java/com/joshiminh/cbzconverter/backend/MainViewModel.kt:480 | a text has a numeric value only if it starts and ends with a digit, and a digit string has its own decimal value; `Chapters.ShapeParses` covers the `d.f` and `d,f` forms |
| Chapters.ChapterIffDigit | app/src/main/java/com/joshiminh/cbzconverter/backend/MainViewModel.kt:396-399 | there is a chapter number exactly when the name holds a digit |
| Chapters.ChapterLeftmost | app/src/main/java/com/joshiminh/cbzconverter/backend/MainViewModel.kt:396-399 | every match starts no earlier than the reported one and ends where it ends, after the name's last digit |
| Chapters.ChapterExample | app/src/main/java/com/joshiminh/cbzconverter/backend/MainViewModel.kt:396-399 | "Ch 12.5" gives chapter "12.5" |
| Chapters.ChapterParses | app/src/main/java/com/joshiminh/cbzconverter/backend/MainViewModel.kt:480 | every chapter number the pattern extracts has a numeric value |
| Chapters.ShapeParses | app/src/main/java/com/joshiminh/cbzconverter/backend/MainViewModel.kt:480 | a text `\d+` or `\d+[.,]\d+` has a numeric value |
| Chapters.SeparatedShape | app/src/main/java/com/joshiminh/cbzconverter/backend/MainViewModel.kt:480 | a text `\d+[.,]\d+` has its separator as the first '.' or ',' and digits on both sides |
| Chapters.IndexOfSep | app/src/main/java/com/joshiminh/cbzconverter/backend/MainViewModel.kt:480 | the index of the first '.' or ',', or none exactly when there is none |
| Chapters.FirstMin | app/src/main/java/com/joshiminh/cbzconverter/backend/MainViewModel.kt:484 | `minByOrNull`: no value is below the chosen one and every earlier one is above it |
| Chapters.FirstMax | app/src/main/java/com/joshiminh/cbzconverter/backend/MainViewModel.kt:485 | `maxByOrNull`: no value is above the chosen one and every earlier one is below it |
| Naming.PlaceholderWithExtension | app/src/main/java/com/joshiminh/cbzconverter/backend/MainViewModel.kt:518-526 | a name whose lower-cased stem is one of the five placeholders is a placeholder |
| Naming.PlaceholderBare | app/src/main/java/com/joshiminh/cbzconverter/backend/MainViewModel.kt:518-526 | a dot-free name whose lower case is a placeholder is one |
| Naming.PlaceholderNotMeaningful | app/src/main/java/com/joshiminh/cbzconverter/backend/MainViewModel.kt:518-526 | a view-model placeholder other than "unknown" is never meaningful to the display-name lookup |
| Naming.IsPlaceholderName | app/src/main/java/com/joshiminh/cbzconverter/backend/MainViewModel.kt:518-526 | a placeholder name has at least the four characters of the shortest placeholder; `Naming.PlaceholderWithExtension` and `Naming.PlaceholderBare` give the positive cases |
| Naming.FallbackIsPlaceholder | app/src/main/java/com/joshiminh/cbzconverter/backend/MainViewModel.kt:524-525 | the fallback "Unknown" is a placeholder |
| Naming.NotPlaceholderByLength | app/src/main/java/com/joshiminh/cbzconverter/backend/MainViewModel.kt:524-525 | a plain dot-free name of nine or more characters is no placeholder |
| Naming.BaseNoExt | app/src/main/java/com/joshiminh/cbzconverter/backend/MainViewModel.kt:404 | dropping the extension never lengthens the name |
| Naming.BaseOrUnknown | app/src/main/java/com/joshiminh/cbzconverter/backend/MainViewModel.kt:455-456 | the base name, unless it is a placeholder, else "Unknown" |
| Naming.ResolvedParent | app/src/main/java/com/joshiminh/cbzconverter/backend/MainViewModel.kt:409-420 | outside Mihon mode: the parent folder when it is no placeholder, else the base name unless it is one, else "Unknown" |
| Naming.MangaName | app/src/main/java/com/joshiminh/cbzconverter/backend/MainViewModel.kt:444-458 | the Mihon parent first, else the parent folder unfiltered, else the base name when it is no placeholder, else "Unknown" |
| Naming.ChapterOf | app/src/main/java/com/joshiminh/cbzconverter/backend/MainViewModel.kt:460-464 | no chapter is looked for outside chapter mode |
| Naming.DefaultNames | app/src/main/java/com/joshiminh/cbzconverter/backend/MainViewModel.kt:466-474 | one default name per file: the manga name, its suffix and ".pdf" |
| Naming.ChapterPairs | app/src/main/java/com/joshiminh/cbzconverter/backend/MainViewModel.kt:479-482 | at most one chapter pair per file |
| Naming.MihonNames | app/src/main/java/com/joshiminh/cbzconverter/backend/MainViewModel.kt:443-499 | Mihon mode gives one name per file; only merging an empty selection fails, where `first()` throws |
| Naming.ApplyOverride | app/src/main/java/com/joshiminh/cbzconverter/backend/MainViewModel.kt:501-515 | the override keeps the number of names |
| Naming.GetPdfFileNames | app/src/main/java/com/joshiminh/cbzconverter/backend/MainViewModel.kt:401-516 | one name per file, failing only where the code throws |
| Naming.NamesArePdf | app/src/main/java/com/joshiminh/cbzconverter/backend/MainViewModel.kt:401-516 | every proposed name ends in ".pdf" |
| Naming.DefaultModeNamed | app/src/main/java/com/joshiminh/cbzconverter/backend/MainViewModel.kt:408-441 | outside Mihon mode and without an override, file `i` is named after its resolved parent, never after a placeholder other than "Unknown" |
| Naming.DefaultModeList | app/src/main/java/com/joshiminh/cbzconverter/backend/MainViewModel.kt:423-440 | without an override, outside Mihon mode, the names are the resolved parents plus ".pdf" |
| Naming.OverrideNamesDistinct | app/src/main/java/com/joshiminh/cbzconverter/backend/MainViewModel.kt:507-513 | without merging, override names are `override_(i+1).pdf` and never collide |
| Naming.OverrideMergeNames | app/src/main/java/com/joshiminh/cbzconverter/backend/MainViewModel.kt:502-506 | with an override and merging, the first name is the override and the rest are the default names |
| Naming.NoOverrideKeeps | app/src/main/java/com/joshiminh/cbzconverter/backend/MainViewModel.kt:514 | without an override the default names are kept |
| Naming.MergedRange | app/src/main/java/com/joshiminh/cbzconverter/backend/MainViewModel.kt:475-499 | merging chapter files of one parent names the job after the first manga and the lowest and highest chapter by numeric value |
| Naming.RangeSuffix | app/src/main/java/com/joshiminh/cbzconverter/backend/MainViewModel.kt:478-491 | the suffix is empty exactly when no chapter is numeric, and otherwise starts with "_" |
| Naming.MergedName | app/src/main/java/com/joshiminh/cbzconverter/backend/MainViewModel.kt:475-499 | the merged name starts with the first file's manga name and ends in ".pdf"; without chapter mode or numeric chapters it is exactly that name plus ".pdf" |
| Naming.TwoFilesNamedAfterParents | app/src/test/java/com/joshiminh/cbzconverter/backend/MainViewModelTest.kt:17-43 | two files in non-placeholder folders are named after those folders |
| Naming.ParentFallbackExample | app/src/test/java/com/joshiminh/cbzconverter/backend/MainViewModelTest.kt:17-43 | files in "ParentOne" and "ParentTwo" become "ParentOne.pdf" and "ParentTwo.pdf" |
| Naming.LoneFileNamedUnknown | app/src/test/java/com/joshiminh/cbzconverter/backend/MainViewModelTest.kt:86-113 | a lone file whose folder and base name are both placeholders becomes "Unknown.pdf" |
| Naming.DocumentFolderExample | app/src/test/java/com/joshiminh/cbzconverter/backend/MainViewModelTest.kt:86-113 | "document.pdf" in a folder "document" becomes "Unknown.pdf" |
| Naming.MihonDocumentFolderExample | app/src/main/java/com/joshiminh/cbzconverter/backend/MainViewModel.kt:443-458 | in Mihon mode the folder name is taken unfiltered: a file in a folder "document" becomes "document.pdf" |
| Conflicts.SplitExt | app/src/main/java/com/joshiminh/cbzconverter/backend/MainViewModel.kt:532-534 | the stem and the extension put together give back the name |
| Conflicts.CandidateInjective | app/src/main/java/com/joshiminh/cbzconverter/backend/MainViewModel.kt:537 | different attempts propose different names |
| Conflicts.TakenBound | app/src/main/java/com/joshiminh/cbzconverter/backend/MainViewModel.kt:536-539 | the loop stops: each taken attempt uses up a name of the finite set |
| Conflicts.LeastFreeUnique | app/src/main/java/com/joshiminh/cbzconverter/backend/MainViewModel.kt:536-539 | the least free name is unique |
| Conflicts.FreeName | app/src/main/java/com/joshiminh/cbzconverter/backend/MainViewModel.kt:530-539 | the name itself when free, else the least version `k >= 1` whose `stem k.ext` is free |
| Conflicts.ResolveFileNameConflicts | app/src/main/java/com/joshiminh/cbzconverter/backend/MainViewModel.kt:528-543 | one result per name, each the least free version given the listing and the earlier results |
| Conflicts.ResolutionDistinct | app/src/main/java/com/joshiminh/cbzconverter/backend/MainViewModel.kt:528-543 | the results are pairwise distinct and none of them is already in the listing |
| Conflicts.ResolutionKeepsFree | app/src/main/java/com/joshiminh/cbzconverter/backend/MainViewModel.kt:528-543 | a name free in the listing and among earlier results is kept unchanged |
| Conflicts.ParentExample | app/src/test/java/com/joshiminh/cbzconverter/backend/MainViewModelTest.kt:46-83 | two "Parent.pdf" names in an empty folder become "Parent.pdf" and "Parent 1.pdf" |
| ViewModel.AndroidNames | app/src/main/java/com/joshiminh/cbzconverter/backend/MainViewModel.kt:567 | every uri's name is `getFileName` over what Android reports for it |
| ViewModel.FileName | app/src/main/java/com/joshiminh/cbzconverter/backend/MainViewModel.kt:567 | a file name is "Unknown" or non-blank |
| ViewModel.PositiveInput | app/src/main/java/com/joshiminh/cbzconverter/backend/MainViewModel.kt:147 | the trimmed input parsed as a positive 32-bit value, else nothing |
| ViewModel.PositiveInputRoundTrip | app/src/main/java/com/joshiminh/cbzconverter/backend/MainViewModel.kt:146-166 | a number typed with blank padding is read back when positive and refused otherwise |
| ViewModel.SettingFromInput | app/src/main/java/com/joshiminh/cbzconverter/backend/MainViewModel.kt:146-166 | the stored setting is the valid input, else the default, and is always positive |
| ViewModel.OverrideFromInput | app/src/main/java/com/joshiminh/cbzconverter/backend/MainViewModel.kt:168-176 | "" exactly for blank input, else the trimmed text |
| ViewModel.OverrideFromInputIdempotent | app/src/main/java/com/joshiminh/cbzconverter/backend/MainViewModel.kt:168-176 | storing an override a second time changes nothing |
| ViewModel.RemoveFirst | app/src/main/java/com/joshiminh/cbzconverter/backend/MainViewModel.kt:208 | `remove` drops one occurrence when present and changes nothing otherwise |
| ViewModel.RemoveFirstSplit | app/src/main/java/com/joshiminh/cbzconverter/backend/MainViewModel.kt:208 | exactly the first occurrence is removed, the rest keep their order |
| ViewModel.Toggled | app/src/main/java/com/joshiminh/cbzconverter/backend/MainViewModel.kt:206-210 | toggling removes the uri if present and adds it otherwise |
| ViewModel.ToggledFlips | app/src/main/java/com/joshiminh/cbzconverter/backend/MainViewModel.kt:206-210 | on a list without repeats, toggling flips the uri's membership, appends at the end, keeps the others in order and leaves no repeat |
| ViewModel.ToggledTwice | app/src/main/java/com/joshiminh/cbzconverter/backend/MainViewModel.kt:206-210 | toggling an absent uri twice restores the list |
| ViewModel.SameParent | app/src/main/java/com/joshiminh/cbzconverter/backend/MainViewModel.kt:212-220 | true for at most one file, else exactly when all parents equal the first one's, which is all parents pairwise equal |
| ViewModel.JoinLinesBlank | app/src/main/java/com/joshiminh/cbzconverter/backend/MainViewModel.kt:192 | the joined names are blank exactly when every name is |
| ViewModel.StackedAppend | app/src/main/java/com/joshiminh/cbzconverter/backend/MainViewModel.kt:377-382 | stacking two batches of lines is stacking the second on top of the first |
| ViewModel.StackedKeepsBase | app/src/main/java/com/joshiminh/cbzconverter/backend/MainViewModel.kt:377-382 | stacking keeps the earlier sub-status at the bottom and adds at least one character per line |
| ViewModel.SelectionNameBlank | app/src/main/java/com/joshiminh/cbzconverter/backend/MainViewModel.kt:192 | the joined display names of a selection are blank exactly when nothing is selected |
| ViewModel.MainViewModel.constructor | app/src/main/java/com/joshiminh/cbzconverter/backend/MainViewModel.kt:36-60 | the initial state: "Idle" status lines, 10000 pages, batches of 200, every flag off, nothing selected, not converting |
| ViewModel.MainViewModel.ToggleOverrideSortOrderToUseOffset | app/src/main/java/com/joshiminh/cbzconverter/backend/MainViewModel.kt:112-114 | the flag takes the value |
| ViewModel.MainViewModel.ToggleMergeFilesOverride | app/src/main/java/com/joshiminh/cbzconverter/backend/MainViewModel.kt:116-118 | the flag takes the value |
| ViewModel.MainViewModel.ToggleCompressOutputPdf | app/src/main/java/com/joshiminh/cbzconverter/backend/MainViewModel.kt:120-122 | the flag takes the value |
| ViewModel.MainViewModel.ToggleAutoNameWithChapters | app/src/main/java/com/joshiminh/cbzconverter/backend/MainViewModel.kt:124-126 | the flag takes the value |
| ViewModel.MainViewModel.SetTask | app/src/main/java/com/joshiminh/cbzconverter/backend/MainViewModel.kt:365-367 | the status line is replaced |
| ViewModel.MainViewModel.AppendTask | app/src/main/java/com/joshiminh/cbzconverter/backend/MainViewModel.kt:369-371 | the newest message goes on top of the status text |
| ViewModel.MainViewModel.SetSubTask | app/src/main/java/com/joshiminh/cbzconverter/backend/MainViewModel.kt:373-375 | the sub-status line is replaced |
| ViewModel.MainViewModel.AppendSubTask | app/src/main/java/com/joshiminh/cbzconverter/backend/MainViewModel.kt:377-382 | the newest sub-step line goes on top of the sub-status text |
| ViewModel.MainViewModel.AppendSubTasks | app/src/main/java/com/joshiminh/cbzconverter/backend/MainViewModel.kt:296-300 | every line sent to `subStepStatusAction` is put on top in turn: the sub-status becomes those lines, newest first, over the earlier text |
| ViewModel.MainViewModel.ConvertWithSubTasks | app/src/main/java/com/joshiminh/cbzconverter/backend/MainViewModel.kt:293-309 | `convertCbzToPdf`'s files and log as `Convert.ConvertCbzToPdf` states them, with the sub-status holding the job's lines stacked newest first; nothing changes for an empty selection |
| ViewModel.MainViewModel.UpdateMaxNumberOfPagesSizeFromUserInput | app/src/main/java/com/joshiminh/cbzconverter/backend/MainViewModel.kt:146-155 | the page limit becomes the valid input or 10000, stays positive, and the message is put on top |
| ViewModel.MainViewModel.UpdateBatchSizeFromUserInput | app/src/main/java/com/joshiminh/cbzconverter/backend/MainViewModel.kt:157-166 | the batch size becomes the valid input or 200, stays positive, and the message is put on top |
| ViewModel.MainViewModel.UpdateOverrideFileNameFromUserInput | app/src/main/java/com/joshiminh/cbzconverter/backend/MainViewModel.kt:168-176 | the override becomes "" or the trimmed input, with its message on top |
| ViewModel.MainViewModel.UpdateSelectedFileNameFromUserInput | app/src/main/java/com/joshiminh/cbzconverter/backend/MainViewModel.kt:384-394 | blank names clear the selected name and leave the override; new names are stored and clear the override |
| ViewModel.MainViewModel.UpdateSelectedFileUrisFromUserInput | app/src/main/java/com/joshiminh/cbzconverter/backend/MainViewModel.kt:188-204 | the selection is replaced and its names shown, and the merge flag survives only when all selected files share one parent |
| ViewModel.MainViewModel.ToggleFileSelection | app/src/main/java/com/joshiminh/cbzconverter/backend/MainViewModel.kt:206-210 | the selection becomes the toggled list, with the same merge-flag rule |
| ViewModel.MainViewModel.ConvertToPdf | app/src/main/java/com/joshiminh/cbzconverter/backend/MainViewModel.kt:268-281 | a merge over files of different parents is switched off with its message; a job is launched exactly when none is running |
| ViewModel.MainViewModel.RunConversion | app/src/main/java/com/joshiminh/cbzconverter/backend/MainViewModel.kt:282-322 | the names are proposed, resolved against the folder listing and converted; a failure to name ends in a "Failed" line with nothing written and the sub-status untouched; otherwise the state of `Converted`; `converting` ends false |
| ViewModel.MainViewModel.ConvertNamed | app/src/main/java/com/joshiminh/cbzconverter/backend/MainViewModel.kt:284-322 | the names resolved against the listing; the output directory, cache and log as `Convert.ConvertCbzToPdf` leaves them; the sub-status cleared and then holding every line of the job, newest first; the status "Converting..." with the result reported on top |
| ViewModel.MainViewModel.ReportResult | app/src/main/java/com/joshiminh/cbzconverter/backend/MainViewModel.kt:325-339 | a "Failed" line for an empty result; otherwise the saved file or count, then "Completed" |
| Legacy.LegacyPagesAsStored | app/src/main/java/com/puchunguita/cbzconverter/ConversionFunctions.kt:385-416 | without the WebP branch every page keeps its stored encoding |
| Legacy.SamePagesWithoutWebp | app/src/main/java/com/puchunguita/cbzconverter/ConversionFunctions.kt:385-416 | on archives without WebP entries both engines render the same pages |
| Legacy.AddImages | app/src/main/java/com/puchunguita/cbzconverter/ConversionFunctions.kt:288-296 | a progress line before each image and a page for each one that decodes; a failing image is only skipped |
| Legacy.InlineRange | app/src/main/java/com/puchunguita/cbzconverter/ConversionFunctions.kt:278-282 | the inline range of part `i` is `[i*max, min((i+1)*max, total))`, the chunk `calculateRange` gives |
| Legacy.WritePart | app/src/main/java/com/puchunguita/cbzconverter/ConversionFunctions.kt:276-300 | part `i + 1` is written and listed, its progress lines counting the global image index `i*max + k + 1` |
| Legacy.CreateMultiplePdfFromCbz | app/src/main/java/com/puchunguita/cbzconverter/ConversionFunctions.kt:262-302 | parts `1 .. ceil(total / size)` are written to the directory in order, each listed as it is written |
| Legacy.LegacyPartsPages | app/src/main/java/com/puchunguita/cbzconverter/ConversionFunctions.kt:275-282 | the parts hold the pages of the entries their chunks cover |
| Legacy.PartsCoverPages | app/src/main/java/com/puchunguita/cbzconverter/ConversionFunctions.kt:275-282 | together the parts hold every page of the archive, in order |
| Legacy.PartNameInjective | app/src/main/java/com/puchunguita/cbzconverter/ConversionFunctions.kt:276 | a name holding ".pdf" gives a different part name for each part number |
| Legacy.PartNamesDistinct | app/src/main/java/com/puchunguita/cbzconverter/ConversionFunctions.kt:276 | the part names are pairwise distinct |
| Legacy.MergedParts | app/src/main/java/com/puchunguita/cbzconverter/ConversionFunctions.kt:365-374 | merging part files written under distinct names reads back their pages in order |
| Legacy.MergedAfterParts | app/src/main/java/com/puchunguita/cbzconverter/ConversionFunctions.kt:318-331 | the merged file holds the listed files' pages and then every page of the archive |
| Legacy.BatchThenMerge | app/src/main/java/com/puchunguita/cbzconverter/ConversionFunctions.kt:318-332 | past 300 images: the parts are written to the cache and appended to the list, then everything listed is merged into the output file |
| Legacy.SharedEmptyList | app/src/main/java/com/puchunguita/cbzconverter/ConversionFunctions.kt:318-332 | with nothing listed before, the batched file is the file of all the pages |
| Legacy.WriteSingle | app/src/main/java/com/puchunguita/cbzconverter/ConversionFunctions.kt:335-355 | one file of all the images, listed |
| Legacy.CreateSinglePdfFromCbz | app/src/main/java/com/puchunguita/cbzconverter/ConversionFunctions.kt:304-356 | as written: past 300 images the caller's whole list is merged into the output file |
| Legacy.SharedListSwallowsEarlierFile | app/src/main/java/com/puchunguita/cbzconverter/ConversionFunctions.kt:318-332 | as written, a batched file exported after another was listed absorbs and deletes that earlier file |
| Legacy.CreateSinglePdfFromCbzOwnList | app/src/main/java/com/joshiminh/cbzconverter/backend/ConversionFunctions.kt:763-806 | as intended: the batch parts use a list of their own, so the file holds exactly the archive's pages and earlier files survive |
| Legacy.LegacyArtifactsSpec | app/src/main/java/com/puchunguita/cbzconverter/ConversionFunctions.kt:210-240 | nothing for an empty archive; `ceil(total / maxPages)` parts holding every page in order when longer; else one file of every page; these are what the earlier engine writes when nothing was listed before (`Legacy.LegacyOutputEmptyList`) |
| Legacy.SameArtifactsWithoutWebp | app/src/main/java/com/puchunguita/cbzconverter/ConversionFunctions.kt:197-246 | on archives without WebP entries the earlier engine writes what the current one writes without compression, when nothing was listed before (`Legacy.LegacyOutputEmptyList`) |
| Legacy.LegacyOutputEmptyList | app/src/main/java/com/puchunguita/cbzconverter/ConversionFunctions.kt:217-240 | with nothing listed before, the output directory and the list are exactly the writes and the files of `LegacyArtifacts`, batched single file included |
| Legacy.SharedOutputSpec | app/src/main/java/com/puchunguita/cbzconverter/ConversionFunctions.kt:230-239 | a single file of 301 to `maxPages` images deletes every file listed before, holds their pages followed by the archive's, and leaves every other file alone |
| Legacy.ExportOrdered | app/src/main/java/com/puchunguita/cbzconverter/ConversionFunctions.kt:217-240 | as written: the ordered entries go out as parts, as one file, or, for 301 to `maxPages` images, as one file merged with everything on the caller's shared list, which is deleted; the list becomes that file alone |
| Legacy.CreatePdfEitherSingleOrMultiple | app/src/main/java/com/puchunguita/cbzconverter/ConversionFunctions.kt:197-246 | an empty archive reports "No images found" and yields an empty list; otherwise the ordered entries are exported as `Legacy.ExportOrdered` states, through the caller's shared list, and that list is returned |

## Left out

- **I/O.** Streams, the ZIP reader and writer, the PDF library (iText), bitmap decoding and JPEG encoding are left out. Rendering one entry is the `decode` oracle. Copying one entry's bytes into the combined archive is the `copy` oracle. Opening a selected file is a `Combine.Source` given as input.
- **Temporary non-PDF files.** `temp.cbz`, `combined_temp.cbz`, `temp_image` and the WebP intermediate are not files of the model. `Convert.ConvertCbzToPdf` clears the cache at the start, as `deleteRecursively` does.
- **Byte-level contents.** CRC32, byte counts and the exact XML text of `container.xml`, `content.opf`, `toc.ncx` and the page documents are not modelled. The timestamp in the package identifier is left out too. The EPUB entries are modelled structurally: each place, its storage method, its declared size and CRC target, and the items it lists.
- **Page geometry.** Page size, margins and image scaling are floating point; a page records only the image's width and height.
- **Concurrency.** Coroutines, dispatchers and the `StateFlow` threading are left out. The check-then-launch guard of `convertToPDF` is modelled sequentially. Each sub-step line is posted to the main thread by its own `launch`; the model delivers them in the order they are sent, all before the job ends.
- **Android lookups.** The display-name lookups are inputs of `ViewModel.Device`: content resolver, `DocumentFile`, parent folder, Mihon parent map and folder listing.
- **Permissions and preferences.** `updateMihonDirectoryUri`, `refreshMihonManga`, the permission actions and `getOutputFolder` are left out: persistence, permissions and the background directory walk.
- **`URLDecoder.decode`** is the `decode` parameter of `DisplayName.GetFileName`. Its failure fallback is part of that parameter.
- **Character handling.** `lowercase()` is modelled on ASCII letters only. Regex `$` is taken as end of text; the final line terminator it also accepts is ignored. Strings are sequences of Unicode scalar values, not of UTF-16 code units.
- Strings.LexLe: compares code points, while Kotlin's `compareTo` compares UTF-16 code units. So `Archive.SortByName` and `Archive.OrderEntries` can order a name with a character above U+FFFF differently from one with a character in U+E000 to U+FFFF.
- Strings.ParseInt: accepts ASCII digits only. `toIntOrNull` goes through `Character.digit` and also reads other decimal digits, such as fullwidth ones, so on such input the model falls back to the default size where the source takes the number.
- Chapters.ExtractChapterNumber: the look-ahead `(?!.*\d)` is modelled as "no digit in the rest of the name". Java's `.` stops at a line terminator, so for a name with a line break the source can match a number before the break.
- Partition.CalculateRange: computes on unbounded integers, while the source's `Int` products can wrap. `Partition.CalculateRangeNoOverflow` shows they do not for archives of at most 2^30 entries.
- **Page-less documents.** `Pdf.PdfDoc`, `Pdf.RenderPages`, `Render.CreatePdfFromImageList` and `Batches.BatchedDoc` treat a document to which no page was added as a file with zero pages. This happens when every entry of an archive, part or batch fails to decode. What the PDF library does when such a document is closed (an exception, or a blank page, depending on its version) is not part of this model. So `Batches.BatchedDoc`'s equality of pages does not cover a batch whose entries all fail.
- **Chapter values.** `toDoubleOrNull` on chapter numbers is modelled as exact decimal comparison of the digit strings. Double rounding of very long numerals is not modelled.
- **Ceiling division.** `ceil(total.toDouble() / size)` is integer ceiling division, which is exact for `Int` operands.
- **Positive sizes.** `Convert.ConvertCbzToPdf`, `Export.CreatePdfEitherSingleOrMultiple` and `Legacy.CreatePdfEitherSingleOrMultiple` require `maxPages > 0` and `batchSize > 0`. For zero, the source computes `ceil` of an infinite or NaN quotient, and the view model never passes a value that is not positive.
- **EPUB orchestration.** `convertCbzToEpub` with its apply-each and merge variants (app/src/main/java/com/joshiminh/cbzconverter/backend/ConversionFunctions.kt:179-287) is not modelled. Nothing in the app calls it; `Epub.CreateEpubFromCbz` and `Epub.CreateEpubFromImageList` are.
- **Earlier engine's orchestration.** The earlier engine's `convertCbzToPdf`, `applyEachFileAndCreatePdf` and `mergeFilesAndCreatePdf` are not modelled separately: they match the current ones except for the shared list, which the finding below captures at `createSinglePdfFromCbz` and `Legacy.ExportOrdered` carries as written. Its `orderZipEntriesToList` and `addEntriesToZip` are the current ones, so `Archive.OrderEntries` and `Combine.AddEntriesToZip` model both.
- **Failed selection updates.** The exception branch of `updateSelectedFileUrisFromUserInput` is not modelled, because the modelled display-name lookup cannot fail.
- **Failures outside the job.** `convertToPDF` catches exceptions other than the naming failure (`first()` of an empty list). Those come from Android I/O, which is not modelled.
- **Logger output.** Only the lines sent to `subStepStatusAction` and the view model's status texts are modelled.
- **Mismatched tests.** The unit tests of an older view model (`app/src/test/java/com/puchunguita/cbzconverter/MainViewModelTest.kt`) target a class that is not part of this model, and their defaults contradict the current view model's. The Mihon-mode test expecting "MyManga.pdf" contradicts the code; `Naming.MihonDocumentFolderExample` proves what the code does instead.
- Legacy.CreateSinglePdfFromCbz: when batched, requires the output name to hold ".pdf" and the list to hold distinct, existing output files other than the target. Without ".pdf" every batch part gets the same cache name, and the merge of distinct parts does not apply.
- Legacy.BatchThenMerge: the same two preconditions as `Legacy.CreateSinglePdfFromCbz`.
- Legacy.CreateSinglePdfFromCbzOwnList: when batched, requires the output name to hold ".pdf", for the same reason.
- Legacy.ExportOrdered: when the single file is batched, requires what `Legacy.CreateSinglePdfFromCbz` requires.
- Legacy.CreatePdfEitherSingleOrMultiple: when the single file is batched, requires what `Legacy.CreateSinglePdfFromCbz` requires.
- Merge.MergePdfFiles: requires the listed files to be distinct and to exist, and none of them to be the output file. A missing file makes the PDF reader throw, and reading the file being written is not modelled.
- Convert.ConvertCbzToPdf: requires at least as many output names as selected files. With fewer, `outputFileNames[index]` throws. The view model always passes one name per file.
- **Undefined members.** `moveSelectedFile` and `canMergeSelection` are called by the UI but not defined in the view model, so they are not part of this model.

## Findings

| source | as written | input that shows it | evidently intended | confidence | as-written member | corrected member |
|---|---|---|---|---|---|---|
| app/src/main/java/com/puchunguita/cbzconverter/ConversionFunctions.kt:318-332 | past 300 images, `createSinglePdfFromCbz` writes its parts into the caller's shared `outputFiles` list, then merges and deletes every file on that list | two selected archives converted one by one, the first of any size and the second over 300 images: the first archive's PDF is merged into the second's output and deleted | the batch parts go through a list of their own, and only the merged file is added to the caller's list (as the current engine does at app/src/main/java/com/joshiminh/cbzconverter/backend/ConversionFunctions.kt:775-788) | not executed | Legacy.SharedListSwallowsEarlierFile | Legacy.CreateSinglePdfFromCbzOwnList |
