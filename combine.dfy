/**
 * `addEntriesToZip` and the combined archive of `mergeFilesAndCreatePdf`:
 * the entries of every source archive copied, in source order, into one
 * ZIP output stream under names prefixed with the source's nine-digit
 * index and file name.
 */
module Combine {
  import opened Wrappers
  import opened Strings
  import opened Archive
  import opened Pdf

  /** What the content resolver gives for one selected file. */
  datatype Source =
    | NoStream(uriPath: Option<string>)  // `openInputStream` returned null
    | Unreadable                         // copied, but `ZipFile` cannot open it
    | Cbz(entries: seq<Entry>)           // a ZIP archive, its entries in archive order

  /** How copying one entry's bytes into the output stream ends. */
  datatype Copy = Copied | Truncated(part: nat)

  /**
   * The entry written for `e` under prefix `p`; a copy that fails after
   * `putNextEntry` leaves the entry with the bytes copied so far.
   */
  function Written(p: string, e: Entry, copy: Entry -> Copy): (w: Entry)
    ensures w.name == p + e.name
    ensures copy(e) == Copied ==> w == Prefixed(p, e)
  {
    Entry(p + e.name, match copy(e) case Copied => e.data case Truncated(d) => d)
  }

  /** An entry whose prefixed name was already written is refused by the stream. */
  predicate Refused(z: seq<Entry>, p: string, e: Entry)
  {
    p + e.name in Names(z)
  }

  /** The stream's entries after adding `es` under prefix `p` to `z`. */
  function Added(z: seq<Entry>, p: string, es: seq<Entry>, copy: Entry -> Copy): seq<Entry>
  {
    if es == [] then z
    else
      var z' := Added(z, p, es[..|es| - 1], copy);
      var e := es[|es| - 1];
      if Refused(z', p, e) then z' else z' + [Written(p, e, copy)]
  }

  /** The lines for the entries of `es`: one error line per refused or truncated entry. */
  function AddedLog(z: seq<Entry>, p: string, es: seq<Entry>, copy: Entry -> Copy): seq<Status>
  {
    if es == [] then []
    else
      var e := es[|es| - 1];
      AddedLog(z, p, es[..|es| - 1], copy)
      + (if Refused(Added(z, p, es[..|es| - 1], copy), p, e) || copy(e).Truncated? then [EntryFailed(e.name)] else [])
  }

  /** One more entry: its outcome is decided against the stream written so far. */
  lemma AddedStep(z: seq<Entry>, p: string, es: seq<Entry>, k: nat, copy: Entry -> Copy)
    requires k < |es|
    ensures var z' := Added(z, p, es[..k], copy);
      Added(z, p, es[..k + 1], copy) == if Refused(z', p, es[k]) then z' else z' + [Written(p, es[k], copy)]
    ensures AddedLog(z, p, es[..k + 1], copy)
         == AddedLog(z, p, es[..k], copy)
            + (if Refused(Added(z, p, es[..k], copy), p, es[k]) || copy(es[k]).Truncated? then [EntryFailed(es[k].name)] else [])
  {
    assert es[..k + 1][..k] == es[..k];
  }

  predicate DistinctNames(es: seq<Entry>)
  {
    forall i, j :: 0 <= i < j < |es| ==> es[i].name != es[j].name
  }

  /** No name of `z` starts with `p`. */
  ghost predicate FreshPrefix(z: seq<Entry>, p: string)
  {
    forall x: string :: p + x !in Names(z)
  }

  /**
   * When the prefix is new to the stream, the names of the source are
   * distinct and every copy succeeds, every entry is written, prefixed,
   * in archive order, and no error is reported.
   */
  lemma {:induction false} AddedFresh(z: seq<Entry>, p: string, es: seq<Entry>, copy: Entry -> Copy)
    requires FreshPrefix(z, p) && DistinctNames(es)
    requires forall k :: 0 <= k < |es| ==> copy(es[k]) == Copied
    ensures Added(z, p, es, copy) == z + PrefixAll(p, es)
    ensures AddedLog(z, p, es, copy) == []
  {
    if es != [] {
      var n := |es| - 1;
      var e := es[n];
      var init := es[..n];
      DistinctInit(es, n);
      AddedFresh(z, p, init, copy);
      var front := PrefixAll(p, init);
      FreshNotRefused(z, p, es, n);
      PrefixAllSnoc(p, init, e);
      assert init + [e] == es;
      Assoc(z, front, [Prefixed(p, e)]);
    }
  }

  lemma DistinctInit(es: seq<Entry>, n: nat)
    requires DistinctNames(es) && n <= |es|
    ensures DistinctNames(es[..n])
  {
    assert forall k :: 0 <= k < n ==> es[..n][k] == es[k];
  }

  /** The next entry's prefixed name is new: not in the stream before, not among the entries already added. */
  lemma FreshNotRefused(z: seq<Entry>, p: string, es: seq<Entry>, n: nat)
    requires FreshPrefix(z, p) && DistinctNames(es) && n < |es|
    ensures !Refused(z + PrefixAll(p, es[..n]), p, es[n])
  {
    NamesAppend(z, PrefixAll(p, es[..n]));
    NotAmongPrefixed(p, es, n);
    assert p + es[n].name !in Names(z);
  }

  /** Distinct names stay distinct under a common prefix. */
  lemma NotAmongPrefixed(p: string, es: seq<Entry>, n: nat)
    requires DistinctNames(es) && n < |es|
    ensures p + es[n].name !in Names(PrefixAll(p, es[..n]))
  {
    var front := PrefixAll(p, es[..n]);
    forall k | 0 <= k < n ensures front[k].name != p + es[n].name {
      assert front[k] == Prefixed(p, es[k]);
      assert (p + es[k].name)[|p|..] == es[k].name;
      assert (p + es[n].name)[|p|..] == es[n].name;
    }
  }

  lemma NamesAppend(a: seq<Entry>, b: seq<Entry>)
    ensures Names(a + b) == Names(a) + Names(b)
  {
    var ab := a + b;
    forall x | x in Names(ab) ensures x in Names(a) + Names(b) {
      var k :| 0 <= k < |ab| && ab[k].name == x;
      if k >= |a| { assert b[k - |a|].name == x; }
    }
    forall x | x in Names(a) + Names(b) ensures x in Names(ab) {
      if x in Names(a) {
        var k :| 0 <= k < |a| && a[k].name == x;
        assert ab[k].name == x;
      } else {
        var k :| 0 <= k < |b| && b[k].name == x;
        assert ab[|a| + k].name == x;
      }
    }
  }

  lemma PrefixAllSnoc(p: string, s: seq<Entry>, e: Entry)
    ensures PrefixAll(p, s + [e]) == PrefixAll(p, s) + [Prefixed(p, e)]
  {
    var l, r := PrefixAll(p, s + [e]), PrefixAll(p, s) + [Prefixed(p, e)];
    assert |l| == |r|;
    forall k | 0 <= k < |l| ensures l[k] == r[k] {
      if k < |s| { assert (s + [e])[k] == s[k]; }
    }
  }

  /** Names indexed below `i` never start with the prefix of source `i`. */
  lemma IndexedFresh(z: seq<Entry>, i: nat, f: string)
    requires i < 1_000_000_000 && IndexedBelow(z, i)
    ensures FreshPrefix(z, MergePrefix(i, f))
  {
    var p := MergePrefix(i, f);
    forall x: string ensures p + x !in Names(z) {
      PrefixedName(i, f, x);
      Pad9Shape(i);
      NineHead(Pad9(i), "_" + f + "_" + x);
      assert DigitsValue((p + x)[..9]) == i;
      forall k | 0 <= k < |z| ensures z[k].name != p + x {
        assert z[k] in z;
      }
    }
  }

  // ------------------------------------------------------ one source

  /** The stream after `addEntriesToZip` for source number `index`. */
  function SourceAdded(z: seq<Entry>, src: Source, fileName: string, index: nat, copy: Entry -> Copy): seq<Entry>
  {
    match src
    case Cbz(es) => Added(z, MergePrefix(index, fileName), es, copy)
    case _ => z
  }

  /** The lines of `addEntriesToZip`; an unreadable archive is skipped silently. */
  function SourceLog(z: seq<Entry>, src: Source, fileName: string, index: nat, copy: Entry -> Copy): seq<Status>
  {
    match src
    case NoStream(path) => [CouldNotCopy(path)]
    case Unreadable => []
    case Cbz(es) => [AddingEntries(|es|, fileName)] + AddedLog(z, MergePrefix(index, fileName), es, copy)
  }

  /**
   * One iteration of `addEntriesToZip`'s entry loop: `putNextEntry` under
   * the unique name, then the copy of the bytes; any exception is
   * reported and swallowed.
   */
  method AddEntry(zip: ZipWriter, ws: Workspace, p: string, e: Entry, copy: Entry -> Copy)
    modifies zip, ws
    ensures zip.entries == if Refused(old(zip.entries), p, e) then old(zip.entries) else old(zip.entries) + [Written(p, e, copy)]
    ensures ws.log == old(ws.log) + (if Refused(old(zip.entries), p, e) || copy(e).Truncated? then [EntryFailed(e.name)] else [])
    ensures ws.output == old(ws.output) && ws.cache == old(ws.cache)
  {
    var ok := zip.Put(Written(p, e, copy));
    if !ok || copy(e).Truncated? {
      ws.Say(EntryFailed(e.name));
    } else {
      assert ws.log == old(ws.log) + [];
    }
  }

  /**
   * `addEntriesToZip`: every entry of the source under its unique name,
   * in archive order; an entry the stream refuses or whose copy fails is
   * reported and the next one is tried.
   */
  method AddEntriesToZip(zip: ZipWriter, ws: Workspace, src: Source, fileName: string, index: nat, copy: Entry -> Copy)
    modifies zip, ws
    ensures zip.entries == SourceAdded(old(zip.entries), src, fileName, index, copy)
    ensures ws.log == old(ws.log) + SourceLog(old(zip.entries), src, fileName, index, copy)
    ensures ws.output == old(ws.output) && ws.cache == old(ws.cache)
  {
    match src {
      case NoStream(path) =>
        ws.Say(CouldNotCopy(path));
      case Unreadable =>
        assert ws.log == old(ws.log) + [];
      case Cbz(es) =>
        ws.Say(AddingEntries(|es|, fileName));
        var p := MergePrefix(index, fileName);
        ghost var z0 := zip.entries;
        ghost var log0 := ws.log;
        var k := 0;
        while k < |es|
          invariant 0 <= k <= |es|
          invariant zip.entries == Added(z0, p, es[..k], copy)
          invariant ws.log == log0 + AddedLog(z0, p, es[..k], copy)
          invariant ws.output == old(ws.output) && ws.cache == old(ws.cache)
        {
          AddedStep(z0, p, es, k, copy);
          ghost var done := AddedLog(z0, p, es[..k], copy);
          ghost var last := if Refused(zip.entries, p, es[k]) || copy(es[k]).Truncated? then [EntryFailed(es[k].name)] else [];
          AddEntry(zip, ws, p, es[k], copy);
          Assoc(log0, done, last);
          k := k + 1;
        }
        assert es[..k] == es;
        Assoc(old(ws.log), [AddingEntries(|es|, fileName)], AddedLog(z0, p, es, copy));
    }
  }

  // ------------------------------------------------- all the sources

  /** The combined stream after sources `0 .. n-1`. */
  function MergedZip(sources: seq<Source>, names: seq<string>, copy: Entry -> Copy, n: nat): seq<Entry>
    requires n <= |sources| <= |names|
  {
    if n == 0 then []
    else SourceAdded(MergedZip(sources, names, copy, n - 1), sources[n - 1], names[n - 1], n - 1, copy)
  }

  function MergedZipLog(sources: seq<Source>, names: seq<string>, copy: Entry -> Copy, n: nat): seq<Status>
    requires n <= |sources| <= |names|
  {
    if n == 0 then []
    else MergedZipLog(sources, names, copy, n - 1)
         + SourceLog(MergedZip(sources, names, copy, n - 1), sources[n - 1], names[n - 1], n - 1, copy)
  }

  /** Every source is an archive with distinct entry names whose bytes all copy. */
  predicate Clean(sources: seq<Source>, copy: Entry -> Copy)
  {
    forall i :: 0 <= i < |sources| ==>
      sources[i].Cbz? && DistinctNames(sources[i].entries)
      && forall k :: 0 <= k < |sources[i].entries| ==> copy(sources[i].entries[k]) == Copied
  }

  function Blocks(sources: seq<Source>): (r: seq<seq<Entry>>)
    requires forall i :: 0 <= i < |sources| ==> sources[i].Cbz?
    ensures |r| == |sources| && forall i :: 0 <= i < |sources| ==> r[i] == sources[i].entries
  {
    if sources == [] then [] else Blocks(sources[..|sources| - 1]) + [sources[|sources| - 1].entries]
  }

  /** The header line of each source, in order. */
  function AddingLines(sources: seq<Source>, names: seq<string>, n: nat): seq<Status>
    requires n <= |sources| <= |names| && forall i :: 0 <= i < |sources| ==> sources[i].Cbz?
  {
    if n == 0 then [] else AddingLines(sources, names, n - 1) + [AddingEntries(|sources[n - 1].entries|, names[n - 1])]
  }

  /**
   * Without failures the combined stream is exactly the prefixed
   * sources one after the other, and the only lines are one header per
   * source.
   */
  lemma {:induction false} MergedZipClean(sources: seq<Source>, names: seq<string>, copy: Entry -> Copy, n: nat)
    requires n <= |sources| <= |names| && |sources| <= 1_000_000_000 && Clean(sources, copy)
    ensures MergedZip(sources, names, copy, n) == Combined(names[..n], Blocks(sources)[..n])
    ensures MergedZipLog(sources, names, copy, n) == AddingLines(sources, names, n)
  {
    if n > 0 {
      MergedZipClean(sources, names, copy, n - 1);
      CleanSourceStep(sources, names, copy, n - 1);
    }
  }

  /** Source `m` appends its prefixed entries and its header line and nothing else. */
  lemma CleanSourceStep(sources: seq<Source>, names: seq<string>, copy: Entry -> Copy, m: nat)
    requires m < |sources| <= |names| && |sources| <= 1_000_000_000 && Clean(sources, copy)
    requires MergedZip(sources, names, copy, m) == Combined(names[..m], Blocks(sources)[..m])
    ensures SourceAdded(MergedZip(sources, names, copy, m), sources[m], names[m], m, copy)
         == Combined(names[..m + 1], Blocks(sources)[..m + 1])
    ensures SourceLog(MergedZip(sources, names, copy, m), sources[m], names[m], m, copy)
         == [AddingEntries(|sources[m].entries|, names[m])]
  {
    var blocks := Blocks(sources);
    var z := MergedZip(sources, names, copy, m);
    var p := MergePrefix(m, names[m]);
    CombinedIndexed(names[..m], blocks[..m]);
    IndexedFresh(z, m, names[m]);
    AddedFresh(z, p, sources[m].entries, copy);
    CombinedSnoc(names, blocks, m);
    assert [AddingEntries(|sources[m].entries|, names[m])] + [] == [AddingEntries(|sources[m].entries|, names[m])];
  }

  lemma CombinedSnoc(names: seq<string>, blocks: seq<seq<Entry>>, m: nat)
    requires m < |blocks| <= |names|
    ensures Combined(names[..m + 1], blocks[..m + 1])
         == Combined(names[..m], blocks[..m]) + PrefixAll(MergePrefix(m, names[m]), blocks[m])
  {
    assert names[..m + 1][..m] == names[..m] && blocks[..m + 1][..m] == blocks[..m];
  }

  /**
   * Merging in name order (the default) keeps the sources in selection
   * order and sorts the pages of each source by entry name: the
   * nine-digit index keeps `10_` after `9_`.
   */
  lemma MergedOrder(sources: seq<Source>, names: seq<string>, copy: Entry -> Copy)
    requires |sources| <= |names| && |sources| <= 1_000_000_000 && Clean(sources, copy)
    ensures OrderEntries(MergedZip(sources, names, copy, |sources|), false)
         == Combined(names[..|sources|], SortEach(Blocks(sources)))
    ensures OrderEntries(MergedZip(sources, names, copy, |sources|), true)
         == Combined(names[..|sources|], Blocks(sources))
  {
    MergedZipClean(sources, names, copy, |sources|);
    assert Blocks(sources)[..|sources|] == Blocks(sources);
    CombinedSortOrder(names[..|sources|], Blocks(sources));
  }
}
