/**
 * CBZ archives as ordered lists of ZIP entries: the name order used by
 * `orderZipEntriesToList` (a stable sort on `String.compareTo`), the entry
 * names `addEntriesToZip` gives each source when several CBZ files are
 * merged, and the ZIP output stream they are written to.
 */
module Archive {
  import opened Strings

  /** A ZIP entry: its name and an identity for its bytes. */
  datatype Entry = Entry(name: string, data: nat)

  /** `ZipEntry.isDirectory()`: the name ends with a slash. */
  predicate IsDirectory(e: Entry)
  {
    EndsWith(e.name, "/")
  }

  predicate SortedByName(s: seq<Entry>)
  {
    forall i, j :: 0 <= i < j < |s| ==> LexLe(s[i].name, s[j].name)
  }

  /** Puts `x` after every entry whose name is not greater than its own. */
  function Insert(x: Entry, s: seq<Entry>): (r: seq<Entry>)
    ensures multiset(r) == multiset(s) + multiset{x}
  {
    if s == [] then [x]
    else if !LexLe(s[0].name, x.name) then [x] + s
    else
      assert s == [s[0]] + s[1..];
      [s[0]] + Insert(x, s[1..])
  }

  lemma {:induction false} InsertSorted(x: Entry, s: seq<Entry>)
    requires SortedByName(s)
    ensures SortedByName(Insert(x, s))
  {
    if s == [] {
    } else if !LexLe(s[0].name, x.name) {
      LexLeTotal(s[0].name, x.name);
      forall j | 0 <= j < |s| ensures LexLe(x.name, s[j].name) {
        if j > 0 { LexLeTrans(x.name, s[0].name, s[j].name); }
      }
      assert forall j :: 0 < j <= |s| ==> ([x] + s)[j] == s[j - 1];
    } else {
      var rest := Insert(x, s[1..]);
      assert SortedByName(s[1..]);
      InsertSorted(x, s[1..]);
      forall y | y in rest ensures LexLe(s[0].name, y.name) {
        assert y in multiset(rest);
        if y != x {
          assert y in multiset(s[1..]);
          var j :| 0 <= j < |s[1..]| && s[1..][j] == y;
          assert s[j + 1] == y;
        }
      }
      assert forall j :: 0 <= j < |rest| ==> rest[j] in rest;
      assert forall j :: 0 < j <= |rest| ==> ([s[0]] + rest)[j] == rest[j - 1];
    }
  }

  /**
   * `sorted { f1, f2 -> f1.name.compareTo(f2.name) }` on a stream: a
   * stable sort by name (entries with equal names keep archive order).
   */
  function SortByName(s: seq<Entry>): (r: seq<Entry>)
    ensures multiset(r) == multiset(s)
    ensures SortedByName(r)
  {
    if s == [] then []
    else
      assert s == s[..|s| - 1] + [s[|s| - 1]];
      var sorted := SortByName(s[..|s| - 1]);
      InsertSorted(s[|s| - 1], sorted);
      Insert(s[|s| - 1], sorted)
  }

  /**
   * `orderZipEntriesToList`: archive (offset) order when the override is
   * set, otherwise name order.
   */
  function OrderEntries(es: seq<Entry>, useOffset: bool): (r: seq<Entry>)
    ensures multiset(r) == multiset(es) && |r| == |es|
    ensures useOffset ==> r == es
    ensures !useOffset ==> SortedByName(r)
  {
    var r := if useOffset then es else SortByName(es);
    assert |r| == |multiset(r)| == |multiset(es)| == |es|;
    r
  }

  // ------------------------------------------------ stability of the sort

  function WithName(s: seq<Entry>, n: string): seq<Entry>
  {
    if s == [] then []
    else (if s[0].name == n then [s[0]] else []) + WithName(s[1..], n)
  }

  lemma {:induction false} WithNameAppend(a: seq<Entry>, b: seq<Entry>, n: string)
    ensures WithName(a + b, n) == WithName(a, n) + WithName(b, n)
  {
    if a != [] {
      assert (a + b)[0] == a[0] && (a + b)[1..] == a[1..] + b;
      WithNameAppend(a[1..], b, n);
    } else {
      assert a + b == b;
    }
  }

  lemma {:induction false} InsertWithName(x: Entry, s: seq<Entry>, n: string)
    requires SortedByName(s)
    ensures WithName(Insert(x, s), n) == WithName(s, n) + WithName([x], n)
  {
    if s == [] || !LexLe(s[0].name, x.name) {
      InsertFrontWithName(x, s, n);
    } else {
      SortedTail(s);
      InsertWithName(x, s[1..], n);
      InsertBehindWithName(x, s, Insert(x, s[1..]), n);
    }
  }

  lemma SortedTail(s: seq<Entry>)
    requires s != [] && SortedByName(s)
    ensures SortedByName(s[1..])
  {
  }

  /** When `x` goes behind the head, the head's name is counted first. */
  lemma InsertBehindWithName(x: Entry, s: seq<Entry>, rest: seq<Entry>, n: string)
    requires s != [] && WithName(rest, n) == WithName(s[1..], n) + WithName([x], n)
    ensures WithName([s[0]] + rest, n) == WithName(s, n) + WithName([x], n)
  {
    var t := [s[0]] + rest;
    assert t[0] == s[0] && t[1..] == rest;
    var h := if s[0].name == n then [s[0]] else [];
    var wt, wx := WithName(s[1..], n), WithName([x], n);
    assert WithName(t, n) == h + (wt + wx);
    assert WithName(s, n) == h + wt;
    assert h + (wt + wx) == (h + wt) + wx;
  }

  /** When `x` goes in front, the entries named `n` are those of `s`, then `x` if it is one. */
  lemma InsertFrontWithName(x: Entry, s: seq<Entry>, n: string)
    requires SortedByName(s) && (s == [] || !LexLe(s[0].name, x.name))
    ensures WithName(Insert(x, s), n) == WithName(s, n) + WithName([x], n)
  {
    assert Insert(x, s) == [x] + s;
    WithNameAppend([x], s, n);
    assert [x][1..] == [];
    assert WithName([x][1..], n) == [];
    if x.name == n && s != [] {
      NoneNamedSorted(x, s, n);
    }
  }

  /** When `x` goes to the front of a sorted list, nothing there shares its name. */
  lemma {:induction false} NoneNamedSorted(x: Entry, s: seq<Entry>, n: string)
    requires s != [] && !LexLe(s[0].name, x.name) && x.name == n && SortedByName(s)
    ensures WithName(s, n) == []
  {
    if s[0].name == n { LexLeReflexive(n); }
    if |s| > 1 {
      assert LexLe(s[0].name, s[1].name);
      if LexLe(s[1].name, x.name) { LexLeTrans(s[0].name, s[1].name, x.name); }
      NoneNamedSorted(x, s[1..], n);
    }
  }

  lemma {:induction false} LexLeReflexive(a: string)
    ensures LexLe(a, a)
  {
    if a != [] { LexLeReflexive(a[1..]); }
  }

  /** The sort is stable: entries of one name keep their archive order. */
  lemma {:induction false} SortByNameStable(s: seq<Entry>, n: string)
    ensures WithName(SortByName(s), n) == WithName(s, n)
  {
    if s != [] {
      var init, last := s[..|s| - 1], s[|s| - 1];
      SortByNameStable(init, n);
      InsertWithName(last, SortByName(init), n);
      assert s == init + [last];
      WithNameAppend(init, [last], n);
    }
  }

  // ------------------------------------------- sorting and concatenation

  /** Every name of `p` sorts no later than `x`'s. */
  predicate NoneAfter(p: seq<Entry>, x: Entry)
  {
    forall y :: y in p ==> LexLe(y.name, x.name)
  }

  /** Every name of `a` sorts no later than every name of `b`. */
  predicate AllBefore(a: seq<Entry>, b: seq<Entry>)
  {
    forall y, z :: y in a && z in b ==> LexLe(y.name, z.name)
  }

  /** Inserting an entry no smaller than a whole prefix leaves the prefix alone. */
  lemma {:induction false} InsertAfterAll(x: Entry, p: seq<Entry>, q: seq<Entry>)
    requires NoneAfter(p, x)
    ensures Insert(x, p + q) == p + Insert(x, q)
  {
    if p != [] {
      assert (p + q)[0] == p[0] && (p + q)[1..] == p[1..] + q;
      assert NoneAfter(p[1..], x) by {
        forall y | y in p[1..] ensures LexLe(y.name, x.name) { assert y in p; }
      }
      InsertAfterAll(x, p[1..], q);
    } else {
      assert p + q == q;
    }
  }

  /** Sorting a list whose first part sorts wholly before its second part. */
  lemma {:induction false} SortAppend(a: seq<Entry>, b: seq<Entry>)
    requires AllBefore(a, b)
    ensures SortByName(a + b) == SortByName(a) + SortByName(b)
  {
    if b == [] {
      assert a + b == a;
    } else {
      var init, last := b[..|b| - 1], b[|b| - 1];
      assert (a + b)[..|a + b| - 1] == a + init;
      AllBeforeSplit(a, b);
      SortAppend(a, init);
      InsertAfterAll(last, SortByName(a), SortByName(init));
    }
  }

  /** Dropping `b`'s last entry keeps the order, and the sorted `a` lies before that entry. */
  lemma AllBeforeSplit(a: seq<Entry>, b: seq<Entry>)
    requires b != [] && AllBefore(a, b)
    ensures AllBefore(a, b[..|b| - 1])
    ensures NoneAfter(SortByName(a), b[|b| - 1])
  {
    forall y, z | y in a && z in b[..|b| - 1] ensures LexLe(y.name, z.name) {
      assert z in b;
    }
    forall y | y in SortByName(a) ensures LexLe(y.name, b[|b| - 1].name) {
      SortedMember(a, y);
    }
  }

  lemma SortedMember(a: seq<Entry>, y: Entry)
    requires y in SortByName(a)
    ensures y in a
  {
    assert y in multiset(SortByName(a));
  }

  function Prefixed(p: string, e: Entry): Entry
  {
    Entry(p + e.name, e.data)
  }

  function PrefixAll(p: string, s: seq<Entry>): (r: seq<Entry>)
    ensures |r| == |s|
    ensures forall k :: 0 <= k < |s| ==> r[k] == Prefixed(p, s[k])
  {
    if s == [] then [] else [Prefixed(p, s[0])] + PrefixAll(p, s[1..])
  }

  lemma {:induction false} InsertPrefixed(p: string, x: Entry, s: seq<Entry>)
    ensures Insert(Prefixed(p, x), PrefixAll(p, s)) == PrefixAll(p, Insert(x, s))
  {
    if s != [] {
      LexLeCommonPrefix(p, s[0].name, x.name);
      assert PrefixAll(p, s)[1..] == PrefixAll(p, s[1..]);
      InsertPrefixed(p, x, s[1..]);
    }
  }

  /** A prefix common to every name does not change the name order. */
  lemma {:induction false} SortPrefixed(p: string, s: seq<Entry>)
    ensures SortByName(PrefixAll(p, s)) == PrefixAll(p, SortByName(s))
  {
    if s != [] {
      var init := s[..|s| - 1];
      assert PrefixAll(p, s)[..|s| - 1] == PrefixAll(p, init);
      SortPrefixed(p, init);
      InsertPrefixed(p, s[|s| - 1], SortByName(init));
    }
  }

  // ---------------------------------------------- merged archive names

  /** `"${index.toString().padStart(9, '0')}_${fileName}_"`. */
  function MergePrefix(index: nat, fileName: string): string
  {
    Pad9(index) + "_" + fileName + "_"
  }

  /** The entries of the combined archive for sources `0 .. |blocks|-1`. */
  function Combined(fileNames: seq<string>, blocks: seq<seq<Entry>>): seq<Entry>
    requires |fileNames| == |blocks|
  {
    if blocks == [] then []
    else
      var n := |blocks| - 1;
      Combined(fileNames[..n], blocks[..n]) + PrefixAll(MergePrefix(n, fileNames[n]), blocks[n])
  }

  /** its names all carry a nine-digit index below `n`. */
  predicate IndexedBelow(s: seq<Entry>, n: nat)
  {
    forall y :: y in s ==>
      |y.name| >= 9 && AllDigits(y.name[..9]) && DigitsValue(y.name[..9]) < n
  }

  lemma PrefixedIndexed(i: nat, f: string, s: seq<Entry>, n: nat)
    requires i < n <= 1_000_000_000
    ensures IndexedBelow(PrefixAll(MergePrefix(i, f), s), n)
  {
    Pad9Shape(i);
    forall y | y in PrefixAll(MergePrefix(i, f), s)
      ensures |y.name| >= 9 && AllDigits(y.name[..9]) && DigitsValue(y.name[..9]) < n
    {
      var k :| 0 <= k < |s| && PrefixAll(MergePrefix(i, f), s)[k] == y;
      PrefixedName(i, f, s[k].name);
      NineHead(Pad9(i), "_" + f + "_" + s[k].name);
    }
  }

  lemma {:induction false} CombinedIndexed(fileNames: seq<string>, blocks: seq<seq<Entry>>)
    requires |fileNames| == |blocks| <= 1_000_000_000
    ensures IndexedBelow(Combined(fileNames, blocks), |blocks|)
  {
    if blocks != [] {
      var n := |blocks| - 1;
      CombinedIndexed(fileNames[..n], blocks[..n]);
      PrefixedIndexed(n, fileNames[n], blocks[n], |blocks|);
    }
  }

  /**
   * Sorting the combined archive by name orders the pages by source index
   * first and by original entry name inside each source: the nine-digit
   * padding keeps `10_` after `9_`.
   */
  lemma {:induction false} CombinedSortOrder(fileNames: seq<string>, blocks: seq<seq<Entry>>)
    requires |fileNames| == |blocks| <= 1_000_000_000
    ensures SortByName(Combined(fileNames, blocks)) == Combined(fileNames, SortEach(blocks))
  {
    if blocks != [] {
      var n := |blocks| - 1;
      var p := MergePrefix(n, fileNames[n]);
      var front := Combined(fileNames[..n], blocks[..n]);
      var back := PrefixAll(p, blocks[n]);
      CombinedSortOrder(fileNames[..n], blocks[..n]);
      CombinedIndexed(fileNames[..n], blocks[..n]);
      LaterBlockAfter(front, n, fileNames[n], blocks[n]);
      SortAppend(front, back);
      SortPrefixed(p, blocks[n]);
      var sorted := SortEach(blocks);
      assert sorted[..n] == SortEach(blocks[..n]);
      assert Combined(fileNames, sorted)
          == Combined(fileNames[..n], sorted[..n]) + PrefixAll(p, sorted[n]);
    }
  }

  /** Every name of block `n` sorts after every name indexed below `n`. */
  lemma LaterBlockAfter(front: seq<Entry>, n: nat, f: string, b: seq<Entry>)
    requires n < 1_000_000_000 && IndexedBelow(front, n)
    ensures forall y, z :: y in front && z in PrefixAll(MergePrefix(n, f), b) ==> LexLe(y.name, z.name)
  {
    var back := PrefixAll(MergePrefix(n, f), b);
    forall y, z | y in front && z in back ensures LexLe(y.name, z.name) {
      var k :| 0 <= k < |b| && back[k] == z;
      PrefixedName(n, f, b[k].name);
      assert |y.name| >= 9 && AllDigits(y.name[..9]) && DigitsValue(y.name[..9]) < n;
      IndexBelowOrder(y.name, n, "_" + f + "_" + b[k].name);
    }
  }

  lemma NineHead(a: string, b: string)
    requires |a| == 9
    ensures (a + b)[..9] == a
  {
  }

  lemma PrefixedName(n: nat, f: string, name: string)
    ensures MergePrefix(n, f) + name == Pad9(n) + ("_" + f + "_" + name)
  {
  }

  lemma IndexBelowOrder(a: string, n: nat, tail: string)
    requires n < 1_000_000_000 && |a| >= 9 && AllDigits(a[..9]) && DigitsValue(a[..9]) < n
    ensures LexLe(a, Pad9(n) + tail)
  {
    Pad9Shape(n);
    assert a == a[..9] + a[9..];
    DigitsOrder(a[..9], Pad9(n), a[9..], tail);
  }

  function SortEach(blocks: seq<seq<Entry>>): (r: seq<seq<Entry>>)
    ensures |r| == |blocks|
    ensures forall i :: 0 <= i < |blocks| ==> r[i] == SortByName(blocks[i])
  {
    if blocks == [] then [] else SortEach(blocks[..|blocks| - 1]) + [SortByName(blocks[|blocks| - 1])]
  }

  // ------------------------------------------------ ZIP output stream

  function Names(s: seq<Entry>): set<string>
  {
    set k | 0 <= k < |s| :: s[k].name
  }

  /** A `ZipOutputStream`: the entries written so far, in order. */
  class ZipWriter {
    var entries: seq<Entry>

    constructor ()
      ensures entries == []
    {
      entries := [];
    }

    /**
     * `putNextEntry` followed by copying the bytes: refused (the library
     * throws) when an entry of that name was already written.
     */
    method Put(e: Entry) returns (ok: bool)
      modifies this
      ensures ok <==> e.name !in Names(old(entries))
      ensures entries == if ok then old(entries) + [e] else old(entries)
    {
      ok := e.name !in Names(entries);
      if ok {
        entries := entries + [e];
      }
    }
  }
}
