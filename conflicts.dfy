/**
 * `resolveFileNameConflicts`: each proposed name that is already taken
 * in the output folder, or by an earlier name of the same job, gets the
 * least free version number `stem k.ext`.
 */
module Conflicts {
  import opened Wrappers
  import opened Strings

  /** The name split at its last '.', the extension keeping the dot. */
  function SplitExt(name: string): (r: (string, string))
    ensures r.0 + r.1 == name
  {
    match LastIndexOf(name, '.')
    case None => assert name + "" == name; (name, "")
    case Some(i) => assert name[..i] + name[i..] == name; (name[..i], name[i..])
  }

  /** `"$namePart $version$extension"`. */
  function Versioned(base: string, k: nat): string
  {
    var (stem, ext) := SplitExt(base);
    stem + " " + NatToString(k) + ext
  }

  /** The `k`-th name the loop tries: the name itself, then its versions. */
  function Candidate(base: string, k: nat): string
  {
    if k == 0 then base else Versioned(base, k)
  }

  /** Different attempts propose different names. */
  lemma CandidateInjective(base: string, j: nat, k: nat)
    requires Candidate(base, j) == Candidate(base, k)
    ensures j == k
  {
    var (stem, ext) := SplitExt(base);
    if j != 0 && k != 0 {
      var a, b := NatToString(j), NatToString(k);
      var x := stem + " " + a + ext;
      assert x == stem + " " + b + ext;
      assert |a| == |b|;
      assert a == x[|stem| + 1..|stem| + 1 + |a|];
      assert b == (stem + " " + b + ext)[|stem| + 1..|stem| + 1 + |b|];
      NatToStringInjective(j, k);
    }
  }

  /** When the first `n` attempts are all taken, `taken` has at least `n` names. */
  lemma {:induction false} TakenBound(base: string, n: nat, taken: set<string>)
    requires forall j :: 0 <= j < n ==> Candidate(base, j) in taken
    ensures n <= |taken|
  {
    if n > 0 {
      var last := Candidate(base, n - 1);
      var rest := taken - {last};
      forall j | 0 <= j < n - 1 ensures Candidate(base, j) in rest {
        if Candidate(base, j) == last {
          CandidateInjective(base, j, n - 1);
        }
      }
      TakenBound(base, n - 1, rest);
    }
  }

  /**
   * `r` is what the loop settles on for `base`: the name itself if free,
   * else version `k >= 1`, free, with every smaller version taken.
   */
  ghost predicate LeastFree(base: string, taken: set<string>, r: string)
  {
    && r !in taken
    && (base !in taken ==> r == base)
    && (base in taken ==>
          exists k :: k >= 1 && r == Versioned(base, k) && forall j :: 1 <= j < k ==> Versioned(base, j) in taken)
  }

  /** The least free name is unique. */
  lemma LeastFreeUnique(base: string, taken: set<string>, r1: string, r2: string)
    requires LeastFree(base, taken, r1) && LeastFree(base, taken, r2)
    ensures r1 == r2
  {
    if base in taken {
      var k1 :| k1 >= 1 && r1 == Versioned(base, k1) && forall j :: 1 <= j < k1 ==> Versioned(base, j) in taken;
      var k2 :| k2 >= 1 && r2 == Versioned(base, k2) && forall j :: 1 <= j < k2 ==> Versioned(base, j) in taken;
    }
  }

  /** The `while (existing.contains(candidate))` loop for one name. */
  method FreeName(base: string, taken: set<string>) returns (candidate: string)
    ensures LeastFree(base, taken, candidate)
  {
    candidate := base;
    var version: nat := 1;
    while candidate in taken
      invariant candidate == Candidate(base, version - 1)
      invariant forall j :: 0 <= j < version - 1 ==> Candidate(base, j) in taken
      invariant version - 1 <= |taken|
      decreases |taken| - (version - 1)
    {
      TakenBound(base, version, taken);
      candidate := Versioned(base, version);
      version := version + 1;
    }
    if base in taken {
      assert version > 1;
      var k := version - 1;
      assert candidate == Versioned(base, k);
      assert forall j :: 1 <= j < k ==> Versioned(base, j) == Candidate(base, j);
    }
  }

  /** The names taken before position `i`: the folder listing and the earlier results. */
  ghost function TakenBefore(listing: set<string>, r: seq<string>, i: nat): set<string>
    requires i <= |r|
  {
    listing + (set j | 0 <= j < i :: r[j])
  }

  /** Each result is the least free name given the listing and the earlier results. */
  ghost predicate Resolution(names: seq<string>, listing: set<string>, r: seq<string>)
  {
    && |r| == |names|
    && forall i :: 0 <= i < |r| ==> LeastFree(names[i], TakenBefore(listing, r, i), r[i])
  }

  /** `resolveFileNameConflicts(names, outputFolder)` with the folder's listing given. */
  method ResolveFileNameConflicts(names: seq<string>, listing: set<string>) returns (r: seq<string>)
    ensures Resolution(names, listing, r)
  {
    var existing := listing;
    r := [];
    for i := 0 to |names|
      invariant |r| == i
      invariant existing == TakenBefore(listing, r, i)
      invariant Resolution(names[..i], listing, r)
    {
      var c := FreeName(names[i], existing);
      ResolutionStep(names, listing, r, c, i);
      existing := existing + {c};
      r := r + [c];
    }
    assert names[..|names|] == names;
  }

  /** Appending the next least free name extends the resolution by one. */
  lemma ResolutionStep(names: seq<string>, listing: set<string>, r: seq<string>, c: string, i: nat)
    requires i < |names| && |r| == i && Resolution(names[..i], listing, r)
    requires LeastFree(names[i], TakenBefore(listing, r, i), c)
    ensures TakenBefore(listing, r + [c], i + 1) == TakenBefore(listing, r, i) + {c}
    ensures Resolution(names[..i + 1], listing, r + [c])
  {
    var r' := r + [c];
    forall k | 0 <= k <= i ensures TakenBefore(listing, r', k) == TakenBefore(listing, r, k) {
      assert forall j :: 0 <= j < k ==> r'[j] == r[j];
    }
    assert TakenBefore(listing, r', i + 1) == TakenBefore(listing, r, i) + {c} by {
      assert forall j :: 0 <= j < i ==> r'[j] == r[j];
      assert r'[i] == c;
    }
    assert forall k :: 0 <= k < i ==> names[..i + 1][k] == names[..i][k];
  }

  /** The results are pairwise distinct and none of them is in the listing. */
  lemma ResolutionDistinct(names: seq<string>, listing: set<string>, r: seq<string>)
    requires Resolution(names, listing, r)
    ensures forall i :: 0 <= i < |r| ==> r[i] !in listing
    ensures forall i, j :: 0 <= i < j < |r| ==> r[i] != r[j]
  {
    forall i, j | 0 <= i < j < |r| ensures r[i] != r[j] {
      assert r[i] in TakenBefore(listing, r, j);
    }
  }

  /** A name that is no earlier result and not in the listing is kept as it is. */
  lemma ResolutionKeepsFree(names: seq<string>, listing: set<string>, r: seq<string>, i: nat)
    requires Resolution(names, listing, r) && i < |r|
    requires names[i] !in listing && forall j :: 0 <= j < i ==> r[j] != names[i]
    ensures r[i] == names[i]
  {
    assert names[i] !in TakenBefore(listing, r, i);
  }

  /**
   * Two files both proposed as "Parent.pdf" in an empty folder become
   * "Parent.pdf" and "Parent 1.pdf".
   */
  lemma ParentExample(names: seq<string>, r: seq<string>)
    requires names == ["Parent.pdf", "Parent.pdf"] && Resolution(names, {}, r)
    ensures r == ["Parent.pdf", "Parent 1.pdf"]
  {
    var base := names[0];
    assert TakenBefore({}, r, 0) == {};
    assert r[0] == base;
    assert TakenBefore({}, r, 1) == {base};
    SplitParent(base);
    var v1 := Versioned(base, 1);
    assert v1 != base by { assert |v1| > |base|; }
    assert LeastFree(base, {base}, v1);
    LeastFreeUnique(base, {base}, r[1], v1);
    assert v1 == "Parent 1.pdf";
  }

  lemma SplitParent(base: string)
    requires base == "Parent.pdf"
    ensures SplitExt(base) == ("Parent", ".pdf")
    ensures Versioned(base, 1) == "Parent 1.pdf"
  {
    assert base == "Parent" + ['.'] + "pdf";
    SubstringBeforeLastSplit("Parent", '.', "pdf");
    assert NatToString(1) == "1";
  }
}
