/**
 * Splitting an ordered list of entries into consecutive parts (at most
 * `maxNumberOfPages` each) and memory batches (at most `batchSize` each).
 */
module Partition {

  /**
   * `ceil(total.toDouble() / size).toInt()`. For `Int` operands the double
   * quotient is exact enough that this is the integer ceiling.
   */
  function CeilDiv(total: nat, size: nat): nat
    requires size > 0
  {
    (total + size - 1) / size
  }

  /** `CeilDiv(total, size)` chunks of `size` cover the total, one fewer does not. */
  lemma CeilDivBounds(total: nat, size: nat)
    requires size > 0
    ensures CeilDiv(total, size) * size >= total
    ensures CeilDiv(total, size) > 0 ==> (CeilDiv(total, size) - 1) * size < total
    ensures CeilDiv(total, size) == 0 <==> total == 0
  {
  }

  /**
   * `calculateRange(index, pageSize, totalItems)`: the half-open range of
   * the index-th chunk, its end clipped to the total.
   */
  function CalculateRange(index: nat, pageSize: nat, totalItems: nat): (r: (nat, nat))
    ensures r.0 == index * pageSize
    ensures r.1 <= totalItems && r.1 <= r.0 + pageSize
    ensures r.1 < totalItems ==> r.1 == r.0 + pageSize
  {
    var start := index * pageSize;
    var next := (index + 1) * pageSize;
    (start, if next > totalItems then totalItems else next)
  }

  function Start(index: nat, pageSize: nat, totalItems: nat): nat
  {
    CalculateRange(index, pageSize, totalItems).0
  }

  function End(index: nat, pageSize: nat, totalItems: nat): nat
  {
    CalculateRange(index, pageSize, totalItems).1
  }

  /**
   * The `CeilDiv(total, size)` ranges tile `[0, total)`: each is non-empty,
   * holds at most `size` items, starts where the previous one ended, and the
   * last one ends at the total.
   */
  lemma RangesTile(index: nat, size: nat, total: nat)
    requires size > 0 && index < CeilDiv(total, size)
    ensures Start(index, size, total) == index * size
    ensures Start(index, size, total) < End(index, size, total) <= total
    ensures End(index, size, total) - Start(index, size, total) <= size
    ensures index + 1 < CeilDiv(total, size) ==>
      End(index, size, total) == Start(index + 1, size, total)
      && End(index, size, total) - Start(index, size, total) == size
    ensures index + 1 == CeilDiv(total, size) ==> End(index, size, total) == total
  {
    var n := CeilDiv(total, size);
    CeilDivBounds(total, size);
    assert index * size <= (n - 1) * size by { MulLe(index, n - 1, size); }
    assert (index + 1) * size == index * size + size;
    if index + 1 < n {
      MulLe(index + 1, n - 1, size);
    } else {
      assert (index + 1) * size >= total;
    }
  }

  /** The largest Kotlin `Int`. */
  const MaxInt: nat := 0x7fff_ffff

  /**
   * For every index the callers pass (below `ceil(total / size)`) and an
   * `Int` size, the source's `Int` products `index * pageSize` and
   * `(index + 1) * pageSize` do not wrap once the archive has at most
   * 2^30 entries, so the unbounded arithmetic here is the source's.
   */
  lemma CalculateRangeNoOverflow(index: nat, size: nat, total: nat)
    requires 0 < size <= MaxInt && total <= 0x4000_0000 && index < CeilDiv(total, size)
    ensures index * size < (index + 1) * size <= MaxInt
  {
    var n := CeilDiv(total, size);
    CeilDivBounds(total, size);
    assert (index + 1) * size == index * size + size;
    if index > 0 {
      MulLe(index, n - 1, size);
      assert index * size < total;
      MulLe(1, index, size);
      assert size <= index * size;
    }
  }

  lemma MulLe(a: nat, b: nat, p: nat)
    requires a <= b
    ensures a * p <= b * p
  {
  }

  /** The worked cases of `calculateRange` the project's unit tests pin down. */
  lemma CalculateRangeExamples()
    ensures CalculateRange(0, 0, 0) == (0, 0)
    ensures CalculateRange(1000, 100, 100000) == (100000, 100000)
    ensures CalculateRange(5, 10, 100) == (50, 60)
    ensures CalculateRange(2, 1000, 2500) == (2000, 2500)
    ensures CalculateRange(0, 100, 100) == (0, 100)
    ensures CalculateRange(2, 50, 100) == (100, 100)
    ensures CalculateRange(1, 50, 100) == (50, 100)
    ensures CalculateRange(5, 1, 10) == (5, 6)
    ensures CalculateRange(9, 1, 10) == (9, 10)
    ensures CalculateRange(1, 3, 7) == (3, 6)
    ensures CalculateRange(2, 3, 7) == (6, 7)
    ensures CalculateRange(4, 300, 1500) == (1200, 1500)
    ensures CeilDiv(1500, 300) == 5 && CeilDiv(2500, 500) == 5
  {
  }
}
