/** Keyed streams: the key space is cut into contiguous ranges, one per channel. */
module KeyRanges {
  import opened Arithmetic

  /** The range responsible for `key`, as the source computes it. */
  function RangeOf(key: nat, maxKey: nat, ranges: nat): nat
    requires maxKey > 0
  {
    Div(key * ranges, maxKey)
  }

  /** The first key of range `i`. */
  function First(i: nat, maxKey: nat, ranges: nat): nat
    requires ranges > 0
  {
    CeilDiv(i * maxKey, ranges)
  }

  /** Every key below the maximum has a range, and range i is the interval [First(i), First(i + 1)). */
  lemma RangesAreIntervals(key: nat, maxKey: nat, ranges: nat, i: nat)
    requires key < maxKey && ranges > 0
    ensures RangeOf(key, maxKey, ranges) < ranges
    ensures RangeOf(key, maxKey, ranges) == i <==> First(i, maxKey, ranges) <= key < First(i + 1, maxKey, ranges)
  {
    MulOrder(key, maxKey, ranges);
    assert ranges * maxKey == maxKey * ranges;
    QuotientAtLeast(key * ranges, maxKey, ranges);
    QuotientAtLeast(key * ranges, maxKey, i);
    QuotientAtLeast(key * ranges, maxKey, i + 1);
    CeilDivAtMost(i * maxKey, ranges, key);
    CeilDivAtMost((i + 1) * maxKey, ranges, key);
  }

  /** The ranges cover the key space. */
  lemma RangesCover(maxKey: nat, ranges: nat)
    requires maxKey > 0 && ranges > 0
    ensures First(0, maxKey, ranges) == 0 && First(ranges, maxKey, ranges) == maxKey
  {
    CeilDivAtMost(0, ranges, 0);
    CeilDivAtMost(ranges * maxKey, ranges, maxKey);
    CeilDivAtMost(ranges * maxKey, ranges, maxKey - 1);
    MulOrder(maxKey - 1, maxKey, ranges);
    assert ranges * maxKey == maxKey * ranges;
  }

  /** Adding a dividend of q * b + t, with t below b, raises a rounded-up quotient by q or q + 1. */
  lemma CeilStep(x: nat, b: nat, q: nat, t: nat)
    requires t < b
    ensures q <= CeilDiv(x + q * b + t, b) - CeilDiv(x, b) <= q + 1
  {
    var lo, hi := CeilDiv(x, b), CeilDiv(x + q * b + t, b);
    CeilDivAtMost(x, b, lo);
    CeilDivAtMost(x + q * b + t, b, lo + q + 1);
    assert (lo + q + 1) * b == lo * b + q * b + b;
    CeilDivAtMost(x + q * b + t, b, hi);
    MulOrder(hi, q, b);
    if hi >= q {
      CeilDivAtMost(x, b, hi - q);
      assert (hi - q) * b == hi * b - q * b;
    }
  }

  /** The sizes of two ranges differ by at most one. */
  lemma RangesAreEven(maxKey: nat, ranges: nat, i: nat)
    requires maxKey > 0 && ranges > 0
    ensures maxKey / ranges <= First(i + 1, maxKey, ranges) - First(i, maxKey, ranges) <= maxKey / ranges + 1
  {
    Quotient(maxKey, ranges);
    var q, t := maxKey / ranges, maxKey % ranges;
    assert maxKey == q * ranges + t;
    assert (i + 1) * maxKey == i * maxKey + q * ranges + t;
    CeilStep(i * maxKey, ranges, q, t);
  }
}
