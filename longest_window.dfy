/**
 * The specification shared by the two solutions of "longest substring without
 * repeating characters": what a duplicate-free window is, and what it means for a
 * number to be the length of a longest such window.  A window is given by the
 * half-open index range [lo, hi) of the string.
 */
module LongestWindow {

  /** No character occurs twice in s[lo..hi]. */
  predicate DistinctRange(s: string, lo: int, hi: int)
    requires 0 <= lo <= hi <= |s|
  {
    forall a, b :: lo <= a < b < hi ==> s[a] != s[b]
  }

  /** Character c occurs somewhere in s[lo..hi]. */
  predicate Occurs(s: string, c: char, lo: int, hi: int)
    requires 0 <= lo <= hi <= |s|
  {
    exists k :: lo <= k < hi && s[k] == c
  }

  /** Every window that starts before lo and ends at hi repeats a character. */
  predicate StaleBefore(s: string, lo: int, hi: int)
    requires 0 <= hi <= |s|
  {
    forall p :: 0 <= p < lo && p <= hi ==> !DistinctRange(s, p, hi)
  }

  /** A window that repeats a character still does after it is extended by one. */
  lemma StaleExtend(s: string, lo: int, hi: int)
    requires 0 <= lo <= hi < |s|
    requires StaleBefore(s, lo, hi)
    ensures StaleBefore(s, lo, hi + 1)
  {
    var next := hi + 1;
    forall p | 0 <= p < lo && p <= next
      ensures !DistinctRange(s, p, next)
    {
      assert !DistinctRange(s, p, hi);
    }
  }

  /**
   * When s[hi] already occurs at or after lo, the window starting at lo and ending
   * at hi + 1 repeats it, so lo can be passed over.
   */
  lemma StaleStep(s: string, lo: int, hi: int)
    requires 0 <= lo < hi < |s|
    requires StaleBefore(s, lo, hi + 1)
    requires Occurs(s, s[hi], lo, hi)
    ensures StaleBefore(s, lo + 1, hi + 1)
  {
    var k :| lo <= k < hi && s[k] == s[hi];
    assert !DistinctRange(s, lo, hi + 1) by {
      assert lo <= k < hi < hi + 1;
    }
  }

  /**
   * When s[hi] occurred at index last - 1, every window starting at or before
   * last - 1 and ending at hi + 1 repeats it.
   */
  lemma StaleAtRepeat(s: string, lo: int, last: int, hi: int)
    requires 0 <= lo && 0 < last <= hi < |s| && s[last - 1] == s[hi]
    requires StaleBefore(s, lo, hi + 1)
    ensures StaleBefore(s, if lo < last then last else lo, hi + 1)
  {
    var next := hi + 1;
    forall p | 0 <= p < last
      ensures !DistinctRange(s, p, next)
    {
      assert p <= last - 1 < hi;
    }
  }

  /**
   * Among the windows that end at or before index `end`, r is the length of a
   * longest duplicate-free one: such a window of length r exists, and none is longer.
   */
  ghost predicate BestUpTo(s: string, end: int, r: int)
    requires 0 <= end <= |s|
  {
    (exists lo, hi :: 0 <= lo <= hi <= end && hi - lo == r && DistinctRange(s, lo, hi)) &&
    (forall lo, hi :: 0 <= lo <= hi <= end && DistinctRange(s, lo, hi) ==> hi - lo <= r)
  }

  /** r is the length of a longest substring of s whose characters are all distinct. */
  ghost predicate IsLongest(s: string, r: int) {
    BestUpTo(s, |s|, r)
  }

  /** Nothing is longer than the empty prefix allows: the best window of "" has length 0. */
  lemma EmptyPrefixBest(s: string)
    ensures BestUpTo(s, 0, 0)
  {
    assert DistinctRange(s, 0, 0);
  }

  /**
   * The step both solutions take: when [lo, end + 1) is duplicate-free and every window
   * that starts before lo and ends at end + 1 repeats a character, the best length
   * grows to the larger of the old best and end + 1 - lo.
   */
  lemma ExtendBest(s: string, end: int, r: int, lo: int)
    requires 0 <= lo <= end < |s|
    requires BestUpTo(s, end, r)
    requires DistinctRange(s, lo, end + 1)
    requires StaleBefore(s, lo, end + 1)
    ensures BestUpTo(s, end + 1, if r < end + 1 - lo then end + 1 - lo else r)
  {
    var r' := if r < end + 1 - lo then end + 1 - lo else r;
    forall p, q | 0 <= p <= q <= end + 1 && DistinctRange(s, p, q)
      ensures q - p <= r'
    {
      if q == end + 1 {
        assert lo <= p;
      }
    }
    if r < end + 1 - lo {
      assert DistinctRange(s, lo, end + 1);
    } else {
      var p, q :| 0 <= p <= q <= end && q - p == r && DistinctRange(s, p, q);
      assert 0 <= p <= q <= end + 1;
    }
  }

  /** The longest length is determined by the string: two answers that meet IsLongest agree. */
  lemma LongestUnique(s: string, r1: int, r2: int)
    requires IsLongest(s, r1) && IsLongest(s, r2)
    ensures r1 == r2
  {
    var p1, q1 :| 0 <= p1 <= q1 <= |s| && q1 - p1 == r1 && DistinctRange(s, p1, q1);
    var p2, q2 :| 0 <= p2 <= q2 <= |s| && q2 - p2 == r2 && DistinctRange(s, p2, q2);
  }

  /**
   * The longest length lies between 0 and |s|, is 0 for the empty string and at
   * least 1 for any other string (a single character is always duplicate-free).
   */
  lemma LongestBounds(s: string, r: int)
    requires IsLongest(s, r)
    ensures 0 <= r <= |s|
    ensures |s| == 0 <==> r == 0
  {
    if |s| > 0 {
      assert DistinctRange(s, 0, 1);
    }
  }
}
