/**
 * Binary string to permutation (binary_permutation_ultimate.cpp).  Given n, k and a
 * string s of n characters '0'/'1', solve answers NO or YES with a permutation p of
 * 1..n: '1' positions receive the small values 1..m in order, '0' positions the
 * large values.  Before building p it runs a feasibility scan that looks for a '0'
 * next to every '1', and after building it checks the result with is_valid.
 */
module BinaryPermutation {

  datatype Answer = No | Yes(p: seq<int>)

  function Max(a: int, b: int): int { if a < b then b else a }
  function Min(a: int, b: int): int { if a < b then a else b }

  /** min_l: the first start of a length-k window that contains pos. */
  function MinL(pos: int, k: int): int { Max(0, pos - k + 1) }

  /** max_l: the last start of a length-k window that contains pos and fits in 0..n-1. */
  function MaxL(pos: int, n: int, k: int): int { Min(pos, n - k) }

  /** The string holds only '0' and '1'. */
  predicate Binary(s: string) {
    forall i :: 0 <= i < |s| ==> s[i] == '0' || s[i] == '1'
  }

  /** No position of s holds '1', so the vector `ones` stays empty. */
  predicate NoOnes(s: string) {
    forall i :: 0 <= i < |s| ==> s[i] != '1'
  }

  /** 1, 2, ..., n: the permutation printed for k == 1 and for k > n. */
  function Identity(n: nat): (p: seq<int>)
    ensures |p| == n && forall i :: 0 <= i < n ==> p[i] == i + 1
  {
    seq(n, i => i + 1)
  }

  /**
   * A permutation of 1..n: n values, each in 1..n, no two equal (with n slots and n
   * possible values this means every value of 1..n occurs exactly once).
   */
  ghost predicate IsPermutation(p: seq<int>, n: int) {
    |p| == n &&
    (forall i :: 0 <= i < |p| ==> 1 <= p[i] <= n) &&
    (forall i, j :: 0 <= i < j < |p| ==> p[i] != p[j])
  }

  // ---------------------------------------------------------------------------
  // Counting characters.

  /** Number of positions in [lo, hi) holding c. */
  function CountIn(s: string, c: char, lo: int, hi: int): (r: nat)
    requires 0 <= lo <= hi <= |s|
    ensures r <= hi - lo
    decreases hi - lo
  {
    if lo == hi then 0 else CountIn(s, c, lo, hi - 1) + (if s[hi - 1] == c then 1 else 0)
  }

  lemma {:induction false} CountSplit(s: string, c: char, lo: int, mid: int, hi: int)
    requires 0 <= lo <= mid <= hi <= |s|
    ensures CountIn(s, c, lo, hi) == CountIn(s, c, lo, mid) + CountIn(s, c, mid, hi)
    decreases hi - mid
  {
    if mid < hi {
      CountSplit(s, c, lo, mid, hi - 1);
    }
  }

  /** Counting one more position adds one exactly when it holds c. */
  lemma CountStep(s: string, c: char, lo: int, i: int)
    requires 0 <= lo <= i < |s|
    ensures CountIn(s, c, lo, i + 1) == CountIn(s, c, lo, i) + (if s[i] == c then 1 else 0)
    ensures CountIn(s, c, i, |s|) == CountIn(s, c, i + 1, |s|) + (if s[i] == c then 1 else 0)
  {
    CountSplit(s, c, i, i + 1, |s|);
  }

  /** In a binary string every position is counted as either '0' or '1'. */
  lemma {:induction false} CountBinary(s: string, hi: int)
    requires Binary(s) && 0 <= hi <= |s|
    ensures CountIn(s, '0', 0, hi) + CountIn(s, '1', 0, hi) == hi
  {
    if hi > 0 {
      CountBinary(s, hi - 1);
    }
  }

  // ---------------------------------------------------------------------------
  // The two fills.

  /** The value the fill gives a '1' at i: 1 + the number of '1's before it. */
  function OneValue(s: string, i: int): int
    requires 0 <= i < |s|
  {
    CountIn(s, '1', 0, i) + 1
  }

  /** The value lines 123-127 give a '0' at i: n - the number of '0's after it. */
  function ZeroValueFromRight(s: string, i: int): int
    requires 0 <= i < |s|
  {
    |s| - CountIn(s, '0', i + 1, |s|)
  }

  /** The value lines 138-143 give a '0' at i: n - the number of '0's before it. */
  function ZeroValueFromLeft(s: string, i: int): int
    requires 0 <= i < |s|
  {
    |s| - CountIn(s, '0', 0, i)
  }

  /**
   * p after lines 112-127: the zero vector, then every '1' gets its small value and
   * every '0' its value from the right-to-left fill; any other character keeps 0.
   */
  function FillFromRight(s: string): (p: seq<int>)
    ensures |p| == |s|
    ensures forall i :: 0 <= i < |s| ==> (s[i] == '0' || s[i] == '1' <==> 1 <= p[i] <= |s|)
  {
    seq(|s|, i requires 0 <= i < |s| =>
      if s[i] == '1' then OneValue(s, i) else if s[i] == '0' then ZeroValueFromRight(s, i) else 0)
  }

  /** p after the retry of lines 138-143: the '1' values are kept, the '0's refilled. */
  function FillFromLeft(s: string): (p: seq<int>)
    ensures |p| == |s|
    ensures forall i :: 0 <= i < |s| ==> (s[i] == '0' || s[i] == '1' <==> 1 <= p[i] <= |s|)
  {
    seq(|s|, i requires 0 <= i < |s| =>
      if s[i] == '1' then OneValue(s, i) else if s[i] == '0' then ZeroValueFromLeft(s, i) else 0)
  }

  /** A '1' gets a value in 1..m, where m is the number of '1's. */
  lemma OneValueRange(s: string, i: int)
    requires 0 <= i < |s| && s[i] == '1'
    ensures 1 <= OneValue(s, i) <= CountIn(s, '1', 0, |s|)
  {
    CountStep(s, '1', 0, i);
    CountSplit(s, '1', 0, i + 1, |s|);
  }

  /** '1' values increase from left to right. */
  lemma OneValueIncreasing(s: string, i: int, j: int)
    requires 0 <= i < j < |s| && s[i] == '1'
    ensures OneValue(s, i) < OneValue(s, j)
  {
    CountStep(s, '1', 0, i);
    CountSplit(s, '1', 0, i + 1, j);
  }

  /** In a binary string a '0' gets a value in m+1..n from either fill. */
  lemma ZeroValueRange(s: string, i: int)
    requires Binary(s) && 0 <= i < |s| && s[i] == '0'
    ensures CountIn(s, '1', 0, |s|) < ZeroValueFromRight(s, i) <= |s|
    ensures CountIn(s, '1', 0, |s|) < ZeroValueFromLeft(s, i) <= |s|
  {
    CountBinary(s, |s|);
    CountStep(s, '0', 0, i);
    CountSplit(s, '0', 0, i, |s|);
  }

  /**
   * Between two '0's, the right-to-left fill gives the later one the larger value
   * and the left-to-right fill the smaller one.
   */
  lemma ZeroValueOrder(s: string, i: int, j: int)
    requires 0 <= i < j < |s| && s[i] == '0' && s[j] == '0'
    ensures ZeroValueFromRight(s, i) < ZeroValueFromRight(s, j)
    ensures ZeroValueFromLeft(s, i) > ZeroValueFromLeft(s, j)
  {
    CountStep(s, '0', 0, j);
    CountSplit(s, '0', i + 1, j, |s|);
    CountStep(s, '0', 0, i);
    CountSplit(s, '0', 0, i + 1, j);
  }

  /**
   * The fill of lines 112-127 gives a binary string a permutation of 1..n in which
   * the '1's hold 1..m increasing left to right, the '0's hold m+1..n increasing left
   * to right, and so every '1' value is below every '0' value.
   */
  lemma FillFromRightFacts(s: string)
    requires Binary(s)
    ensures IsPermutation(FillFromRight(s), |s|)
    ensures forall i :: 0 <= i < |s| ==>
      (s[i] == '1' <==> FillFromRight(s)[i] <= CountIn(s, '1', 0, |s|))
    ensures forall i, j :: 0 <= i < j < |s| && s[i] == s[j] ==> FillFromRight(s)[i] < FillFromRight(s)[j]
  {
    var m, p := CountIn(s, '1', 0, |s|), FillFromRight(s);
    forall i | 0 <= i < |s|
      ensures 1 <= p[i] <= |s| && (s[i] == '1' <==> p[i] <= m)
    {
      if s[i] == '1' { OneValueRange(s, i); } else { ZeroValueRange(s, i); }
    }
    forall i, j | 0 <= i < j < |s|
      ensures p[i] != p[j] && (s[i] == s[j] ==> p[i] < p[j])
    {
      if s[i] == '1' && s[j] == '1' {
        OneValueIncreasing(s, i, j);
      } else if s[i] == '0' && s[j] == '0' {
        ZeroValueOrder(s, i, j);
      } else if s[i] == '1' {
        OneValueRange(s, i);
        ZeroValueRange(s, j);
      } else {
        ZeroValueRange(s, i);
        OneValueRange(s, j);
      }
    }
  }

  /**
   * The retry fill of lines 138-143 keeps every '1' value, gives the '0's n, n-1, ...
   * from left to right, and still yields a permutation of 1..n.
   */
  lemma FillFromLeftFacts(s: string)
    requires Binary(s)
    ensures IsPermutation(FillFromLeft(s), |s|)
    ensures forall i :: 0 <= i < |s| && s[i] == '1' ==> FillFromLeft(s)[i] == FillFromRight(s)[i]
    ensures forall i, j :: 0 <= i < j < |s| && s[i] == '0' && s[j] == '0' ==>
      FillFromLeft(s)[i] > FillFromLeft(s)[j]
  {
    var p := FillFromLeft(s);
    forall i | 0 <= i < |s|
      ensures 1 <= p[i] <= |s|
    {
      if s[i] == '1' { OneValueRange(s, i); } else { ZeroValueRange(s, i); }
    }
    forall i, j | 0 <= i < j < |s|
      ensures p[i] != p[j] && (s[i] == '0' && s[j] == '0' ==> p[i] > p[j])
    {
      if s[i] == '1' && s[j] == '1' {
        OneValueIncreasing(s, i, j);
      } else if s[i] == '0' && s[j] == '0' {
        ZeroValueOrder(s, i, j);
      } else if s[i] == '1' {
        OneValueRange(s, i);
        ZeroValueRange(s, j);
      } else {
        ZeroValueRange(s, i);
        OneValueRange(s, j);
      }
    }
  }

  // ---------------------------------------------------------------------------
  // The scans.

  /**
   * The feasibility test of lines 79-98 at one '1' position: either no length-k
   * window contains pos, or a '0' lies in the checked range, which is the window
   * range [min_l, max_l + k - 1] cut down to pos - 1 .. pos + 1.
   */
  predicate FeasibleAt(s: string, n: int, k: int, pos: int)
    requires |s| == n && 0 <= pos < n
  {
    MinL(pos, k) > MaxL(pos, n, k) ||
    exists i :: Max(MinL(pos, k), pos - 1) <= i <= Min(MaxL(pos, n, k) + k - 1, pos + 1) && s[i] == '0'
  }

  /** The feasibility scan passes: the test holds at every '1'. */
  predicate Feasible(s: string, n: int, k: int)
    requires |s| == n
  {
    forall pos :: 0 <= pos < n && s[pos] == '1' ==> FeasibleAt(s, n, k, pos)
  }

  /**
   * is_valid's test at one '1' position: either no length-k window contains pos, or a
   * '0' lies in the scanned left part [max(min_l, pos - 1), pos - 1] or in the scanned
   * right part [pos + 1, min(max_l, pos + 1) + k - 1] cut at n - 1.
   */
  predicate ValidAt(s: string, n: int, k: int, pos: int)
    requires |s| == n && 0 <= pos < n
  {
    MinL(pos, k) > MaxL(pos, n, k) ||
    (pos > 0 && exists i :: Max(MinL(pos, k), pos - 1) <= i <= pos - 1 && s[i] == '0') ||
    (pos < n - 1 &&
     exists i :: pos + 1 <= i <= Min(Min(MaxL(pos, n, k), pos + 1) + k - 1, n - 1) && s[i] == '0')
  }

  /** For 1 <= k <= n every position lies in at least one length-k window. */
  lemma WindowRangeNonEmpty(pos: int, n: int, k: int)
    requires 1 <= k <= n && 0 <= pos < n
    ensures 0 <= MinL(pos, k) <= MaxL(pos, n, k) && MaxL(pos, n, k) + k - 1 <= n - 1
  {
  }

  /**
   * Conversely, a position of 0..n-1 lies in some length-k window only for 1 <= k <= n,
   * so the window end max_l + k - 1 reached after the test stays below n.
   */
  lemma WindowRangeForcesK(pos: int, n: int, k: int)
    requires 0 <= pos < n && MinL(pos, k) <= MaxL(pos, n, k)
    ensures 1 <= k <= n && MaxL(pos, n, k) + k - 1 <= n - 1
  {
  }

  /**
   * Once the feasibility test holds at a '1', is_valid's test holds there too (for
   * every k other than 1 and at most n), so the first is_valid call never fails after
   * the feasibility scan passed.
   */
  lemma FeasibleImpliesValid(s: string, n: int, k: int, pos: int)
    requires |s| == n && 0 <= pos < n && s[pos] == '1'
    requires k != 1 && k <= n
    requires FeasibleAt(s, n, k, pos)
    ensures ValidAt(s, n, k, pos)
  {
    if MinL(pos, k) <= MaxL(pos, n, k) {
      var i :| Max(MinL(pos, k), pos - 1) <= i <= Min(MaxL(pos, n, k) + k - 1, pos + 1) && s[i] == '0';
      if i < pos {
        assert pos > 0 && Max(MinL(pos, k), pos - 1) <= i <= pos - 1;
      } else {
        assert pos + 1 <= i <= Min(Min(MaxL(pos, n, k), pos + 1) + k - 1, n - 1);
      }
    }
  }

  // ---------------------------------------------------------------------------
  // The imperative parts of solve.

  /** Lines 49-54: the positions of '1', in increasing order. */
  method CollectOnes(n: int, s: string) returns (ones: seq<int>)
    requires |s| == n
    ensures forall j :: 0 <= j < |ones| ==> 0 <= ones[j] < n && s[ones[j]] == '1'
    ensures forall j1, j2 :: 0 <= j1 < j2 < |ones| ==> ones[j1] < ones[j2]
    ensures forall pos :: 0 <= pos < n && s[pos] == '1' ==> pos in ones
  {
    ones := [];
    for i := 0 to n
      invariant forall j :: 0 <= j < |ones| ==> 0 <= ones[j] < i && s[ones[j]] == '1'
      invariant forall j1, j2 :: 0 <= j1 < j2 < |ones| ==> ones[j1] < ones[j2]
      invariant forall pos :: 0 <= pos < i && s[pos] == '1' ==> pos in ones
    {
      if s[i] == '1' {
        ones := ones + [i];
      }
    }
  }

  /** Lines 76-104: the feasibility scan over `ones`, with its break flags. */
  method FeasibilityScan(ones: seq<int>, k: int, n: int, s: string) returns (possible: bool)
    requires |s| == n
    requires forall j :: 0 <= j < |ones| ==> 0 <= ones[j] < n
    ensures possible <==> forall j :: 0 <= j < |ones| ==> FeasibleAt(s, n, k, ones[j])
  {
    possible := true;
    for j := 0 to |ones|
      invariant possible
      invariant forall t :: 0 <= t < j ==> FeasibleAt(s, n, k, ones[t])
    {
      var pos := ones[j];
      var minL, maxL := MinL(pos, k), MaxL(pos, n, k);
      if minL > maxL {
        continue;
      }
      var hasZero := false;
      var start, end := minL, maxL + k - 1;
      var checkStart, checkEnd := Max(start, pos - 1), Min(end, pos + 1);
      if checkStart <= checkEnd {
        var i := checkStart;
        while i <= checkEnd
          invariant checkStart <= i <= checkEnd + 1
          invariant forall t :: checkStart <= t < i ==> s[t] != '0'
        {
          if s[i] == '0' {
            hasZero := true;
            break;
          }
          i := i + 1;
        }
      }
      if !hasZero {
        possible := false;
        break;
      }
    }
  }

  /**
   * is_valid (lines 5-42).  It reads p[pos] into an unused variable and nothing
   * else of p, so its result depends on ones, k, n and s only.
   */
  method IsValid(p: seq<int>, ones: seq<int>, k: int, n: int, s: string) returns (ok: bool)
    requires |s| == n && |p| == n
    requires forall j :: 0 <= j < |ones| ==> 0 <= ones[j] < n
    ensures ok <==> forall j :: 0 <= j < |ones| ==> ValidAt(s, n, k, ones[j])
  {
    for j := 0 to |ones|
      invariant forall t :: 0 <= t < j ==> ValidAt(s, n, k, ones[t])
    {
      var pos := ones[j];
      var val := p[pos];
      var minL, maxL := MinL(pos, k), MaxL(pos, n, k);
      if minL > maxL {
        continue;
      }
      var hasLarger := false;
      if pos > 0 {
        var leftEnd := Max(minL, pos - 1);
        var i := pos - 1;
        while i >= leftEnd
          invariant leftEnd - 1 <= i <= pos - 1
          invariant forall t :: i < t <= pos - 1 ==> s[t] != '0'
        {
          if s[i] == '0' {
            hasLarger := true;
            break;
          }
          i := i - 1;
        }
      }
      if !hasLarger && pos < n - 1 {
        var rightStart := Min(maxL, pos + 1);
        var i := pos + 1;
        while i <= rightStart + k - 1
          invariant pos + 1 <= i <= n
          invariant forall t :: pos + 1 <= t < i ==> s[t] != '0'
          decreases rightStart + k - i
        {
          if i >= n {
            break;
          }
          if s[i] == '0' {
            hasLarger := true;
            break;
          }
          i := i + 1;
        }
      }
      if !hasLarger {
        return false;
      }
    }
    return true;
  }

  /** Lines 116-120: every '1' gets the next small value. */
  method FillOnes(p: array<int>, s: string)
    requires p.Length == |s|
    modifies p
    ensures forall i :: 0 <= i < p.Length ==>
      p[i] == if s[i] == '1' then OneValue(s, i) else old(p[i])
  {
    var small := 1;
    for i := 0 to p.Length
      invariant small == CountIn(s, '1', 0, i) + 1
      invariant forall t :: 0 <= t < i ==>
        p[t] == if s[t] == '1' then OneValue(s, t) else old(p[t])
      invariant forall t :: i <= t < p.Length ==> p[t] == old(p[t])
    {
      CountStep(s, '1', 0, i);
      if s[i] == '1' {
        p[i] := small;
        small := small + 1;
      }
    }
  }

  /** Lines 123-127: the '0' positions, right to left, get n, n-1, ... */
  method FillZerosFromRight(p: array<int>, s: string)
    requires p.Length == |s|
    modifies p
    ensures forall i :: 0 <= i < p.Length ==>
      p[i] == if s[i] == '0' then ZeroValueFromRight(s, i) else old(p[i])
  {
    var n := p.Length;
    var large := n;
    var i := n - 1;
    while i >= 0
      invariant -1 <= i <= n - 1
      invariant large == n - CountIn(s, '0', i + 1, n)
      invariant forall t :: i < t < n ==>
        p[t] == if s[t] == '0' then ZeroValueFromRight(s, t) else old(p[t])
      invariant forall t :: 0 <= t <= i ==> p[t] == old(p[t])
    {
      CountStep(s, '0', 0, i);
      if s[i] == '0' {
        p[i] := large;
        large := large - 1;
      }
      i := i - 1;
    }
  }

  /** Lines 138-143: the '0' positions, left to right, get n, n-1, ... */
  method FillZerosFromLeft(p: array<int>, s: string)
    requires p.Length == |s|
    modifies p
    ensures forall i :: 0 <= i < p.Length ==>
      p[i] == if s[i] == '0' then ZeroValueFromLeft(s, i) else old(p[i])
  {
    var n := p.Length;
    var large := n;
    for i := 0 to n
      invariant large == n - CountIn(s, '0', 0, i)
      invariant forall t :: 0 <= t < i ==>
        p[t] == if s[t] == '0' then ZeroValueFromLeft(s, t) else old(p[t])
      invariant forall t :: i <= t < n ==> p[t] == old(p[t])
    {
      CountStep(s, '0', 0, i);
      if s[i] == '0' {
        p[i] := large;
        large := large - 1;
      }
    }
  }

  /**
   * solve without the I/O: k == 1 answers YES with 1..n exactly when s has no '1';
   * otherwise k > n answers YES with 1..n; otherwise the answer is YES exactly when
   * the feasibility scan passes, and then p is the first fill (the retry with the
   * left-to-right fill is never reached).
   */
  method Solve(n: int, k: int, s: string) returns (ans: Answer)
    requires |s| == n
    ensures k == 1 ==> ans == if NoOnes(s) then Yes(Identity(n)) else No
    ensures k != 1 && k > n ==> ans == Yes(Identity(n))
    ensures k != 1 && k <= n ==> (ans.Yes? <==> Feasible(s, n, k))
    ensures k != 1 && k <= n && ans.Yes? ==> ans.p == FillFromRight(s)
    ensures Binary(s) && ans.Yes? ==> IsPermutation(ans.p, n)
  {
    var ones := CollectOnes(n, s);
    if k == 1 {
      if |ones| == 0 {
        return Yes(Identity(n));
      }
      assert ones[0] in ones;
      return No;
    }
    if k > n {
      return Yes(Identity(n));
    }
    var possible := FeasibilityScan(ones, k, n, s);
    assert possible <==> Feasible(s, n, k) by {
      if possible {
        forall pos | 0 <= pos < n && s[pos] == '1'
          ensures FeasibleAt(s, n, k, pos)
        {
          assert pos in ones;
        }
      }
    }
    if !possible {
      return No;
    }
    var p := new int[n](_ => 0);
    FillOnes(p, s);
    FillZerosFromRight(p, s);
    assert p[..] == FillFromRight(s);
    if Binary(s) {
      FillFromRightFacts(s);
    }
    var first := IsValid(p[..], ones, k, n, s);
    if first {
      ans := Yes(p[..]);
    } else {
      FillZerosFromLeft(p, s);
      var refilled := p[..];
      var second := IsValid(refilled, ones, k, n, s);
      if second {
        ans := Yes(refilled);
      } else {
        ans := No;
      }
    }
    forall j | 0 <= j < |ones|
      ensures ValidAt(s, n, k, ones[j])
    {
      FeasibleImpliesValid(s, n, k, ones[j]);
    }
  }

  // ---------------------------------------------------------------------------
  // The condition the scans stand for.  The comments of the source state it: a
  // '1' position must never hold the maximum of a length-k window that contains it
  // (line 56), so each such window needs a '0' (lines 13 and 76).  The scans only
  // look for a '0' next to each '1', which is neither necessary nor sufficient.

  /** Every position of the length-k window starting at l holds '1'. */
  predicate OnesFrom(s: string, l: int, k: int)
    requires 0 <= l && l + k <= |s|
  {
    forall t :: l <= t < l + k ==> s[t] == '1'
  }

  /** Some length-k window (k >= 1) consists of '1's only. */
  predicate HasOnesWindow(s: string, k: int) {
    k >= 1 && exists l :: 0 <= l && l + k <= |s| && OnesFrom(s, l, k)
  }

  /**
   * The requirement on the answer: in every length-k window, every '1' position is
   * beaten by a larger value elsewhere in the window.
   */
  ghost predicate NoOneIsWindowMax(p: seq<int>, s: string, k: int)
    requires |p| == |s|
  {
    forall l, i :: 0 <= l && l + k <= |s| && l <= i < l + k && s[i] == '1' ==> BeatenIn(p, l, k, i)
  }

  /** Some position of the length-k window starting at l holds a value above p[i]. */
  ghost predicate BeatenIn(p: seq<int>, l: int, k: int, i: int)
    requires 0 <= l && l + k <= |p| && 0 <= i < |p|
  {
    exists j :: l <= j < l + k && p[j] > p[i]
  }

  /** A non-empty range of p has a position holding its maximum. */
  lemma {:induction false} WindowArgMax(p: seq<int>, lo: int, hi: int) returns (j: int)
    requires 0 <= lo < hi <= |p|
    ensures lo <= j < hi && forall t :: lo <= t < hi ==> p[t] <= p[j]
    decreases hi - lo
  {
    if hi - lo == 1 {
      j := lo;
    } else {
      var j' := WindowArgMax(p, lo, hi - 1);
      j := if p[hi - 1] > p[j'] then hi - 1 else j';
    }
  }

  /** A window of '1's defeats every candidate: its maximum sits at a '1'. */
  lemma OnesWindowDefeatsAll(p: seq<int>, s: string, k: int)
    requires |p| == |s| && HasOnesWindow(s, k)
    ensures !NoOneIsWindowMax(p, s, k)
  {
    var l :| 0 <= l && l + k <= |s| && OnesFrom(s, l, k);
    var j := WindowArgMax(p, l, l + k);
    assert s[j] == '1';
    assert !BeatenIn(p, l, k, j);
  }

  /**
   * Without a window of '1's, the first fill of a binary string meets the requirement:
   * each window holds a '0', whose value is above every '1' value.
   */
  lemma FillFromRightMeetsRequirement(s: string, k: int)
    requires Binary(s) && !HasOnesWindow(s, k)
    ensures NoOneIsWindowMax(FillFromRight(s), s, k)
  {
    var p, m := FillFromRight(s), CountIn(s, '1', 0, |s|);
    FillFromRightFacts(s);
    forall l, i | 0 <= l && l + k <= |s| && l <= i < l + k && s[i] == '1'
      ensures BeatenIn(p, l, k, i)
    {
      assert !OnesFrom(s, l, k);
      var j :| l <= j < l + k && s[j] != '1';
      assert p[i] <= m < p[j];
    }
  }

  /**
   * solve as its comments intend it: NO exactly when some length-k window is all
   * '1's, YES with the first fill otherwise (k == 1 and k > n as in the source).
   */
  function SolveIntended(n: int, k: int, s: string): (ans: Answer)
    requires |s| == n && Binary(s)
    ensures ans.Yes? ==> IsPermutation(ans.p, n) && NoOneIsWindowMax(ans.p, s, k)
    ensures ans.No? ==> forall p :: |p| == n ==> !NoOneIsWindowMax(p, s, k)
  {
    if k == 1 then
      if NoOnes(s) then
        NoOnesNoWindow(s, k);
        Yes(Identity(n))
      else
        var i :| 0 <= i < n && s[i] == '1';
        assert OnesFrom(s, i, 1);
        OnesDefeatAll(s, k);
        No
    else if k > n then
      Yes(Identity(n))
    else if HasOnesWindow(s, k) then
      OnesDefeatAll(s, k);
      No
    else
      FillFromRightFacts(s);
      FillFromRightMeetsRequirement(s, k);
      Yes(FillFromRight(s))
  }

  /** Without any '1' there is no window of '1's. */
  lemma NoOnesNoWindow(s: string, k: int)
    requires NoOnes(s) && k >= 1
    ensures !HasOnesWindow(s, k)
  {
    forall l | 0 <= l && l + k <= |s|
      ensures !OnesFrom(s, l, k)
    {
      assert s[l] != '1';
    }
  }

  /** With a window of '1's no sequence of values meets the requirement. */
  lemma OnesDefeatAll(s: string, k: int)
    requires HasOnesWindow(s, k)
    ensures forall p :: |p| == |s| ==> !NoOneIsWindowMax(p, s, k)
  {
    forall p | |p| == |s|
      ensures !NoOneIsWindowMax(p, s, k)
    {
      OnesWindowDefeatsAll(p, s, k);
    }
  }

  /**
   * The scan accepts "0110" with k = 2 (every '1' has a '0' beside it), so solve
   * answers YES with the first fill, 3 1 2 4; yet the window 1..2 is all '1's, and no
   * answer can meet the requirement.
   */
  lemma ScanAcceptsOnesWindow()
    ensures Feasible("0110", 4, 2)
    ensures FillFromRight("0110") == [3, 1, 2, 4]
    ensures HasOnesWindow("0110", 2)
    ensures SolveIntended(4, 2, "0110") == No
  {
    ScanPassesOn0110();
    FirstFillOf0110();
    OnesWindowIn0110();
  }

  /** Both '1's of "0110" find a '0' beside them. */
  lemma ScanPassesOn0110()
    ensures Feasible("0110", 4, 2)
  {
    var s := "0110";
    assert FeasibleAt(s, 4, 2, 1) by { assert s[0] == '0'; }
    assert FeasibleAt(s, 4, 2, 2) by { assert s[3] == '0'; }
  }

  /** Positions 1..2 of "0110" form a window of '1's, so the intended answer is NO. */
  lemma OnesWindowIn0110()
    ensures HasOnesWindow("0110", 2)
    ensures SolveIntended(4, 2, "0110") == No
  {
    assert OnesFrom("0110", 1, 2);
  }

  /** The first fill of "0110", entry by entry. */
  lemma FirstFillOf0110()
    ensures FillFromRight("0110") == [3, 1, 2, 4]
  {
    var s := "0110";
    assert CountIn(s, '1', 0, 1) == 0 && CountIn(s, '1', 0, 2) == 1;
    assert CountIn(s, '0', 1, 4) == 1 && CountIn(s, '0', 4, 4) == 0;
    assert OneValue(s, 1) == 1 && OneValue(s, 2) == 2;
    assert ZeroValueFromRight(s, 0) == 3 && ZeroValueFromRight(s, 3) == 4;
  }

  /**
   * The scan rejects "01110" with k = 4 (the middle '1' has no '0' beside it), so
   * solve answers NO; yet both length-4 windows hold a '0', and the first fill meets
   * the requirement.
   */
  lemma ScanRejectsSolvable()
    ensures !Feasible("01110", 5, 4)
    ensures !HasOnesWindow("01110", 4)
    ensures SolveIntended(5, 4, "01110") == Yes(FillFromRight("01110"))
  {
    var s := "01110";
    assert !FeasibleAt(s, 5, 4, 2);
    assert s[2] == '1';
    assert !OnesFrom(s, 0, 4) by { assert s[0] == '0'; }
    assert !OnesFrom(s, 1, 4) by { assert s[4] == '0'; }
  }
}
