/**
 * Sliding-window solution (3/3time.cpp): a presence table of 256 flags records which
 * characters are in the current window s[i..j]; the left end i advances until the next
 * character is absent, then the character is added and the best length is updated.
 */
module LongestTime {
  import opened LongestWindow

  /** Size of the presence table: one flag per 8-bit character code. */
  const N := 256

  method LengthOfLongestSubstring(s: string) returns (res: int)
    requires forall k :: 0 <= k < |s| ==> s[k] as int < N
    ensures IsLongest(s, res)
    ensures |s| == 0 ==> res == 0
  {
    EmptyPrefixBest(s);
    if |s| == 0 {
      return 0;
    }
    var exist := new bool[N](_ => false);
    res := 0;
    var i, j := 0, 0;
    while j < |s|
      invariant 0 <= i <= j <= |s|
      invariant forall c :: 0 <= c < N ==> (exist[c] <==> Occurs(s, c as char, i, j))
      invariant DistinctRange(s, i, j)
      invariant StaleBefore(s, i, j)
      invariant BestUpTo(s, j, res)
    {
      var ch := s[j];
      StaleExtend(s, i, j);
      while exist[ch as int]
        invariant 0 <= i <= j
        invariant forall c :: 0 <= c < N ==> (exist[c] <==> Occurs(s, c as char, i, j))
        invariant DistinctRange(s, i, j)
        invariant StaleBefore(s, i, j + 1)
        decreases j - i
      {
        StaleStep(s, i, j);
        exist[s[i] as int] := false;
        i := i + 1;
      }
      exist[ch as int] := true;
      ExtendBest(s, j, res, i);
      res := if res < j - i + 1 then j - i + 1 else res;
      j := j + 1;
    }
  }
}
