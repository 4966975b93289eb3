/**
 * Last-occurrence solution (3/3memory.cpp): an[c] remembers one past the last index at
 * which character c was seen, so the left bound l of the window jumps straight past the
 * previous occurrence of the current character.
 */
module LongestMemory {
  import opened LongestWindow

  /** Size of the last-occurrence table: one entry per 7-bit character code. */
  const Table := 128

  /**
   * One past the last index below i at which c occurs in s, or 0 when c does not
   * occur in s[..i]: the value the table holds for c after i characters.
   */
  function LastSeen(s: string, c: char, i: nat): (r: nat)
    requires i <= |s|
    ensures r <= i
    ensures r > 0 ==> s[r - 1] == c
    ensures forall k :: r <= k < i ==> s[k] != c
  {
    if i == 0 then 0 else if s[i - 1] == c then i else LastSeen(s, c, i - 1)
  }

  /**
   * Moving the left bound to max(l, an[s[i]]) keeps the window duplicate-free once
   * s[i] joins it, and passes only starts whose windows repeat a character.
   */
  lemma JumpPastLast(s: string, l: int, i: int)
    requires 0 <= l <= i < |s|
    requires DistinctRange(s, l, i) && StaleBefore(s, l, i)
    ensures var last := LastSeen(s, s[i], i);
      var l' := if l < last then last else l;
      l' <= i && DistinctRange(s, l', i + 1) && StaleBefore(s, l', i + 1)
  {
    var last := LastSeen(s, s[i], i);
    var l' := if l < last then last else l;
    var next := i + 1;
    forall a, b | l' <= a < b < next
      ensures s[a] != s[b]
    {
      if b < i {
        assert l <= a < b < i;
      } else {
        assert last <= a < i;
      }
    }
    assert DistinctRange(s, l', next);
    if i > 0 {
      StaleExtend(s, l, i);
    }
    if last > 0 {
      StaleAtRepeat(s, l, last, i);
    }
  }

  /** The table t holds LastSeen for every character code after i characters of s. */
  ghost predicate TableAt(t: seq<int>, s: string, i: nat)
    requires i <= |s|
  {
    |t| == Table && forall c :: 0 <= c < Table ==> t[c] == LastSeen(s, c as char, i)
  }

  /** Recording position i for s[i] turns the table after i characters into the one after i + 1. */
  lemma TableStep(t: seq<int>, s: string, i: nat)
    requires i < |s| && s[i] as int < Table
    requires TableAt(t, s, i)
    ensures TableAt(t[s[i] as int := i + 1], s, i + 1)
  {
    var t' := t[s[i] as int := i + 1];
    forall c | 0 <= c < Table
      ensures t'[c] == LastSeen(s, c as char, i + 1)
    {
      if c != s[i] as int {
        assert c as char != s[i];
      }
    }
  }

  method LengthOfLongestSubstring(s: string) returns (ma: int)
    requires forall k :: 0 <= k < |s| ==> s[k] as int < Table
    ensures IsLongest(s, ma)
    ensures |s| == 0 ==> ma == 0
  {
    var an := new int[Table](_ => 0);
    ma := 0;
    var l := 0;
    EmptyPrefixBest(s);
    for i := 0 to |s|
      invariant 0 <= l <= i
      invariant TableAt(an[..], s, i)
      invariant DistinctRange(s, l, i)
      invariant StaleBefore(s, l, i)
      invariant BestUpTo(s, i, ma)
    {
      var ch := s[i] as int;
      var last := an[ch];
      assert last == LastSeen(s, s[i], i);
      JumpPastLast(s, l, i);
      l := if l < last then last else l;
      TableStep(an[..], s, i);
      an[ch] := i + 1;
      ExtendBest(s, i, ma, l);
      ma := if ma < i - l + 1 then i - l + 1 else ma;
    }
  }
}

/** Both solutions compute the same number on every string both accept. */
module LongestCompare {
  import LongestWindow
  import LongestTime
  import LongestMemory

  method BothAgree(s: string) returns (byTime: int, byMemory: int)
    requires forall k :: 0 <= k < |s| ==> s[k] as int < LongestMemory.Table
    ensures byTime == byMemory
    ensures LongestWindow.IsLongest(s, byTime)
  {
    byTime := LongestTime.LengthOfLongestSubstring(s);
    byMemory := LongestMemory.LengthOfLongestSubstring(s);
    LongestWindow.LongestUnique(s, byTime, byMemory);
  }
}
