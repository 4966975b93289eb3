/**
 * Gear duplicate check (gear.py): for each test case the answer is "YES" when the
 * list of tooth counts holds some value twice, computed as "the list is longer than
 * the set of its values"; the answers are collected in input order.
 */
module Gear {

  /** One test case as parsed: the declared gear count n (never used) and the tooth counts. */
  datatype Case = Case(n: int, teeth: seq<int>)

  /** The set of values in the list, set(teeth). */
  function Values(teeth: seq<int>): (vals: set<int>)
    ensures forall x :: x in vals <==> x in teeth
  {
    set x | x in teeth
  }

  /**
   * The decision in gear.py: len(teeth) != len(set(teeth)), which holds exactly when
   * two positions of the list hold the same tooth count.
   */
  predicate HasDuplicate(teeth: seq<int>): (dup: bool)
    ensures dup <==> TwoEqual(teeth)
  {
    DuplicateMeaning(teeth);
    |teeth| != |Values(teeth)|
  }

  /** Two distinct positions hold the same tooth count. */
  predicate TwoEqual(teeth: seq<int>) {
    exists i, j :: 0 <= i < j < |teeth| && teeth[i] == teeth[j]
  }

  /** The string appended to results for one case. */
  function Answer(teeth: seq<int>): (r: string)
    ensures r == "YES" || r == "NO"
    ensures r == "YES" <==> TwoEqual(teeth)
  {
    if HasDuplicate(teeth) then "YES" else "NO"
  }

  lemma ValuesSnoc(init: seq<int>, x: int)
    ensures Values(init + [x]) == Values(init) + {x}
  {
    assert forall y :: y in init + [x] <==> y in init || y == x;
  }

  /** Appending a value repeats a value exactly when it was already there or already repeated. */
  lemma TwoEqualSnoc(init: seq<int>, x: int)
    ensures TwoEqual(init + [x]) <==> TwoEqual(init) || x in init
  {
    var teeth := init + [x];
    if TwoEqual(teeth) && !TwoEqual(init) {
      var i, j :| 0 <= i < j < |teeth| && teeth[i] == teeth[j];
      if j == |init| {
        assert init[i] == x;
      }
    }
    if x in init {
      var i :| 0 <= i < |init| && init[i] == x;
      assert teeth[i] == teeth[|init|];
    }
    if TwoEqual(init) {
      var i, j :| 0 <= i < j < |init| && init[i] == init[j];
      assert teeth[i] == teeth[j];
    }
  }

  /**
   * Comparing the list's length with the size of its set detects exactly the lists in
   * which two positions hold equal values; the set is never larger than the list.
   */
  lemma {:induction false} DuplicateMeaning(teeth: seq<int>)
    ensures |Values(teeth)| <= |teeth|
    ensures |teeth| != |Values(teeth)| <==> TwoEqual(teeth)
  {
    if teeth != [] {
      var init, x := teeth[..|teeth| - 1], teeth[|teeth| - 1];
      assert teeth == init + [x];
      DuplicateMeaning(init);
      ValuesSnoc(init, x);
      TwoEqualSnoc(init, x);
      if x in init {
        assert Values(teeth) == Values(init);
      } else {
        assert |Values(teeth)| == |Values(init)| + 1;
      }
    }
  }

  /** A list with fewer than two values never answers "YES". */
  lemma ShortListNo(teeth: seq<int>)
    requires |teeth| < 2
    ensures Answer(teeth) == "NO"
  {
    DuplicateMeaning(teeth);
  }

  /** Reordering the list does not change the answer. */
  lemma ReorderInvariant(a: seq<int>, b: seq<int>)
    requires multiset(a) == multiset(b)
    ensures Answer(a) == Answer(b)
  {
    assert |a| == |multiset(a)| == |multiset(b)| == |b|;
    assert Values(a) == Values(b) by {
      forall x ensures x in Values(a) <==> x in Values(b) {
        assert x in a <==> x in multiset(a);
        assert x in b <==> x in multiset(b);
      }
    }
  }

  /** The two cases two sample cases: [3, 5, 3] and [3, 5, 7]. */
  lemma Examples()
    ensures Answer([3, 5, 3]) == "YES"
    ensures Answer([3, 5, 7]) == "NO"
  {
    var dup, distinct := [3, 5, 3], [3, 5, 7];
    DuplicateMeaning(dup);
    DuplicateMeaning(distinct);
    assert dup[0] == dup[2];
  }

  /**
   * The loop over the test cases: one answer per case, in input order, each depending
   * only on that case's tooth counts (its declared n plays no part).
   */
  method Answers(cases: seq<Case>) returns (results: seq<string>)
    ensures |results| == |cases|
    ensures forall i :: 0 <= i < |cases| ==> results[i] == Answer(cases[i].teeth)
  {
    results := [];
    for c := 0 to |cases|
      invariant |results| == c
      invariant forall i :: 0 <= i < c ==> results[i] == Answer(cases[i].teeth)
    {
      if HasDuplicate(cases[c].teeth) {
        results := results + ["YES"];
      } else {
        results := results + ["NO"];
      }
    }
  }
}
