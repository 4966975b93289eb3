/**
 * Football half-time check (football_check.cpp).  Given the score a:b at half time and
 * c:d at full time, the answer is "yes" when the first half a:b and the second half
 * (c-a):(d-b) could each have been played without one team scoring three goals in a
 * row.  check_half decides that by comparing the two counts; the lemmas below prove
 * that its arithmetic test agrees with that meaning, on goal sequences.
 */
module Football {

  /**
   * check_half: the half with goalsR and goalsK goals is legal.  The early accept of
   * 0:0 is already covered by the two bounds, so legality is just "neither count
   * exceeds twice the other plus 2".
   */
  predicate CheckHalf(goalsR: int, goalsK: int): (legal: bool)
    ensures legal <==> goalsR <= 2 * goalsK + 2 && goalsK <= 2 * goalsR + 2
  {
    if goalsR == 0 && goalsK == 0 then true
    else if goalsR > 2 * goalsK + 2 then false
    else if goalsK > 2 * goalsR + 2 then false
    else true
  }

  /**
   * The per-test decision in main: true prints "yes", false prints "no".  In closed
   * form: the half-time score lies within the final score and each half keeps both
   * counts within twice the other plus 2.
   */
  predicate Verdict(a: int, b: int, c: int, d: int): (yes: bool)
    ensures yes ==> 0 <= c - a && 0 <= d - b
    ensures yes <==>
      (a <= c && b <= d &&
       a <= 2 * b + 2 && b <= 2 * a + 2 &&
       c - a <= 2 * (d - b) + 2 && d - b <= 2 * (c - a) + 2)
  {
    if a > c || b > d then false
    else CheckHalf(a, b) && CheckHalf(c - a, d - b)
  }

  /** check_half accepts 0:0 and does not depend on which team is called R. */
  lemma CheckHalfFacts(r: int, k: int)
    ensures CheckHalf(0, 0)
    ensures CheckHalf(r, k) == CheckHalf(k, r)
  {
  }

  // ---------------------------------------------------------------------------
  // Goal sequences: true is a goal by team R, false a goal by team K.

  /** Number of goals by team x in the sequence g. */
  function Count(g: seq<bool>, x: bool): nat {
    if g == [] then 0 else (if g[0] == x then 1 else 0) + Count(g[1..], x)
  }

  /** No team scores three goals in a row. */
  predicate NoTriple(g: seq<bool>) {
    forall i :: 0 <= i && i + 2 < |g| ==> !(g[i] == g[i + 1] && g[i + 1] == g[i + 2])
  }

  /** A half with r goals by R and k goals by K can be played without a triple. */
  ghost predicate HalfRealisable(r: int, k: int) {
    exists g: seq<bool> :: Count(g, true) == r && Count(g, false) == k && NoTriple(g)
  }

  lemma {:induction false} CountConcat(g: seq<bool>, h: seq<bool>, x: bool)
    ensures Count(g + h, x) == Count(g, x) + Count(h, x)
  {
    if g != [] {
      assert (g + h)[1..] == g[1..] + h;
      CountConcat(g[1..], h, x);
    } else {
      assert g + h == h;
    }
  }

  /**
   * In a sequence without a triple, team x scores at most twice the other team's
   * goals plus two; one less when the sequence opens with a single x, and at most
   * twice when it opens with the other team.
   */
  lemma {:induction false} RunBound(g: seq<bool>, x: bool)
    requires NoTriple(g)
    ensures Count(g, x) <= 2 * Count(g, !x) + 2
    ensures |g| > 0 && g[0] != x ==> Count(g, x) <= 2 * Count(g, !x)
    ensures |g| > 0 && g[0] == x && (|g| == 1 || g[1] != x) ==> Count(g, x) <= 2 * Count(g, !x) + 1
  {
    if g != [] {
      var rest := g[1..];
      assert NoTriple(rest) by {
        forall i | 0 <= i && i + 2 < |rest|
          ensures !(rest[i] == rest[i + 1] && rest[i + 1] == rest[i + 2])
        {
          assert rest[i] == g[i + 1] && rest[i + 1] == g[i + 2] && rest[i + 2] == g[i + 3];
        }
      }
      RunBound(rest, x);
      if g[0] == x && |g| > 2 && g[1] == x {
        assert !(g[0] == g[1] && g[1] == g[2]);
      }
    }
  }

  /** Exchanging the two teams. */
  function Flip(g: seq<bool>): (f: seq<bool>)
    ensures |f| == |g| && forall i :: 0 <= i < |g| ==> f[i] == !g[i]
  {
    seq(|g|, i requires 0 <= i < |g| => !g[i])
  }

  lemma {:induction false} FlipCount(g: seq<bool>, x: bool)
    ensures Count(Flip(g), x) == Count(g, !x)
  {
    if g != [] {
      assert Flip(g)[1..] == Flip(g[1..]);
      FlipCount(g[1..], x);
    }
  }

  /**
   * A legal half in which R, the team with at least as many goals, opens: pairs of
   * R goals separated by single K goals while R is ahead, then alternation.
   */
  function Alternate(r: nat, k: nat): (g: seq<bool>)
    requires k <= r <= 2 * k + 2
    ensures Count(g, true) == r && Count(g, false) == k
    ensures NoTriple(g)
    ensures |g| > 0 ==> g[0]
    decreases r
  {
    if r == 0 then []
    else if k == 0 then (if r == 1 then [true] else [true, true])
    else
      var head := if r > k then [true, true, false] else [true, false];
      var tail := if r > k then Alternate(r - 2, k - 1) else Alternate(r - 1, k - 1);
      CountConcat(head, tail, true);
      CountConcat(head, tail, false);
      var g := head + tail;
      assert NoTriple(g) by {
        forall i | 0 <= i && i + 2 < |g|
          ensures !(g[i] == g[i + 1] && g[i + 1] == g[i + 2])
        {
          if i + 2 >= |head| && i < |head| {
            assert tail[0];
          } else if i >= |head| {
            assert g[i] == tail[i - |head|] && g[i + 1] == tail[i - |head| + 1] && g[i + 2] == tail[i - |head| + 2];
          }
        }
      }
      g
  }

  /**
   * check_half is exactly the test "a half with these counts can be played without
   * any team scoring three goals in a row", for non-negative goal counts.
   */
  lemma CheckHalfMeaning(r: int, k: int)
    requires r >= 0 && k >= 0
    ensures CheckHalf(r, k) <==> HalfRealisable(r, k)
  {
    if CheckHalf(r, k) {
      var g;
      if k <= r {
        g := Alternate(r, k);
      } else {
        g := Flip(Alternate(k, r));
        FlipCount(Alternate(k, r), true);
        FlipCount(Alternate(k, r), false);
      }
      assert Count(g, true) == r && Count(g, false) == k && NoTriple(g);
    }
    if HalfRealisable(r, k) {
      var g :| Count(g, true) == r && Count(g, false) == k && NoTriple(g);
      RunBound(g, true);
      RunBound(g, false);
    }
  }

  /**
   * The answer for a test case is "yes" exactly when the half-time score does not
   * exceed the final score and both halves can be played without a triple.
   */
  lemma VerdictMeaning(a: int, b: int, c: int, d: int)
    requires a >= 0 && b >= 0 && c >= 0 && d >= 0
    ensures Verdict(a, b, c, d) <==>
      a <= c && b <= d && HalfRealisable(a, b) && HalfRealisable(c - a, d - b)
  {
    CheckHalfMeaning(a, b);
    if a <= c && b <= d {
      CheckHalfMeaning(c - a, d - b);
    }
  }
}
