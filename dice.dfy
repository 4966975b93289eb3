/**
 * What the two dice scripts (r.py and 123.py) share: a roll is a face 1..6 drawn by
 * the caller in place of random.randint(1, 6), it counts when it is even, and the
 * running frequency after some trials is the number of even rolls divided by the
 * number of trials, kept here as an exact rational instead of a float.
 */
module Dice {

  /** A face of a six-sided die. */
  predicate IsFace(roll: int) {
    1 <= roll <= 6
  }

  /** Every roll of the stream is a face. */
  predicate AllFaces(rolls: seq<int>) {
    forall i :: 0 <= i < |rolls| ==> IsFace(rolls[i])
  }

  /**
   * roll % 2 == 0.  Python's % floors, Dafny's is Euclidean; with the divisor 2 the
   * two agree on every integer.
   */
  predicate IsEven(roll: int): (even: bool)
    ensures IsFace(roll) ==> (even <==> roll == 2 || roll == 4 || roll == 6)
  {
    roll % 2 == 0
  }

  /** A stream of faces followed by a prefix of another stream of faces is a stream of faces. */
  lemma AllFacesAppend(a: seq<int>, b: seq<int>, m: nat)
    requires AllFaces(a) && AllFaces(b) && m <= |b|
    ensures AllFaces(a + b[..m])
  {
    forall i | 0 <= i < |a + b[..m]|
      ensures IsFace((a + b[..m])[i])
    {
      if i >= |a| {
        assert (a + b[..m])[i] == b[i - |a|];
      }
    }
  }

  /** Number of even rolls in the stream; never more than the number of rolls. */
  function CountEven(rolls: seq<int>): (c: nat)
    ensures c <= |rolls|
  {
    if rolls == [] then 0
    else CountEven(rolls[..|rolls| - 1]) + (if IsEven(rolls[|rolls| - 1]) then 1 else 0)
  }

  /**
   * Counting the first i + 1 rolls adds exactly one for an even roll i and nothing
   * otherwise: the count never decreases and grows by at most one per trial.
   */
  lemma CountEvenStep(rolls: seq<int>, i: nat)
    requires i < |rolls|
    ensures CountEven(rolls[..i + 1]) == CountEven(rolls[..i]) + (if IsEven(rolls[i]) then 1 else 0)
  {
    assert rolls[..i + 1][..i] == rolls[..i];
  }

  /** The even count of an extended stream splits over the two parts. */
  lemma {:induction false} CountEvenConcat(a: seq<int>, b: seq<int>)
    ensures CountEven(a + b) == CountEven(a) + CountEven(b)
  {
    if b == [] {
      assert a + b == a;
    } else {
      assert (a + b)[..|a + b| - 1] == a + b[..|b| - 1];
      CountEvenConcat(a, b[..|b| - 1]);
    }
  }

  /** even_count / total_count, exactly; a proportion between 0 and 1. */
  function Frequency(even: nat, total: nat): (f: real)
    requires total > 0
    ensures even <= total ==> 0.0 <= f <= 1.0
    ensures even == 0 <==> f == 0.0
    ensures even == total <==> f == 1.0
  {
    even as real / total as real
  }
}
