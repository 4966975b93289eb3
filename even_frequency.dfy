/**
 * simulate_dice_even_frequency (r.py, copied verbatim into 123.py): roll n times,
 * count the even rolls, and record the running frequency after every roll.
 */
module EvenFrequency {
  import opened Dice

  /**
   * The rolls are supplied by the caller, one per trial, instead of being drawn
   * from random.randint(1, 6); only the first n are used.
   */
  method SimulateDiceEvenFrequency(n: int, rolls: seq<int>) returns (frequencies: seq<real>)
    requires AllFaces(rolls)
    requires n <= |rolls|
    ensures |frequencies| == if n < 0 then 0 else n
    ensures forall i :: 0 <= i < |frequencies| ==>
      frequencies[i] == Frequency(CountEven(rolls[..i + 1]), i + 1)
    ensures forall i :: 0 <= i < |frequencies| ==> 0.0 <= frequencies[i] <= 1.0
  {
    var evenCount := 0;
    frequencies := [];
    var i := 1;
    while i <= n
      invariant 1 <= i <= (if n < 1 then 1 else n + 1)
      invariant evenCount == CountEven(rolls[..i - 1])
      invariant |frequencies| == i - 1
      invariant forall t :: 0 <= t < i - 1 ==>
        frequencies[t] == Frequency(CountEven(rolls[..t + 1]), t + 1)
      invariant forall t :: 0 <= t < i - 1 ==> 0.0 <= frequencies[t] <= 1.0
    {
      var roll := rolls[i - 1];
      CountEvenStep(rolls, i - 1);
      if roll % 2 == 0 {
        evenCount := evenCount + 1;
      }
      var currentFrequency := evenCount as real / i as real;
      assert currentFrequency == Frequency(evenCount, i);
      frequencies := frequencies + [currentFrequency];
      i := i + 1;
    }
  }
}
