/**
 * The animated simulation of 123.py: a FastDiceProbability object keeps the trial
 * and even counters and the plotted series, and every timer tick runs one batch of
 * rolls.  Plotting is not modelled; the rolls come from the caller.
 */
module FastDice {
  import opened Dice

  /** The four playback speeds of the speed_params table. */
  datatype SpeedMode = Slow | Normal | Fast | UltraFast

  /** One row of speed_params: timer interval in ms, rolls per tick, ticks per redraw. */
  datatype SpeedParams = SpeedParams(interval: nat, batchSize: nat, updateInterval: nat)

  /** self.speed_params[speed_mode]. */
  function Params(mode: SpeedMode): (p: SpeedParams)
    ensures p.batchSize >= 1 && p.updateInterval >= 1 && p.interval >= 1
  {
    match mode
    case Slow => SpeedParams(500, 1, 1)
    case Normal => SpeedParams(200, 1, 1)
    case Fast => SpeedParams(50, 5, 1)
    case UltraFast => SpeedParams(10, 20, 5)
  }

  /**
   * The menu of quick_demo: the stripped reply, '3' when it is empty, looked up in
   * mode_map with 'fast' as the default.
   */
  function ModeFromChoice(choice: string): (mode: SpeedMode)
    ensures mode == Slow <==> choice == "1"
    ensures mode == Normal <==> choice == "2"
    ensures mode == UltraFast <==> choice == "4"
    ensures mode == Fast <==> choice != "1" && choice != "2" && choice != "4"
  {
    var key := if choice == "" then "3" else choice;
    if key == "1" then Slow
    else if key == "2" then Normal
    else if key == "3" then Fast
    else if key == "4" then UltraFast
    else Fast
  }

  /** The batch sizes of the four modes are 1, 1, 5 and 20. */
  lemma BatchSizes()
    ensures Params(Slow).batchSize == 1 && Params(Normal).batchSize == 1
    ensures Params(Fast).batchSize == 5 && Params(UltraFast).batchSize == 20
  {
  }

  /**
   * How many rolls one batch accepts: batch_size, cut short when total_count
   * reaches max_trials.
   */
  function BatchTake(batchSize: nat, total: int, maxTrials: int): (m: nat)
    ensures m <= batchSize
    ensures total + m <= maxTrials || m == 0
    ensures m < batchSize ==> total + m >= maxTrials
  {
    if total >= maxTrials then 0
    else if maxTrials - total < batchSize then maxTrials - total
    else batchSize
  }

  /**
   * The series (trials, frequencies) records, for each point, a trial count reached
   * by the stream `accepted` and the running frequency of its first that many rolls;
   * the trial counts never decrease.
   */
  ghost predicate SeriesMatches(trials: seq<int>, frequencies: seq<real>, accepted: seq<int>) {
    |trials| == |frequencies| &&
    (forall i :: 0 <= i < |trials| ==> 1 <= trials[i] <= |accepted|) &&
    (forall i :: 0 <= i < |trials| ==>
      frequencies[i] == Frequency(CountEven(accepted[..trials[i]]), trials[i])) &&
    (forall i, j :: 0 <= i < j < |trials| ==> trials[i] <= trials[j])
  }

  /** Accepting more rolls leaves every recorded point correct. */
  lemma SeriesExtend(trials: seq<int>, frequencies: seq<real>, accepted: seq<int>, more: seq<int>)
    requires SeriesMatches(trials, frequencies, accepted)
    ensures SeriesMatches(trials, frequencies, accepted + more)
  {
    forall i | 0 <= i < |trials|
      ensures (accepted + more)[..trials[i]] == accepted[..trials[i]]
    {
    }
  }

  /** Appending the point for the whole stream keeps the series correct. */
  lemma SeriesAppend(trials: seq<int>, frequencies: seq<real>, accepted: seq<int>)
    requires SeriesMatches(trials, frequencies, accepted)
    requires |accepted| > 0
    ensures SeriesMatches(trials + [|accepted|],
                          frequencies + [Frequency(CountEven(accepted), |accepted|)], accepted)
  {
    var t, f := trials + [|accepted|], frequencies + [Frequency(CountEven(accepted), |accepted|)];
    assert accepted[..|accepted|] == accepted;
    forall i | 0 <= i < |t|
      ensures 1 <= t[i] <= |accepted|
      ensures f[i] == Frequency(CountEven(accepted[..t[i]]), t[i])
    {
      if i < |trials| {
        assert t[i] == trials[i] && f[i] == frequencies[i];
      }
    }
    forall i, j | 0 <= i < j < |t|
      ensures t[i] <= t[j]
    {
      if j < |trials| {
        assert t[i] == trials[i] && t[j] == trials[j];
      } else {
        assert t[i] == trials[i];
      }
    }
  }

  class FastDiceProbability {
    const maxTrials: int
    const speedMode: SpeedMode
    const batchSize: nat
    const updateInterval: nat

    /** The plotted series: total_count after each batch and the frequency then. */
    var trials: seq<int>
    var frequencies: seq<real>
    var evenCount: int
    var totalCount: int
    /** Flipped by the click handler; a paused animation runs no batch. */
    var isPaused: bool

    /** Every roll accepted so far, in order. */
    ghost var accepted: seq<int>

    ghost predicate Valid()
      reads this
    {
      batchSize == Params(speedMode).batchSize &&
      updateInterval == Params(speedMode).updateInterval &&
      AllFaces(accepted) &&
      totalCount == |accepted| &&
      evenCount == CountEven(accepted) &&
      0 <= evenCount <= totalCount &&
      SeriesMatches(trials, frequencies, accepted)
    }

    /** Each recorded point is a proportion. */
    lemma FrequenciesInUnit()
      requires Valid()
      ensures forall i :: 0 <= i < |frequencies| ==> 0.0 <= frequencies[i] <= 1.0
    {
      forall i | 0 <= i < |frequencies|
        ensures 0.0 <= frequencies[i] <= 1.0
      {
        assert frequencies[i] == Frequency(CountEven(accepted[..trials[i]]), trials[i]);
      }
    }

    constructor (maxTrials: int := 1000, speedMode: SpeedMode := Fast)
      ensures Valid()
      ensures this.maxTrials == maxTrials && this.speedMode == speedMode
      ensures trials == [] && frequencies == [] && evenCount == 0 && totalCount == 0
      ensures accepted == [] && !isPaused
    {
      this.maxTrials := maxTrials;
      this.speedMode := speedMode;
      var params := Params(speedMode);
      batchSize := params.batchSize;
      updateInterval := params.updateInterval;
      trials := [];
      frequencies := [];
      evenCount := 0;
      totalCount := 0;
      isPaused := false;
      accepted := [];
    }

    /**
     * on_click: a click inside either of the two axes toggles the pause flag; a click
     * elsewhere changes nothing.
     */
    method OnClick(inAxes: bool)
      modifies this
      ensures isPaused == (old(isPaused) != inAxes)
      ensures trials == old(trials) && frequencies == old(frequencies)
      ensures evenCount == old(evenCount) && totalCount == old(totalCount)
      ensures accepted == old(accepted)
    {
      if inAxes {
        isPaused := !isPaused;
      }
    }

    /**
     * The loop of update_frequency_batch: up to batch_size trials, each taking the
     * next roll and bumping total_count, and even_count for an even roll, with a stop
     * as soon as total_count reaches max_trials.
     */
    method RollBatch(rolls: seq<int>) returns (batchResults: seq<(int, bool)>)
      requires batchSize <= |rolls|
      modifies this
      ensures var m := BatchTake(batchSize, old(totalCount), maxTrials);
        accepted == old(accepted) + rolls[..m] &&
        totalCount == old(totalCount) + m &&
        evenCount == old(evenCount) + CountEven(rolls[..m]) &&
        |batchResults| == m &&
        (forall i :: 0 <= i < m ==> batchResults[i] == (rolls[i], IsEven(rolls[i])))
      ensures trials == old(trials) && frequencies == old(frequencies)
      ensures isPaused == old(isPaused)
    {
      ghost var m := BatchTake(batchSize, totalCount, maxTrials);
      batchResults := [];
      var taken := 0;
      while taken < batchSize
        invariant 0 <= taken <= m
        invariant taken < m ==> taken < batchSize
        invariant |batchResults| == taken
        invariant forall i :: 0 <= i < taken ==> batchResults[i] == (rolls[i], IsEven(rolls[i]))
        invariant accepted == old(accepted) + rolls[..taken]
        invariant totalCount == old(totalCount) + taken
        invariant evenCount == old(evenCount) + CountEven(rolls[..taken])
        invariant trials == old(trials) && frequencies == old(frequencies)
        invariant isPaused == old(isPaused)
        decreases batchSize - taken
      {
        if totalCount >= maxTrials {
          break;
        }
        var roll := rolls[taken];
        var isEven := roll % 2 == 0;
        totalCount := totalCount + 1;
        if isEven {
          evenCount := evenCount + 1;
        }
        CountEvenStep(rolls, taken);
        assert rolls[..taken + 1] == rolls[..taken] + [roll];
        accepted := accepted + [roll];
        batchResults := batchResults + [(roll, isEven)];
        taken := taken + 1;
      }
    }

    /**
     * update_frequency_batch: accept up to batch_size rolls from the front of
     * `rolls`, stopping at max_trials, and when any trial has been made append one
     * point (total_count, even_count / total_count) to the series.
     */
    method UpdateFrequencyBatch(rolls: seq<int>) returns (batchResults: seq<(int, bool)>, currentFrequency: real)
      requires Valid()
      requires AllFaces(rolls) && batchSize <= |rolls|
      modifies this
      ensures Valid()
      ensures var m := BatchTake(batchSize, old(totalCount), maxTrials);
        accepted == old(accepted) + rolls[..m] &&
        totalCount == old(totalCount) + m &&
        evenCount == old(evenCount) + CountEven(rolls[..m]) &&
        |batchResults| == m &&
        (forall i :: 0 <= i < m ==> batchResults[i] == (rolls[i], IsEven(rolls[i])))
      ensures totalCount > 0 ==>
        currentFrequency == Frequency(evenCount, totalCount) &&
        trials == old(trials) + [totalCount] &&
        frequencies == old(frequencies) + [currentFrequency]
      ensures totalCount == 0 ==>
        batchResults == [] && currentFrequency == 0.0 &&
        trials == old(trials) && frequencies == old(frequencies)
      ensures old(totalCount) <= maxTrials ==> totalCount <= maxTrials
      ensures isPaused == old(isPaused)
    {
      ghost var m := BatchTake(batchSize, totalCount, maxTrials);
      batchResults := RollBatch(rolls);
      CountEvenConcat(old(accepted), rolls[..m]);
      AllFacesAppend(old(accepted), rolls, m);
      SeriesExtend(trials, frequencies, old(accepted), rolls[..m]);
      if totalCount > 0 {
        currentFrequency := evenCount as real / totalCount as real;
        SeriesAppend(trials, frequencies, accepted);
        trials := trials + [totalCount];
        frequencies := frequencies + [currentFrequency];
      } else {
        currentFrequency := 0.0;
      }
    }

    /**
     * animate, without the redraw: a paused animation, or one that has reached
     * max_trials, changes nothing; otherwise one batch runs, which accepts at least
     * one roll and appends one point.
     */
    method Animate(rolls: seq<int>)
      requires Valid()
      requires AllFaces(rolls) && batchSize <= |rolls|
      modifies this
      ensures Valid()
      ensures old(isPaused) || old(totalCount) >= maxTrials ==> unchanged(this)
      ensures !old(isPaused) && old(totalCount) < maxTrials ==>
        var m := BatchTake(batchSize, old(totalCount), maxTrials);
        m >= 1 &&
        accepted == old(accepted) + rolls[..m] &&
        totalCount == old(totalCount) + m &&
        evenCount == old(evenCount) + CountEven(rolls[..m]) &&
        trials == old(trials) + [totalCount] &&
        frequencies == old(frequencies) + [Frequency(evenCount, totalCount)]
      ensures isPaused == old(isPaused)
    {
      if isPaused || totalCount >= maxTrials {
        return;
      }
      var batchResults, currentFrequency := UpdateFrequencyBatch(rolls);
    }
  }
}
