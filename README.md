# Verified model of the exercise solutions

The repository holds small, independent solutions to programming exercises and two
dice-probability simulations. This project models the following parts and proves what their
code computes:

- **Longest substring without repeated characters.** There are two solutions, both
  working on a window `[l, i)` that never contains a repeated character:
  - `3/3time.cpp` keeps a presence table of 256 flags and shrinks the window from the left;
  - `3/3memory.cpp` keeps a table of 128 "one past last occurrence" entries and moves
    the left bound in one step.

  Both are modelled as imperative methods over an array (`LongestTime`, `LongestMemory`).
  Each is proved to return the length of a longest duplicate-free substring, defined once
  in `LongestWindow`, so the two agree on every input both accept (`LongestCompare`).
- **Binary permutation** (`binary_permutation_ultimate.cpp`). Given n, k and a string over
  `'0'`/`'1'`, `solve` answers NO, or YES with a permutation of 1..n. It does this with a
  feasibility scan, a two-pass fill (the '1's get the small values, the '0's the large
  ones) and `is_valid`, and a retry fill that follows it. `BinaryPermutation` models each
  loop as a method and proves which answer and which permutation `solve` produces. It also
  proves that `is_valid` is always true once the scan has passed, so the retry is never
  reached.
- **Football halves** (`football_check.cpp`). `check_half` compares the two goal counts of
  a half, and the per-case decision rejects a first half that exceeds the final score.
  `Football` proves that `check_half` holds exactly when the half's goals can be ordered
  with no team scoring three times in a row, which is the property its comment promises.
- **Gears** (`gear.py`). The answer is YES exactly when the list of tooth counts repeats a
  value. `Gear` proves that `len(teeth) != len(set(teeth))` means that two positions hold
  equal counts, and that the answer does not depend on the order of the list.
- **Dice.** The shared vocabulary is in `Dice`: faces, evenness, even counts and exact
  frequencies. It serves two things:
  - `simulate_dice_even_frequency`, which appears in `r.py` and a second, identical time at
    `123.py:232-245`. It is modelled once by `EvenFrequency.SimulateDiceEvenFrequency`.
  - The animated `FastDiceProbability` object of `123.py`, modelled as a class whose
    methods update its counters and its plotted series (`FastDice`). A ghost field holds
    every roll accepted so far, and `Valid()` ties the counters and every plotted point to
    that stream.

Randomness is replaced by input: each dice method receives the rolls it would draw, as a
sequence of faces 1..6. Frequencies are exact rationals (`real`), not floats.

Where the code and the repository's own description differ, the model follows the code:
- `gear.py` reads the declared gear count `n` but never uses it. The decision looks only at
  the list actually read (`Gear.Case` keeps `n` unused).
- `is_valid` reads `p[pos]` into a variable it never uses, so its result does not depend
  on `p`.

## Model

| member | source | states |
|---|---|---|
| LongestWindow.StaleExtend | 3/3time.cpp:19-28 | if every window starting before lo and ending at hi repeats a character, so does every such window ending at hi + 1 |
| LongestWindow.StaleStep | 3/3time.cpp:22-25 | when s[hi] already occurs in [lo, hi), the window starting at lo is stale too, so the left pointer may advance |
| LongestWindow.StaleAtRepeat | 3/3memory.cpp:8 | every start before max(lo, last occurrence + 1) gives a window ending at hi + 1 with a repeated character |
| LongestWindow.EmptyPrefixBest | 3/3time.cpp:16-17 | before any character is read, 0 is the best length |
| LongestWindow.ExtendBest | 3/3time.cpp:28 | when [lo, end + 1) is duplicate-free and every earlier start is stale, max(res, end + 1 - lo) is the best length over all windows ending at or before end + 1 |
| LongestWindow.LongestUnique | 3/3memory.cpp:3-12 | the longest duplicate-free length of a string is unique |
| LongestWindow.LongestBounds | 3/3time.cpp:11 | the longest length lies in 0..\|s\| and is 0 exactly for the empty string |
| LongestTime.LengthOfLongestSubstring | 3/3time.cpp:10-31 | the result is the length of a duplicate-free substring, no duplicate-free substring is longer, and the empty string gives 0 |
| LongestMemory.LastSeen | 3/3memory.cpp:9 | the table entry for c after i characters: 0, or one past an occurrence of c, with no c at or after it below i |
| LongestMemory.JumpPastLast | 3/3memory.cpp:8 | l = max(l, an[s[i]]) stays at most i, keeps [l, i + 1) duplicate-free and skips only starts whose windows repeat a character |
| LongestMemory.TableStep | 3/3memory.cpp:9 | an[s[i]] = i + 1 turns the table after i characters into the table after i + 1 |
| LongestMemory.LengthOfLongestSubstring | 3/3memory.cpp:3-12 | the result is the length of a longest duplicate-free substring, and 0 for the empty string |
| LongestCompare.BothAgree | 3/3memory.cpp:3-12 | on strings of 7-bit characters both solutions return the same length, and it is the longest |
| BinaryPermutation.Identity | binary_permutation_ultimate.cpp:69-73 | the printed 1 2 ... n is a sequence of length n holding i + 1 at i |
| BinaryPermutation.FillFromRight | binary_permutation_ultimate.cpp:112-127 | p after the first fill has one entry per position, and a position holds a value in 1..n exactly when it holds '0' or '1' |
| BinaryPermutation.FillFromLeft | binary_permutation_ultimate.cpp:137-143 | p after the retry fill has one entry per position, and a position holds a value in 1..n exactly when it holds '0' or '1' |
| BinaryPermutation.OneValueRange | binary_permutation_ultimate.cpp:116-120 | every '1' receives a value in 1..m, where m is the number of '1's |
| BinaryPermutation.OneValueIncreasing | binary_permutation_ultimate.cpp:116-120 | '1' values increase from left to right |
| BinaryPermutation.ZeroValueRange | binary_permutation_ultimate.cpp:123-127 | in a binary string every '0' receives a value in m+1..n from either fill |
| BinaryPermutation.ZeroValueOrder | binary_permutation_ultimate.cpp:123-127 | the right-to-left fill gives later '0's larger values; the left-to-right fill gives them smaller ones |
| BinaryPermutation.FillFromRightFacts | binary_permutation_ultimate.cpp:112-127 | the fill is a permutation of 1..n; a position holds '1' exactly when its value is at most m; equal characters get increasing values |
| BinaryPermutation.FillFromLeftFacts | binary_permutation_ultimate.cpp:137-143 | the retry fill is a permutation of 1..n, keeps every '1' value and gives the '0's decreasing values |
| BinaryPermutation.WindowRangeNonEmpty | binary_permutation_ultimate.cpp:8-11 | for 1 <= k <= n every position lies in some length-k window inside 0..n-1 |
| BinaryPermutation.WindowRangeForcesK | binary_permutation_ultimate.cpp:79-86 | a position lies in some length-k window only when 1 <= k <= n, and then max_l + k - 1 <= n - 1 |
| BinaryPermutation.FeasibleImpliesValid | binary_permutation_ultimate.cpp:130 | once the scan's test holds at a '1' (k != 1, k <= n), is_valid's test holds there too |
| BinaryPermutation.CollectOnes | binary_permutation_ultimate.cpp:49-54 | ones lists exactly the positions of '1', in increasing order |
| BinaryPermutation.FeasibilityScan | binary_permutation_ultimate.cpp:76-104 | possible is true exactly when the neighbour test holds at every listed '1' |
| BinaryPermutation.IsValid | binary_permutation_ultimate.cpp:5-42 | the result is true exactly when the left/right test holds at every listed '1' |
| BinaryPermutation.FillOnes | binary_permutation_ultimate.cpp:116-120 | every '1' position gets 1 + the number of earlier '1's; every other entry is unchanged |
| BinaryPermutation.FillZerosFromRight | binary_permutation_ultimate.cpp:123-127 | every '0' position gets n minus the number of later '0's; every other entry is unchanged |
| BinaryPermutation.FillZerosFromLeft | binary_permutation_ultimate.cpp:138-143 | every '0' position gets n minus the number of earlier '0's; every other entry is unchanged |
| BinaryPermutation.Solve | binary_permutation_ultimate.cpp:44-155 | k = 1: YES with 1..n exactly when there is no '1'; k > n: YES with 1..n; otherwise YES exactly when the scan passes, always with the first fill; for a binary string every YES carries a permutation of 1..n |
| BinaryPermutation.OnesWindowDefeatsAll | binary_permutation_ultimate.cpp:56 | when some length-k window is all '1's, every p has a window whose maximum sits at a '1' |
| BinaryPermutation.FillFromRightMeetsRequirement | binary_permutation_ultimate.cpp:111-127 | without an all-'1' window the first fill beats every '1' inside every length-k window |
| BinaryPermutation.NoOnesNoWindow | binary_permutation_ultimate.cpp:57-59 | a string without '1' has no all-'1' window |
| BinaryPermutation.OnesDefeatAll | binary_permutation_ultimate.cpp:76 | with an all-'1' window, no sequence of values meets the requirement |
| BinaryPermutation.SolveIntended | binary_permutation_ultimate.cpp:56-127 | a YES is a permutation in which no '1' is the maximum of a length-k window; a NO means no sequence of n values has that property |
| BinaryPermutation.ScanAcceptsOnesWindow | binary_permutation_ultimate.cpp:85-98 | "0110" with k = 2 passes the scan and gets 3 1 2 4, though its window 1..2 is all '1's and the intended answer is NO |
| BinaryPermutation.ScanRejectsSolvable | binary_permutation_ultimate.cpp:85-98 | "01110" with k = 4 fails the scan, though the first fill meets the requirement and the intended answer is YES |
| Football.CheckHalf | football_check.cpp:7-17 | check_half holds exactly when neither count exceeds twice the other plus 2; the early accept of 0-0 is one such case |
| Football.Verdict | football_check.cpp:28-45 | "yes" only when both second-half counts are non-negative, and exactly when the half-time score is within the final score and both halves keep each count within twice the other plus 2 |
| Football.CheckHalfFacts | football_check.cpp:7-17 | check_half accepts 0-0 and is symmetric in the two teams |
| Football.CountConcat | football_check.cpp:5-6 | a team's goal count over two stretches of play is the sum of the two counts |
| Football.RunBound | football_check.cpp:5-6 | with no three goals in a row by one team, that team scores at most twice the other's count plus 2 |
| Football.FlipCount | football_check.cpp:5-6 | exchanging the teams exchanges their counts |
| Football.Alternate | football_check.cpp:5-6 | for k <= r <= 2k + 2 there is a sequence with these counts and no triple |
| Football.CheckHalfMeaning | football_check.cpp:5-17 | for non-negative counts, check_half holds exactly when the half can be played with no team scoring three times in a row |
| Football.VerdictMeaning | football_check.cpp:28-45 | for non-negative scores, "yes" exactly when the first half is within the final score and both halves can be played without a triple |
| Gear.HasDuplicate | gear.py:9 | len(teeth) != len(set(teeth)) holds exactly when two positions hold equal tooth counts |
| Gear.Answer | gear.py:9-12 | the answer is "YES" or "NO", and "YES" exactly when two positions hold equal tooth counts |
| Gear.Values | gear.py:9 | the set of the list holds exactly the list's values |
| Gear.ValuesSnoc | gear.py:9 | appending x adds x to the set |
| Gear.TwoEqualSnoc | gear.py:9 | appending x creates a repeat exactly when x was already present or a repeat existed |
| Gear.DuplicateMeaning | gear.py:9 | the set is never larger than the list, and is smaller exactly when two positions hold equal values |
| Gear.ShortListNo | gear.py:9-12 | a list of fewer than two gears answers "NO" |
| Gear.ReorderInvariant | gear.py:9-12 | lists with the same values and multiplicities get the same answer |
| Gear.Examples | gear.py:9-12 | [3, 5, 3] answers "YES" and [3, 5, 7] "NO" |
| Gear.Answers | gear.py:3-12 | one answer per case, in order, each "YES" or "NO" by the duplicate test |
| Dice.AllFacesAppend | 123.py:104-105 | the accepted stream stays a stream of faces when rolls are appended |
| Dice.IsEven | 123.py:95 | on a face 1..6, roll % 2 == 0 holds exactly for 2, 4 and 6 |
| Dice.CountEven | r.py:16-17 | the number of even rolls never exceeds the number of rolls |
| Dice.CountEvenStep | r.py:16-17 | each roll raises the even count by one when even and by nothing otherwise |
| Dice.CountEvenConcat | 123.py:106-108 | the even count of two consecutive stretches of rolls is the sum of their counts |
| Dice.Frequency | r.py:19 | even_count / i lies in [0, 1], is 0 exactly with no even roll and 1 exactly when all are even |
| EvenFrequency.SimulateDiceEvenFrequency | r.py:9-22 | one entry per trial (none for n <= 0); entry i is the even count of the first i + 1 rolls divided by i + 1, and lies in [0, 1] |
| FastDice.Params | 123.py:23-31 | every speed mode has a positive interval, batch size and update interval |
| FastDice.BatchSizes | 123.py:23-28 | the batch sizes of slow, normal, fast and ultra_fast are 1, 1, 5 and 20 |
| FastDice.ModeFromChoice | 123.py:207-215 | slow exactly for "1", normal exactly for "2", ultra_fast exactly for "4", and fast for every other reply, the empty one included |
| FastDice.BatchTake | 123.py:101-103 | a batch takes at most batch_size rolls, never passes max_trials, and stops short only at max_trials |
| FastDice.SeriesExtend | 123.py:112-115 | accepting more rolls leaves every plotted point correct |
| FastDice.SeriesAppend | 123.py:112-115 | appending (total_count, even_count / total_count) keeps the series correct and its trial counts non-decreasing |
| FastDice.FastDiceProbability.FrequenciesInUnit | 123.py:113 | every plotted frequency lies in [0, 1] |
| FastDice.FastDiceProbability.constructor | 123.py:11-38 | the object starts with the given (by default 1000 and fast) max_trials and mode, empty series, zero counters, the parameters of its mode and not paused |
| FastDice.FastDiceProbability.OnClick | 123.py:85-88 | a click inside the axes toggles the pause flag; nothing else changes |
| FastDice.FastDiceProbability.RollBatch | 123.py:100-110 | the loop accepts the first BatchTake rolls, counts them and their even ones, and records (roll, is_even) for each |
| FastDice.FastDiceProbability.UpdateFrequencyBatch | 123.py:98-118 | the state stays valid; the counters grow by the accepted rolls; when any trial exists one point (total, even / total) is appended and returned; otherwise nothing is appended and the frequency is 0; max_trials is never passed |
| FastDice.FastDiceProbability.Animate | 123.py:152-158 | a paused or finished object is unchanged; otherwise the first BatchTake rolls (at least one) are accepted and counted, the old points are kept and exactly the point (total, even / total) is appended |

## Left out

- `Nether2.cpp`: an interactive judge protocol, outside the modelled code.
- Input parsing, output formatting and `print` in every file. The modelled functions take the parsed values and return the answers.
- Randomness. `random.randint(1, 6)` becomes a caller-supplied sequence of faces, and each dice method requires at least as many rolls as it may draw.
- Plotting: figures, texts, `update_display`, `start_animation`, `run_fast_simulation`, `plot_frequency_chart`, `multiple_simulations` and `int(frequencies[-1] * n)`.
- The redraw throttle `frame % update_interval` in `animate`. It only decides whether the display is redrawn.
- Floating point. Frequencies are exact rationals.
- The `.strip()` of the menu reply. `FastDice.ModeFromChoice` takes the already stripped reply, and the trial-count prompt is parsing.
- The `speed_params` lookup failing for an unknown mode name. Here a mode is one of the four constructors of `FastDice.SpeedMode`.
- `is_paused` being set from outside. `FastDice.FastDiceProbability.OnClick` takes whether the click landed inside the axes as a flag.
- LongestTime.LengthOfLongestSubstring: treats `char` as unsigned and requires every character code to be below 256, the size of `exist`. With a signed `char`, bytes 128..255 index `exist` at a negative position, which is undefined behaviour and is not modelled.
- LongestMemory.LengthOfLongestSubstring: requires every character code to be below 128, the size of `an`. Indexing `an` with any other `char` is out of bounds in the source and is not modelled.
- LongestTime.LengthOfLongestSubstring: keeps `res`, `i` and `j` as unbounded integers where the source uses 32-bit `int`, so strings longer than 2^31 characters are not modelled.
- LongestMemory.LengthOfLongestSubstring: keeps `ma`, `l` and `i` as unbounded integers where the source uses 32-bit `int`, so strings longer than 2^31 characters are not modelled.
- Football.CheckHalf: uses unbounded integers, so the 32-bit overflow of `2 * goals_r + 2` and `2 * goals_k + 2` for huge goal counts is not modelled.
- Football.Verdict: uses unbounded integers, so the 32-bit overflow of `c - a` and `d - b` is not modelled.
- BinaryPermutation.Solve: models n and k as unbounded integers, so the 32-bit overflow of `pos - k + 1` (lines 8 and 79) and `n - k` (lines 9 and 80) for k near the lower end of `int` is not modelled. `max_l + k - 1` and `right_start + k - 1` are only evaluated once `min_l <= max_l`, which forces 1 <= k <= n (BinaryPermutation.WindowRangeForcesK bounds them by n - 1).
- BinaryPermutation.Solve: proves the permutation property only for strings over '0' and '1'. For other characters the fills leave zeros, as the code does.
- BinaryPermutation.IsPermutation: states "a permutation of 1..n" as every value in 1..n with no value repeated, rather than with a multiset.
- FastDice.FastDiceProbability.UpdateFrequencyBatch: returns 0.0 where the source returns the integer 0 when no trial has been made.

## Findings

| source | as written | input that shows it | evidently intended | confidence | as-written member | corrected member |
|---|---|---|---|---|---|---|
| binary_permutation_ultimate.cpp:85-98 | the feasibility scan only looks for a '0' next to each '1' | n = 4, k = 2, s = "0110": the scan passes and 3 1 2 4 is printed, yet the window of positions 1..2 holds only '1's, so its maximum is at a '1' | NO exactly when some length-k window consists of '1's only (the requirement stated in the comments at lines 56 and 76) | medium: the problem statement is not in the repository; not executed | BinaryPermutation.ScanAcceptsOnesWindow | BinaryPermutation.SolveIntended |
| binary_permutation_ultimate.cpp:85-98 | the same neighbour-only scan rejects a '1' whose neighbours are both '1' | n = 5, k = 4, s = "01110": the scan fails at position 2 and NO is printed, yet both length-4 windows hold a '0' and the first fill 4 1 2 3 5 meets the requirement | YES with the first fill whenever no length-k window is all '1's | medium: the problem statement is not in the repository; not executed | BinaryPermutation.ScanRejectsSolvable | BinaryPermutation.SolveIntended |
