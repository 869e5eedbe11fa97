# Monte Carlo guess-number evaluator and Korean-syllable detector, in Dafny

This project models two parts of a PCFG password-cracking toolkit.

- **The Monte Carlo evaluator.** This is `MonteCarloEvaluator` in `lib_evaluation/montecarlo_evaluator.py`.
  - It draws random parse trees from a trained grammar (`random_walk`).
  - It rebuilds the guess string a parse tree stands for (`_honeyword_recursive_guess`).
  - It turns the probabilities of `samples_num` random walks into a calibration curve: `_rd_sampling` gives the sorted negative logarithms, `_pos_calculating` gives the running positions, and `setup` runs both.
- **The Korean-syllable detector.** This is `lib_trainer/detection_rules/syllable_detection.py`. It covers the double-vowel check, the onset guard and vowel scan of `detect_korean`, and the section loop of `syllable_detection`.

## Modules

The modules follow the program's structure.

- **`Outcomes`**: the `Result` type. Each Python exception the code can raise becomes an `Error` value.
- **`Variates`**: randomness as an explicit input.
  - A finite stream of variates in [0, 1) stands in for the random number generator.
  - Each `random.choice(xs)` or `random.randint(0, n - 1)` consumes one variate `u` and selects index `Floor(u * n)`.
  - When the stream runs out, the result is `Err(OutOfDraws)`.
- **`GrammarWalk`**: the grammar and base structures as read-only data.
  - The random walk is a function of the stream: base choice, slot choice, the run of `samples_num` walks.
  - `PtProb`, the product of the selected productions' probabilities.
- **`Honeyword`**: guess reconstruction as a recursive function.
  - Straight replacements append a value.
  - A 'C' category applies a capitalization mask.
  - An 'M' category returns 0.
- **`Sorting`**: `sorted(..., reverse=True)` as an insertion sort. Its result is a non-increasing permutation of the input, and the only one.
- **`Calibration`**:
  - Sampling as a function: walks, then -log2 or -log10, then sort.
  - numpy's `cumsum`, and the position curve.
- **`MonteCarlo`**: the evaluator as a class.
  - `grammar`, `base`, `findProb` (the superclass's `_find_prob`), the log functions, `outputLabel` and `logScale` are constant fields.
  - `samplesNum`, `samplesProb` and `position` are mutable fields.
  - `RandomWalk` (`random_walk`) is proved equal to `Walk`. Its retry loop chooses the base; its helper `FillSlots` runs the slot loop and is proved equal to `ChooseSlots`.
  - `RdSampling` (`_rd_sampling`) is proved equal to `Sampling`. Its helper `DrawSamples` runs the sampling loop and is proved equal to `Draws`.
  - `PosCalculating` (`_pos_calculating`) sets `position` to `Positions(samples, LogN())`.
  - `Setup` (`setup`) is specified directly by its postconditions, one per outcome.
  - Only `RandomWalk`, `FillSlots` and `DrawSamples` contain loops; `PosCalculating` and `Setup` are straight-line code.
- **`SyllableDetection`**: the detector.
  - `check_d_vowel` and `detect_korean` as functions.
  - The vowel scan and the section loop as methods.

## Model

| member | source | states |
|---|---|---|
| Variates.Pick | lib_evaluation/montecarlo_evaluator.py:94 | a draw among n choices is an index in [0, n) |
| GrammarWalk.ChooseBase | lib_evaluation/montecarlo_evaluator.py:72-76 | a kept base is in range and has no "M" replacement; it consumes at least one variate and leaves a suffix of the stream; the only failure is running out of variates |
| GrammarWalk.ChooseBaseFailsIffNoEligibleDraw | lib_evaluation/montecarlo_evaluator.py:72-76 | the retry loop fails exactly when no draw in the stream lands on a base without "M" |
| GrammarWalk.ChooseBaseKeepsFirstEligibleDraw | lib_evaluation/montecarlo_evaluator.py:72-76 | the base kept is the one picked by the first eligible draw, and every earlier draw picked a base containing "M" |
| GrammarWalk.NoEligibleBaseExhaustsEveryStream | lib_evaluation/montecarlo_evaluator.py:72-76 | when every base contains "M", the loop never ends: every stream is used up |
| GrammarWalk.ChooseIndex | lib_evaluation/montecarlo_evaluator.py:89-94 | the index is in [0, len(grammar[type])); it is 0 with no draw for a single-production category; it fails exactly on a missing category (KeyError), an empty one (ValueError from randint), or an exhausted stream |
| GrammarWalk.ChooseSlots | lib_evaluation/montecarlo_evaluator.py:80-96 | one slot per replacement, in order, with the replacement's tag |
| GrammarWalk.ChooseSlotsAdvance | lib_evaluation/montecarlo_evaluator.py:84-96 | filling the slot at `pointer` moves it from the pending tags to the slots already chosen |
| GrammarWalk.ChooseSlotsStops | lib_evaluation/montecarlo_evaluator.py:84-96 | a failed index choice at `pointer` is the failure of the whole slot loop |
| GrammarWalk.ChooseSlotsInRange | lib_evaluation/montecarlo_evaluator.py:89-96 | every chosen index is in range for its category, and 0 for a single-production category |
| GrammarWalk.ChooseSlotsFailsOnlyOnDraws | lib_evaluation/montecarlo_evaluator.py:84-96 | when every tag names a non-empty category, the slot loop fails only by running out of variates |
| GrammarWalk.WalkShape | lib_evaluation/montecarlo_evaluator.py:72-99 | a successful walk's base has no "M"; its pt has one slot per replacement in order with the same tags and in-range indices; base_prob is the base's prob; prob is `_find_prob(pt, base_prob)` |
| GrammarWalk.WalkFailsOnlyOnDraws | lib_evaluation/montecarlo_evaluator.py:52-101 | on a grammar that covers every eligible base, the walk fails only on an empty base list (IndexError) or an exhausted stream |
| GrammarWalk.Walk | lib_evaluation/montecarlo_evaluator.py:52-101 | `random_walk` as a function of the stream: an empty base list raises IndexError; a returned item's prob is `_find_prob(pt, base_prob)` (its shape is stated by WalkShape, its failures by WalkFailsOnlyOnDraws) |
| GrammarWalk.Draws | lib_evaluation/montecarlo_evaluator.py:198-205 | n walks give n probabilities |
| GrammarWalk.DrawsStep | lib_evaluation/montecarlo_evaluator.py:198-205 | one more walk appends its probability, or its error ends the run |
| GrammarWalk.DrawsErrorPersists | lib_evaluation/montecarlo_evaluator.py:198-205 | once a walk fails, every longer run fails with the same error |
| GrammarWalk.JointProbInUnit | lib_evaluation/montecarlo_evaluator.py:171 | with production probabilities in (0, 1], a prior in (0, 1] times `PtProb`, the product over a parse tree of the probabilities line 171 multiplies in, stays in (0, 1] |
| Honeyword.ApplyMask | lib_evaluation/montecarlo_evaluator.py:153-160 | it succeeds exactly when the mask is no longer than the word, and fails with IndexError otherwise; the output has one character per mask character: 'L' keeps the character, anything else upper-cases it |
| Honeyword.Capitalize | lib_evaluation/montecarlo_evaluator.py:142-163 | a production with no masks raises IndexError (`values[0]`); with masks but no draw left, OutOfDraws; otherwise it fails exactly when the drawn mask is longer than the tail `cur_guess[-mask_len:]`, with IndexError; on success it consumes one draw and the guess does not grow |
| Honeyword.AppendValueSpec | lib_evaluation/montecarlo_evaluator.py:166-168 | the straight replacement fails exactly on an empty value list (IndexError from `random.choice`) or an exhausted stream; on success it consumes one draw and the new guess is cur_guess followed by one of the production's values |
| Honeyword.GuessStep | lib_evaluation/montecarlo_evaluator.py:141-168 | a step succeeds only on a slot that names an existing production |
| Honeyword.HoneywordGuess | lib_evaluation/montecarlo_evaluator.py:104-177 | an empty parse tree raises IndexError |
| Honeyword.MarkovAtHeadReturnsZero | lib_evaluation/montecarlo_evaluator.py:137-139 | an 'M' category at the head returns 0 at once |
| Honeyword.CapitalizeTail | lib_evaluation/montecarlo_evaluator.py:142-163 | when all masks have length mask_len and 1 <= mask_len <= len(cur_guess): the guess keeps its length; everything before the last mask_len characters is unchanged; in the tail 'L' keeps the character and any other mask character upper-cases it; one variate is consumed |
| Honeyword.EmptyMaskErasesGuess | lib_evaluation/montecarlo_evaluator.py:144-148 | with masks of length 0, `cur_guess[:-0]` is empty, so the whole guess is erased |
| Honeyword.PlainGuessIsConcatenation | lib_evaluation/montecarlo_evaluator.py:166-177 | with no 'C' or 'M' slot, the guess is cur_guess followed by the chosen values in order, and its probability is cur_prob times the product of the selected productions' probabilities |
| Honeyword.PlainGuessText | lib_evaluation/montecarlo_evaluator.py:166-177 | the text half of the statement above, by induction over pt |
| Honeyword.PlainHead | lib_evaluation/montecarlo_evaluator.py:166-177 | one straight-replacement step appends the chosen value, multiplies in the production's probability, then returns or recurses on pt[1:] |
| Honeyword.GuessUnfold | lib_evaluation/montecarlo_evaluator.py:126-177 | a returned guess has a non-Markov head slot that names an existing production, and the call continues on pt[1:] with cur_prob times that production's probability (or returns, for a one-slot tree) |
| Honeyword.GuessProbIsScaled | lib_evaluation/montecarlo_evaluator.py:171-177 | the probability of a returned guess is the running product: cur_prob times each selected production's probability, in slot order |
| Honeyword.ScaledProbIsProduct | lib_evaluation/montecarlo_evaluator.py:171 | that running product equals the starting value times `PtProb` of the parse tree |
| Honeyword.GuessProbIsProduct | lib_evaluation/montecarlo_evaluator.py:171-177 | for any categories, a returned guess names only existing productions, and its probability is cur_prob times `PtProb`, the product over the whole parse tree |
| Sorting.Insert | lib_evaluation/montecarlo_evaluator.py:215 | inserting into a non-increasing list keeps it non-increasing and adds exactly the one element |
| Sorting.SortDesc | lib_evaluation/montecarlo_evaluator.py:215 | the result is non-increasing, of the same length, and a permutation of the input |
| Sorting.SortedPermutationIsUnique | lib_evaluation/montecarlo_evaluator.py:215 | two non-increasing permutations of the same values are equal, so the sorted result is determined |
| Calibration.NegLogs | lib_evaluation/montecarlo_evaluator.py:207-213 | one negative logarithm per sample |
| Calibration.NegLogsPointwise | lib_evaluation/montecarlo_evaluator.py:207-213 | element k of the conversion is -LogB(s[k]): -log10(s[k]) when log_scale is 10 and -log2(s[k]) for every other scale |
| Calibration.SamplingOfDraws | lib_evaluation/montecarlo_evaluator.py:198-215 | after the walks, sampling is the sorted -log list when every probability is positive, and ValueError otherwise |
| Calibration.Sampling | lib_evaluation/montecarlo_evaluator.py:180-215 | `_rd_sampling` as a function of the stream: a result has samples_num values (none for a non-positive count) in non-increasing order |
| Calibration.SamplingSpec | lib_evaluation/montecarlo_evaluator.py:198-215 | exactly samples_num values (none for a non-positive count); non-increasing; a permutation of -log10(p) when log_scale is 10 and of -log2(p) otherwise; failure only from a failed walk or a non-positive probability (ValueError) |
| Calibration.Cumsum | lib_evaluation/montecarlo_evaluator.py:238 | one running total per element |
| Calibration.CumsumIsPrefixSum | lib_evaluation/montecarlo_evaluator.py:238 | entry i of cumsum is the sum of the first i + 1 elements |
| Calibration.Positions | lib_evaluation/montecarlo_evaluator.py:238 | one position per sample |
| Calibration.PositionsRecurrence | lib_evaluation/montecarlo_evaluator.py:229-238 | position[0] = s[0] - logn and position[i] = position[i-1] + s[i] - logn |
| Calibration.PositionsClosedForm | lib_evaluation/montecarlo_evaluator.py:229-238 | position[i] = s[0] + ... + s[i] - (i + 1) * logn |
| Calibration.ConstantSamplesPositions | lib_evaluation/montecarlo_evaluator.py:229-238 | equal samples c give position[i] = (i + 1) * (c - logn) |
| Calibration.PositionsCanDecrease | lib_evaluation/montecarlo_evaluator.py:238 | the positions are not monotone: samples [1, 1] with logn 2 give [-1, -2] |
| MonteCarlo.MonteCarloEvaluator.constructor | lib_evaluation/montecarlo_evaluator.py:27-41 | stores the arguments (defaults log_scale 2 and samples_num 10000) and starts with empty samples_prob and position |
| MonteCarlo.MonteCarloEvaluator.RandomWalk | lib_evaluation/montecarlo_evaluator.py:52-101 | the retry loop and slot filling compute exactly `Walk`; a returned item comes from a base without "M" and follows it slot by slot; its prob is `_find_prob(pt, base_prob)` |
| MonteCarlo.MonteCarloEvaluator.FillSlots | lib_evaluation/montecarlo_evaluator.py:79-96 | the placeholder list overwritten in place equals `ChooseSlots`, errors included |
| MonteCarlo.MonteCarloEvaluator.DrawSamples | lib_evaluation/montecarlo_evaluator.py:198-205 | the appending loop computes exactly `Draws` |
| MonteCarlo.MonteCarloEvaluator.RdSampling | lib_evaluation/montecarlo_evaluator.py:180-215 | computes exactly `Sampling`, whose properties SamplingSpec states; a result has samples_num values in non-increasing order |
| MonteCarlo.MonteCarloEvaluator.PosCalculating | lib_evaluation/montecarlo_evaluator.py:218-240 | with samples_num > 0: returns True and sets position to cumsum(samples - LogN()), one per sample, where `LogN` is log10(samples_num) when log_scale is 10 and log2(samples_num) otherwise (lines 231-235); with samples_num <= 0, math.log raises ValueError and position is unchanged |
| MonteCarlo.MonteCarloEvaluator.Setup | lib_evaluation/montecarlo_evaluator.py:243-260 | samples_num becomes n; a failed sampling leaves samples_prob and position unchanged; otherwise samples_prob is the sampling result; then position is computed when n > 0, and ValueError is raised when n <= 0; on success both have length n and samples_prob is non-increasing |
| SyllableDetection.CheckDVowel | lib_trainer/detection_rules/syllable_detection.py:19-39 | IndexError exactly for the empty string and for a one-key string starting with h, n or m; False for any other one-key string |
| SyllableDetection.CheckDVowelIsDoubleVowel | lib_trainer/detection_rules/syllable_detection.py:31-39 | for two or more keys, True exactly when the first two are in D_VOWEL = hk, ho, hl, nj, np, nl, ml (line 71) |
| SyllableDetection.OnsetGuardAlwaysHolds | lib_trainer/detection_rules/syllable_detection.py:80 | the guard `c not in LENIS or CONSTR_ONSET_ONLY` (`OnsetRejected`) holds for every key, because the non-empty list is truthy |
| SyllableDetection.DetectKorean | lib_trainer/detection_rules/syllable_detection.py:76-81 | IndexError exactly for an empty text; otherwise None |
| SyllableDetection.VowelPositions | lib_trainer/detection_rules/syllable_detection.py:84-87 | strictly increasing indices; each points at a VOWEL key; every VOWEL position is included |
| SyllableDetection.DetectSyllables | lib_trainer/detection_rules/syllable_detection.py:139-172 | the section list is unchanged; the result is [] exactly when no tag contains 'A'; otherwise the first such section raises IndexError if its text is empty and TypeError (unpacking None) otherwise |

## Left out

- The random number generator and its seeding from the clock (`random.seed(datetime.now().microsecond)`, line 196) are replaced by the explicit stream of variates.
  - Index selection is modelled as `Floor(u * n)`. Uniformity is an assumption about the stream, not a proved property.
  - The `while isM` loop that never ends (no base without "M") shows up as `Err(OutOfDraws)` on every stream. `NoEligibleBaseExhaustsEveryStream` states this.
- Floating point. Probabilities are `real`; `math.log2`/`math.log10` are uninterpreted functions (`MathLog`); `cumsum` is exact addition. Rounding is not modelled.
- `math.log` of a non-positive sample raises ValueError. The model raises it for the whole list and does not say which element triggered it.
- The `PcfgGrammar` superclass (lib_guesser) is not part of this model.
  - Grammar and base structures are input data.
  - `_find_prob(pt, base_prob)` is the function-valued field `findProb`. So `RandomWalk` relates `prob` to `findProb`, not to `PtProb`.
- `str.upper` is modelled for ASCII letters only.
- `_honeyword_recursive_guess` is a pure function, `Honeyword.HoneywordGuess`: the method only reads `self.grammar`. Its `limit` parameter is ignored by the source and is left out.
- The Python code indexes a production with an integer from the parse tree. Negative indices (Python would count from the end) are outside the model: a slot index is a `nat`.
- `Honeyword.HoneywordGuess`: its own contract states only the empty-tree error. Its behaviour is stated by `MarkovAtHeadReturnsZero`, `CapitalizeTail`, `EmptyMaskErasesGuess`, `PlainGuessIsConcatenation`, `GuessUnfold` and `GuessProbIsProduct`.
- `_find_input_prob`, `_find_pos` (constant stubs) and `evaluate_PCFG` (file I/O and logging, lines 263-308) are not modelled. Neither is the command-line driver `pcfg_evaluator.py`.
- `print` and `sys.exit()` in `setup` are left out. `_pos_calculating` returns True whenever it returns, so the exit never happens.
- In `detect_korean`, the code after the guard at line 80 is unreachable, because the guard is always true. This covers the Korean-rule `while` loop and the construction of the result (lines 89-127), which also call `check_d_vowel` on a list of integers and `list.append` with two arguments. It is not modelled.
  - The vowel scan (lines 84-87) is modelled on its own, as `VowelPositions`.
  - `KoreanParse` only gives a type to the unreachable success result.
- In `syllable_detection`, the in-place `del` and slice insertion (lines 167-168) and the append to `korean_list` come after the failing unpack, so they are never reached. `DetectSyllables` returns the list it was given.
- `detect_greek` and `detect_japanese` are empty stubs.
- The syllable detector's unit tests expect Korean strings to be found. The code as written never finds one (see `DetectSyllables`), so those expectations are not stated.
- Design note: the positions need not be non-decreasing. Each increment is `s_i - log_b(samples_num)`, which is negative whenever a sample's probability exceeds 1 / samples_num. `PositionsCanDecrease` exhibits such a case, so no monotonicity is claimed.
