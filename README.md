# Rythmic keystroke authenticator, modelled in Dafny

Rythmic authenticates a user by password and by typing rhythm. It has two front ends.
- The web version, `Rythmic-V1.3.py`, receives intervals that the browser has already captured.
- The terminal version, `Rythmic-v1.2.py`, reads the keys itself.

Both front ends share one `KeystrokeAuthenticator` core, and this project models that core.
- `stats.dfy` (module `Stats`) holds the statistics the core uses: `sum`, `statistics.mean`, `statistics.median` (which sorts, here by insertion sort), `min`, `max`, and `statistics.stdev` as the square root of the sample variance (divisor n − 1). The square root is a parameter of type `Root`. The model assumes only that it maps 0 to 0, is never negative, and is positive on positive arguments.
- `features.dfy` (module `Features`) models `calculate_timing_features`. It returns nothing for fewer than two intervals. Otherwise it returns the six statistics, as a record or as the dictionary `timing_profile` stores.
- `scoring.dfy` (module `Scoring`) models `compare_timing_profiles`. It has two forms: the specification function `Similarity` and the loop `CompareTimingProfiles`, which builds the `diffs` list.
- `aggregation.dfy` (module `Aggregation`) models the nested averaging loops of `enroll_user`. They are the loop method `AverageFeatures`, proved against the function `Aggregate`.
- `profiles.dfy` (module `Profiles`) holds two things:
  - the stored profile `{password, timing_profile, password_length}`;
  - the ordered decision chain of `authenticate_user`, with its 0.60 threshold, as the function `Decide`.
- `web_authenticator.dfy` (module `WebAuthenticator`) holds the V1.3 class. Its `profiles` dictionary is a `map` field. `enroll_user`, `delete_user` and the `/api/enroll` route change that field, while `authenticate_user` and `list_users` only read it.
- `key_capture.dfy` (module `KeyCapture`) models the key-event loop of the v1.2 `capture_keystroke_timing`. Each event is a key paired with the clock reading taken after it, and the model covers the Windows and POSIX branches. `Run` is the specification and `CaptureKeystrokeTiming` is the `while` loop.
- `terminal_authenticator.dfy` (module `TerminalAuthenticator`) holds the v1.2 class:
  - `enroll_user` with its sample loop and password-consistency check;
  - `authenticate_user`, which captures one typing;
  - `delete_user`.

The two versions' `calculate_timing_features`, `compare_timing_profiles` and averaging loops are the same line for line: compare V1.3:28-61 and 67-77 with v1.2:95-132 and 156-166. Both classes therefore use the same `Features.Extract`, `Scoring.Similarity` and `Aggregation.Aggregate`.

The JSON profile file is modelled as a ghost field `persisted`. The class invariant `Valid()` says it equals `profiles` between operations, and every changing operation that the source follows with `save_profiles` re-establishes it.

Three behaviours of the code worth noting:
- When exactly one of two values is zero, that key adds 1 to the total difference, and this 1 is not multiplied by the key's weight. A single such key therefore drives the score to 0, as long as no scored value is negative.
- `enroll_user` overwrites an existing user in both versions. Only the web route refuses an existing username.
- When every sample has fewer than two intervals, enrollment still succeeds and stores an empty feature dictionary. Such a user can never pass authentication. With fewer than two intervals `Profiles.Decide`'s own contract already answers "Insufficient timing data". For a typing of at least two intervals, `Profiles.EmptyProfileNeverAccepted` shows the answer is "Typing pattern mismatch" with similarity 0.

## Model

| member | source | states |
|---|---|---|
| `Stats.Sum` | Rythmic-V1.3.py:38 | `sum(timings)`, adding left to right; `SumOfThree`, `SumBounds`, `SumNonNegative` and `SumMonotone` state its properties |
| `Stats.Mean` | Rythmic-V1.3.py:33 | `statistics.mean`, the sum divided by the count, for a non-empty list only; `MeanBounds` and `MeanMonotone` state its properties |
| `Stats.Min` | Rythmic-V1.3.py:36 | `min(timings)` of a non-empty list; `MinIsLeast` states what it returns |
| `Stats.Max` | Rythmic-V1.3.py:37 | `max(timings)` of a non-empty list; `MaxIsGreatest` states what it returns |
| `Stats.Median` | Rythmic-V1.3.py:34 | `statistics.median`: the middle element of the sorted data, or the mean of the two middle elements for an even count; `MedianBetweenExtremes` and `MedianOfThree` state its properties |
| `Stats.SampleVariance` | Rythmic-V1.3.py:35 | the variance under `statistics.stdev`: squared deviations from the mean divided by n − 1, for at least two values; `VarianceZeroIffConstant` states its properties |
| `Stats.Stdev` | Rythmic-V1.3.py:35 | `statistics.stdev`: the square root of the sample variance; `Features.StdevZeroIffEqual` states its properties |
| `Stats.Insert` | Rythmic-V1.3.py:34 | inserting one value into the data being sorted adds exactly that value and one to the length |
| `Stats.Sort` | Rythmic-V1.3.py:34 | the data `statistics.median` sorts has the same length and is a permutation (same multiset) of the input |
| `Stats.SortIsSorted` | Rythmic-V1.3.py:34 | the sorted data is in non-decreasing order |
| `Stats.InsertKeepsSorted` | Rythmic-V1.3.py:34 | inserting into sorted data keeps it sorted |
| `Stats.MinIsLeast` | Rythmic-V1.3.py:36 | `min(timings)` is one of the intervals and no interval is smaller |
| `Stats.MaxIsGreatest` | Rythmic-V1.3.py:37 | `max(timings)` is one of the intervals and no interval is larger |
| `Stats.MedianBetweenExtremes` | Rythmic-V1.3.py:34-37 | the median lies between the minimum and the maximum |
| `Stats.MeanBetweenExtremes` | Rythmic-V1.3.py:33-37 | the mean lies between the minimum and the maximum |
| `Stats.SortedBetweenExtremes` | Rythmic-V1.3.py:34-37 | every element of the sorted data lies between the minimum and the maximum |
| `Stats.InsertFront` | Rythmic-V1.3.py:34 | a value not above the first element goes in front |
| `Stats.InsertPast` | Rythmic-V1.3.py:34 | a value above the only element goes after it |
| `Stats.InsertBetween` | Rythmic-V1.3.py:34 | a value between the two elements goes between them |
| `Stats.SortOfThree` | Rythmic-V1.3.py:34 | three values are sorted by inserting the first into the sorted last two |
| `Stats.MedianOfLengthThree` | Rythmic-V1.3.py:34 | the median of three values is the middle one once sorted |
| `Stats.MedianOfThree` | Rythmic-V1.3.py:34 | the median of a, b, c is the middle element of the insertion sort of a, b, c |
| `Stats.SumOfThree` | Rythmic-V1.3.py:38 | the sum of a, b, c is a + b + c |
| `Stats.SumBounds` | Rythmic-V1.3.py:38 | the sum of n values in [lo, hi] lies in [n·lo, n·hi] |
| `Stats.SumNonNegative` | Rythmic-V1.3.py:38 | the sum of non-negative intervals is non-negative |
| `Stats.SumMonotone` | Rythmic-V1.3.py:77 | a pointwise smaller list has a smaller or equal sum |
| `Stats.MeanMonotone` | Rythmic-V1.3.py:77 | a pointwise smaller list has a smaller or equal mean |
| `Stats.MeanBounds` | Rythmic-V1.3.py:33 | the mean of values in [lo, hi] lies in [lo, hi] |
| `Stats.MeanOfConstant` | Rythmic-V1.3.py:77 | the mean of equal values is that value |
| `Stats.SumOfConstant` | Rythmic-V1.3.py:38 | the sum of n copies of c is n·c |
| `Stats.VarianceZeroIffConstant` | Rythmic-V1.3.py:35 | the sample variance is non-negative, and it is zero exactly when all intervals are equal |
| `Stats.SquaredDeviationsZero` | Rythmic-V1.3.py:35 | the sum of squared deviations from m is zero exactly when every value equals m |
| `Stats.SquaredDeviationsNonNegative` | Rythmic-V1.3.py:35 | the sum of squared deviations is never negative |
| `Features.Extract` | Rythmic-V1.3.py:28-40 | `calculate_timing_features` returns nothing exactly when there are fewer than two intervals |
| `Features.AsMap` | Rythmic-V1.3.py:32-39 | the feature dictionary holds exactly the six keys, each with the record's value |
| `Features.ExtractFacts` | Rythmic-V1.3.py:32-39 | total_time is the sum; every interval lies in [min, max]; min ≤ mean ≤ max; min ≤ median ≤ max; stdev ≥ 0, and stdev is 0 exactly when all intervals are equal |
| `Features.StdevZeroIffEqual` | Rythmic-V1.3.py:35 | the standard deviation is non-negative, and it is zero exactly when all intervals are equal |
| `Features.ExtractNonNegative` | Rythmic-V1.3.py:32-39 | non-negative intervals give six non-negative features |
| `Features.ExtractConstant` | Rythmic-V1.3.py:32-39 | n intervals all equal to c give mean, median, min and max c, stdev 0 and total n·c |
| `Features.ExtractThreeEqualIntervals` | Rythmic-V1.3.py:32-39 | three intervals of 0.1 s give (0.1, 0.1, 0, 0.1, 0.1, 0.3) |
| `Features.ExtractThree` | Rythmic-V1.3.py:32-39 | three intervals not all equal give total a + b + c, mean a third of it, the sorted middle value as median, and a positive stdev |
| `Scoring.Weight` | Rythmic-V1.3.py:47 | the weights 0.3, 0.2, 0.2 and 0.3 of mean, median, stdev and total time; `AllPositiveScoresPositive` uses that they sum to 1 |
| `Scoring.KeyDiff` | Rythmic-V1.3.py:50-56 | one key's entry in `diffs`: 0 when both values are 0, an unweighted 1 when exactly one is, otherwise the relative difference times the weight; `KeyDiffSymmetric` and `KeyDiffBounds` state its properties |
| `Scoring.Similarity` | Rythmic-V1.3.py:42-61 | the score is never negative, and it is 0 when either profile is empty |
| `Scoring.CompareTimingProfiles` | Rythmic-V1.3.py:42-61 | the loop over the weighted keys, the sum of `diffs` and the clamp compute `Similarity` |
| `Scoring.Diffs` | Rythmic-V1.3.py:46-56 | there is one difference per weighted key |
| `Scoring.SimilarityWithItself` | Rythmic-V1.3.py:49-61 | any non-empty profile scores 1 against itself |
| `Scoring.SimilaritySymmetric` | Rythmic-V1.3.py:49-61 | the score does not depend on the order of the two profiles |
| `Scoring.KeyDiffSymmetric` | Rythmic-V1.3.py:50-56 | a key's difference does not depend on the order of its two values |
| `Scoring.KeyDiffBounds` | Rythmic-V1.3.py:50-56 | for non-negative values a key's difference is non-negative, and below the key's weight when both values are positive |
| `Scoring.DiffsNonNegative` | Rythmic-V1.3.py:46-56 | non-negative profiles give non-negative differences |
| `Scoring.SimilarityAtMostOne` | Rythmic-V1.3.py:49-61 | for non-negative features the score is at most 1, so it lies in [0, 1] |
| `Scoring.ZeroMismatchScoresZero` | Rythmic-V1.3.py:52-61 | for profiles whose scored values are all non-negative, if exactly one of them has 0 for a scored key, the unweighted 1 makes the score 0 |
| `Scoring.SumAtLeastElement` | Rythmic-V1.3.py:58 | one non-negative difference is at most their sum |
| `Scoring.AllPositiveScoresPositive` | Rythmic-V1.3.py:47-61 | when every scored value of both profiles is positive, each key adds less than its weight, the weights sum to 1, and the score is positive |
| `Scoring.OnlySpreadDiffers` | Rythmic-V1.3.py:47-61 | profiles that agree on mean, median and total time, with both stdevs positive, score above 0.8 |
| `Aggregation.Aggregate` | Rythmic-V1.3.py:67-77 | the stored `avg_features`: for each feature key with at least one contributing sample, the mean of the contributing samples' values; `AggregateKeys`, `AggregateOfCopies`, `AggregateOfThree`, `AggregateNonNegative` and `AggregateOrdered` state its properties |
| `Aggregation.AverageOver` | Rythmic-V1.3.py:70-77 | `avg_features` after the outer loop has handled some keys: the mean of each handled key's column, for non-empty columns only |
| `Aggregation.Column` | Rythmic-V1.3.py:71-75 | one key's value from each record, one value per record |
| `Aggregation.Values` | Rythmic-V1.3.py:71-75 | the `values` list of one key: that key's column over the contributing samples |
| `Aggregation.Qualified` | Rythmic-V1.3.py:72-75 | only samples with at least two intervals contribute |
| `Aggregation.SampleFeatures` | Rythmic-V1.3.py:72-75 | one feature record per contributing sample |
| `Aggregation.QualifiedFrom` | Rythmic-V1.3.py:72-75 | every contributing sample is one of the samples |
| `Aggregation.QualifiedAll` | Rythmic-V1.3.py:72-75 | when every sample has at least two intervals, all of them contribute, in order |
| `Aggregation.SampleFeaturesAllQualified` | Rythmic-V1.3.py:72-75 | when every sample has at least two intervals, the i-th record is the i-th sample's features |
| `Aggregation.AverageOverThree` | Rythmic-V1.3.py:70-77 | averaging three records gives every key, each the mean of the three values |
| `Aggregation.AggregateOfThree` | Rythmic-V1.3.py:67-77 | three samples of at least two intervals store, for every key, the mean of the three samples' values |
| `Aggregation.AverageFeatures` | Rythmic-V1.3.py:67-77 | the nested loops build `avg_features` equal to `Aggregate`, the per-key mean over the contributing samples |
| `Aggregation.KeyValues` | Rythmic-V1.3.py:71-75 | the inner loop collects, in sample order, the key's value from every sample with at least two intervals |
| `Aggregation.QualifiedEmpty` | Rythmic-V1.3.py:72-76 | no sample contributes exactly when every sample has fewer than two intervals |
| `Aggregation.AggregateKeys` | Rythmic-V1.3.py:67-77 | the averaged profile is empty when no sample contributes, and holds all six keys otherwise |
| `Aggregation.AggregateNonNegative` | Rythmic-V1.3.py:67-77 | samples of non-negative intervals give a profile of non-negative features |
| `Aggregation.SampleFeaturesNonNegative` | Rythmic-V1.3.py:72-75 | each contributing sample of non-negative intervals has non-negative features |
| `Aggregation.AverageNonNegative` | Rythmic-V1.3.py:76-77 | averaging non-negative records gives non-negative values |
| `Aggregation.AggregateOfCopies` | Rythmic-V1.3.py:67-77 | enrolling the same typing several times stores exactly that typing's features |
| `Aggregation.SampleFeaturesOfCopies` | Rythmic-V1.3.py:72-75 | copies of one sample each have that sample's features |
| `Aggregation.AverageOfCopies` | Rythmic-V1.3.py:76-77 | averaging copies of one record gives its values |
| `Aggregation.AggregateOrdered` | Rythmic-V1.3.py:67-77 | in the averaged profile min ≤ mean ≤ max and min ≤ median ≤ max |
| `Aggregation.SampleFeaturesOrdered` | Rythmic-V1.3.py:72-75 | every contributing sample has min ≤ mean ≤ max and min ≤ median ≤ max |
| `Aggregation.AverageOrdered` | Rythmic-V1.3.py:76-77 | averaging ordered records keeps that order |
| `Profiles.NewProfile` | Rythmic-V1.3.py:79-83 | the stored entry keeps the password as given and records its length; its features are all six keys or none, and none exactly when every sample has fewer than two intervals |
| `Profiles.Current` | Rythmic-V1.3.py:97-103 | the current typing's features can be scored |
| `Profiles.Decide` | Rythmic-V1.3.py:88-109 | checks in order: unknown user, wrong password, fewer than two intervals, each with similarity 0; then success exactly when similarity ≥ 0.60, with that similarity reported either way |
| `Profiles.SuccessNeedsPasswordAndTimings` | Rythmic-V1.3.py:88-109 | success needs a known user, the stored password, at least two intervals and a similarity of at least 0.60 |
| `Profiles.SimilarityInRange` | Rythmic-V1.3.py:101-109 | with non-negative stored features and intervals, the reported similarity lies in [0, 1] |
| `Profiles.EmptyProfileNeverAccepted` | Rythmic-V1.3.py:76-109 | a user stored with an empty profile who types the right password with at least two intervals always gets "Typing pattern mismatch" with similarity 0 |
| `Profiles.SameTypingAccepted` | Rythmic-V1.3.py:63-109 | enrolling copies of one typing of at least two intervals, then typing it again with the right password, succeeds with similarity 1 |
| `Profiles.SameRhythmAccepted` | Rythmic-V1.3.py:42-109 | a typing that matches the stored mean, median and total time, with both stdevs positive, is accepted with similarity above 0.8 |
| `Profiles.AliceAccepted` | Rythmic-V1.3.py:63-109 | "alice" enrolled with password "hunter2" and samples (0.1, 0.12, 0.11), (0.11, 0.1, 0.13), (0.09, 0.11, 0.12), then typing "hunter2" with intervals 0.1, 0.11, 0.12, is accepted |
| `Profiles.AliceStored` | Rythmic-V1.3.py:67-77 | those three samples store all six keys, with mean 0.11, median 0.11, total time 0.33 and a positive stdev |
| `Profiles.StoredFeatures` | Rythmic-V1.3.py:67-77 | three samples with the example's per-sample mean, median, total time and positive stdev store mean 0.11, median 0.11, total time 0.33 and a positive stdev |
| `Profiles.StoredAverages` | Rythmic-V1.3.py:76-77 | the averages of the example's three records are mean 0.11, median 0.11, total time 0.33, with a positive stdev |
| `Profiles.FirstSample` | Rythmic-V1.3.py:32-39 | intervals 0.1, 0.12, 0.11 give mean 0.11, median 0.11, total 0.33 and a positive stdev |
| `Profiles.SecondSample` | Rythmic-V1.3.py:32-39 | intervals 0.11, 0.1, 0.13 give mean 0.34/3, median 0.11, total 0.34 and a positive stdev |
| `Profiles.ThirdSample` | Rythmic-V1.3.py:32-39 | intervals 0.09, 0.11, 0.12 give mean 0.32/3, median 0.11, total 0.32 and a positive stdev |
| `Profiles.CurrentFeatures` | Rythmic-V1.3.py:32-39 | intervals 0.1, 0.11, 0.12 give mean 0.11, median 0.11, total 0.33 and a positive stdev |
| `WebAuthenticator.KeystrokeAuthenticator.constructor` | Rythmic-V1.3.py:14-16 | starts from the loaded profiles, with the file in agreement |
| `WebAuthenticator.KeystrokeAuthenticator.SaveProfiles` | Rythmic-V1.3.py:24-26 | the file now holds the profiles, and they are unchanged |
| `WebAuthenticator.KeystrokeAuthenticator.Enroll` | Rythmic-V1.3.py:63-86 | fewer than 3 samples gives (False, "Need at least 3 samples") with profiles unchanged; otherwise (True, "User enrolled successfully"), with exactly that user's entry set, replacing any earlier one, to the new profile |
| `WebAuthenticator.KeystrokeAuthenticator.EnrollRequest` | Rythmic-V1.3.py:134-141 | a missing username or password, then an existing username, are refused with profiles unchanged; existing users are never changed; success exactly for a new non-empty username and password with at least 3 samples |
| `WebAuthenticator.KeystrokeAuthenticator.Authenticate` | Rythmic-V1.3.py:88-109 | changes nothing and returns the decision chain's success, message and similarity |
| `WebAuthenticator.KeystrokeAuthenticator.ListUsers` | Rythmic-V1.3.py:111-112 | every enrolled username exactly once, and nothing else |
| `WebAuthenticator.KeystrokeAuthenticator.Delete` | Rythmic-V1.3.py:114-119 | returns whether the user was present and removes exactly that user |
| `KeyCapture.Start` | Rythmic-v1.2.py:30-32 | the loop starts with an empty password, no intervals, and `last_time` the prompt's clock reading |
| `KeyCapture.Step` | Rythmic-v1.2.py:44-58 | one event that does not end the loop: Backspace drops the last character and interval when there is one, a typed key appends itself and its interval and moves `last_time`, a dropped byte changes nothing; `BackspaceUndoesLast` and `TypedStep` state its cases |
| `KeyCapture.Run` | Rythmic-v1.2.py:37-87 | the rest of the loop from a state: Enter returns the state's password and intervals, Ctrl+C is an interrupt, anything else steps; `EnterEndsCapture`, `RunKeepsAligned`, `RunNonNegative` and `PlainTypingFrom` state its properties |
| `KeyCapture.CaptureTiming` | Rythmic-v1.2.py:27-92 | `capture_keystroke_timing` as a function of the key events: `Run` from the start state; `CapturedAligned`, `CapturedNonNegative` and `PlainTyping` state its properties |
| `KeyCapture.Classify` | Rythmic-v1.2.py:42-58 | Windows: Enter `\r`, Backspace `\x08`, a byte below 128 typed, any other byte dropped. POSIX branch: lines 73-87 |
| `KeyCapture.DropLast` | Rythmic-v1.2.py:46-47 | `s[:-1]` is one shorter than a non-empty list, and an empty list stays empty |
| `KeyCapture.DropLastAppend` | Rythmic-v1.2.py:46-47 | `s[:-1]` undoes appending one element |
| `KeyCapture.CaptureKeystrokeTiming` | Rythmic-v1.2.py:27-92 | the event loop returns the capture that `CaptureTiming` defines |
| `KeyCapture.RunStep` | Rythmic-v1.2.py:37-87 | from event i the loop ends on Enter, is interrupted on Ctrl+C, and otherwise continues from the stepped state |
| `KeyCapture.RunAdvance` | Rythmic-v1.2.py:44-58 | an event other than Enter and Ctrl+C steps the state and moves on to the next event |
| `KeyCapture.TypedStep` | Rythmic-v1.2.py:82-87 | a typed key appends itself and the time since `last_time`, and becomes `last_time` |
| `KeyCapture.CapturedAligned` | Rythmic-v1.2.py:44-58 | a captured password has exactly one interval per character |
| `KeyCapture.RunKeepsAligned` | Rythmic-v1.2.py:75-87 | every event keeps one interval per character |
| `KeyCapture.BackspaceUndoesLast` | Rythmic-v1.2.py:44-56 | Backspace after a typed key restores password and intervals but not `last_time`; Backspace on an empty password changes nothing |
| `KeyCapture.EnterEndsCapture` | Rythmic-v1.2.py:42-43 | nothing after the first Enter is read |
| `KeyCapture.CapturedNonNegative` | Rythmic-v1.2.py:32-56 | key times that never go backwards give non-negative intervals |
| `KeyCapture.RunNonNegative` | Rythmic-v1.2.py:82-87 | monotone times keep every interval non-negative |
| `KeyCapture.PlainTyping` | Rythmic-v1.2.py:32-56 | typed keys with no Enter yet: the state built up is exactly the typed keys (`Keys`) and the intervals between them (`Gaps`), the first measured from the prompt; `PlainTypingThenEnter` is the form ended by Enter |
| `KeyCapture.PlainTypingFrom` | Rythmic-v1.2.py:82-87 | from any state of the loop, plain typing appends the typed keys to the password and their intervals, the first measured from `last_time`, to the timings |
| `KeyCapture.PlainTypingThenEnter` | Rythmic-v1.2.py:32-87 | typing without corrections ended by Enter captures exactly the typed keys and the intervals between them, the first measured from the prompt |
| `KeyCapture.TypedThenEnter` | Rythmic-v1.2.py:42-87 | Enter after typed keys returns the password and intervals those keys built up |
| `KeyCapture.PlainTypingStep` | Rythmic-v1.2.py:82-87 | one typed key followed by plain typing gives the same capture as plain typing from before that key |
| `KeyCapture.Keys` | Rythmic-v1.2.py:83 | the keys of plain typing, one character per event |
| `KeyCapture.Gaps` | Rythmic-v1.2.py:84-85 | the intervals of plain typing, one per event, each measured from the previous key |
| `KeyCapture.KeysCons` | Rythmic-v1.2.py:83 | the first key comes first, then the keys of the rest |
| `KeyCapture.GapsCons` | Rythmic-v1.2.py:84-87 | the first interval is measured from `last_time`, the rest from the first key |
| `TerminalAuthenticator.CaptureOf` | Rythmic-v1.2.py:144 | one prompt's capture: `capture_keystroke_timing` on that prompt's start time and key events |
| `TerminalAuthenticator.First` | Rythmic-v1.2.py:143-152 | the first prompt: Ctrl+C stops the loop; otherwise its password becomes the password and its intervals the first sample |
| `TerminalAuthenticator.Next` | Rythmic-v1.2.py:143-152 | a later prompt: a stopped loop stays stopped, Ctrl+C stops it, a different password is a mismatch, otherwise the intervals are appended |
| `TerminalAuthenticator.Collect` | Rythmic-v1.2.py:143-152 | the outcome of the whole sample loop, prompt by prompt; `CollectConsistent`, `CollectRecords`, `CollectAbortedStays` and `CollectMismatchStays` state its properties |
| `TerminalAuthenticator.CollectFirst` | Rythmic-v1.2.py:143-152 | after the first prompt the loop's outcome is `First` of its capture |
| `TerminalAuthenticator.CollectStep` | Rythmic-v1.2.py:143-152 | each further prompt updates the outcome by `Next` |
| `TerminalAuthenticator.CollectConsistent` | Rythmic-v1.2.py:143-153 | the samples are collected exactly when no prompt is interrupted and every password equals the first |
| `TerminalAuthenticator.CollectRecords` | Rythmic-v1.2.py:143-153 | collected samples hold one interval list per prompt, in prompt order, each under the first prompt's password |
| `TerminalAuthenticator.KeystrokeAuthenticator.CollectSamples` | Rythmic-v1.2.py:140-153 | the sample loop, with its early returns on Ctrl+C and on a mismatch, computes `Collect` |
| `TerminalAuthenticator.CollectAbortedStays` | Rythmic-v1.2.py:143-153 | once Ctrl+C has stopped the sample loop, later prompts do not change that |
| `TerminalAuthenticator.CollectMismatchStays` | Rythmic-v1.2.py:146-150 | once a password has differed, later prompts do not change that |
| `TerminalAuthenticator.KeystrokeAuthenticator.constructor` | Rythmic-v1.2.py:10-12 | starts from the loaded profiles, with the file in agreement |
| `TerminalAuthenticator.KeystrokeAuthenticator.SaveProfiles` | Rythmic-v1.2.py:21-24 | the file now holds the profiles, and they are unchanged |
| `TerminalAuthenticator.KeystrokeAuthenticator.Enroll` | Rythmic-v1.2.py:134-177 | Ctrl+C or a password mismatch leaves profiles unchanged (returning False on a mismatch); otherwise True, with exactly that user's entry set, replacing any earlier one |
| `TerminalAuthenticator.KeystrokeAuthenticator.Authenticate` | Rythmic-v1.2.py:179-217 | changes nothing; an unknown user gets False whatever is typed; otherwise the decision chain's success on the captured password and intervals |
| `TerminalAuthenticator.KeystrokeAuthenticator.Delete` | Rythmic-v1.2.py:219-226 | removes the named user if present; nothing else changes |

## Left out

- The Flask application, its routes other than the `/api/enroll` checks, the `session`, `jsonify`, and the rounding of the similarity to a percentage (Rythmic-V1.3.py:123-190). These are transport and session handling.
- The HTML, CSS and JavaScript page, including the browser's capture of intervals. This is user interface, and it is not Python.
- Reading and writing the JSON file. Loading becomes the constructor's argument and saving becomes the ghost field `persisted`. The JSON round trip of floats is not modelled.
- Terminal input and output. This covers `msvcrt`, `termios`, `tty`, `sys.stdin.read`, `print`, `time.sleep`, the `main` menu and its empty-username checks. The clock `time.perf_counter` becomes the time carried by each key event and by each prompt.
- The v1.2 `list_users`. It only prints the usernames.
- The v1.2 `compare_timing_profiles` parameter `threshold`. It is never read, so `Scoring.Similarity` serves both versions.
- Floating point. Values are exact reals. Rounding, NaN and infinities are not modelled. `statistics.stdev` is known only through the properties of the square root parameter.
- Concurrency of the Flask development server.
- `Features.Extract`: the `else 0` branch of the stdev expression is not modelled. It cannot be reached once fewer than two intervals have been turned away.
- `Scoring.Similarity`: profiles must be empty or hold the four scored keys. A stored dictionary missing one of them makes the source fail with `KeyError`. The constructors therefore require loaded profiles of that shape.
- `Scoring.ZeroMismatchScoresZero`: stated only for profiles whose scored values are non-negative. A negative value makes its key's difference negative, which can offset the unweighted 1. The source never stores or computes such values from non-decreasing timestamps (`KeyCapture.CapturedNonNegative`, `Aggregation.AggregateNonNegative`), so the model does not cover them.
- `TerminalAuthenticator.KeystrokeAuthenticator.Enroll` requires at least one prompt. With `num_samples=0` the source fails on `len(None)`. The number of prompts stands for `num_samples`, which defaults to 3.
- `KeyCapture.CaptureTiming`: a key stream that ends without Enter ends the capture. The source would keep waiting for keys. On POSIX it would treat an empty read at end of input as a typed key.
- `KeyCapture.Classify`: Ctrl+C during a Windows capture is not modelled. There `getch` does not return it as a byte; Python raises `KeyboardInterrupt` while the loop waits, so the Windows branch of the model never interrupts.
- `KeyCapture.Classify`: a Windows key is one byte of `getch`, held as the character with that code. A byte of 128 or more fails to decode on its own and is dropped, as the source's `except` does.
- A `KeyboardInterrupt` raised in the capture is returned as the value `KeyboardInterrupt` or `Aborted`, not raised. The terminal's raw mode is restored in either case, and that is not modelled.
- `WebAuthenticator.KeystrokeAuthenticator.ListUsers`: the order of the usernames is not modelled, because a Dafny `map` has no insertion order.
