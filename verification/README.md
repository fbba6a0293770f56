# Stratified processing times, start-time estimation and start/complete pairing

This project is a Dafny model of the data-preparation and stochastic core of
a business-process simulation toolkit. The model has three parts.

* **Processing-time distributions** (`bpo-project/bpo/distributions.py`).
  - Uniform and categorical distributions: how they are learned and sampled.
  - `StratifiedNumericDistribution`. `learn` does five things:
    1. splits the feature columns into standardized, min-max ("rest") and one-hot blocks;
    2. encodes every row as the concatenation of those three blocks;
    3. trains a regressor with hidden layers `(d, d/2, d/4)`;
    4. fits a Normal to all residuals;
    5. keeps one residual distribution per stratum (a value of the stratifying column). A stratum with more than 50 residuals gets its own fit; the others share the overall fit. An optional cap replaces an over-wide one with `Normal(0, cap)`.
  - `sample` predicts. A non-positive prediction is replaced by the training mean. It then redraws the residual up to ten times while prediction + residual is not positive.
* **Start-time estimation** (`preprocessing/testupdatedestimator.py`). The input is a log that records only completion times. The model covers:
  - per-resource concurrency from a 60-minute look-back window;
  - typical activity durations from the recorded gaps inside cases (1 to 1440 minutes);
  - the row loop that places each start before its completion. The loop uses:
    - the elapsed time since the case's or the resource's previous completion;
    - a multitasking share `max(0.1, 0.7 / factor)`;
    - a clamp to at most 360 minutes;
    - a short random duration for every "Assign seriousness" row of a case whose first event is "Assign seriousness".
* **Start/complete pairing** (`preprocessing/mergePairsWithZeros.py`).
  - Start rows and complete rows are each numbered per (case, activity) in the order of the timestamp column as read from the CSV (`event_index`). That column is text at this point, so the order is Python's string order of the stamps, not time order.
  - Each row gets an identifier: case, activity and that index, joined by underscores.
  - `start_end_event_log_all` then joins starts to completes on case, activity and identifier. It keeps the pairs whose duration is not negative and sorts them by case and start time.

The foreign procedures are function-typed inputs:
- sklearn's scalers and `MLPRegressor`;
- scipy's Normal fit and Normal draws;
- `np.percentile`;
- `random.random`.

A uniform draw is a `UnitDraw`, a real in [0, 1). Times are reals: minutes in
the estimator and seconds in the pairing. The failures of the modelled
operations are modelled with `Result`:
- `min` of an empty list;
- `random.choices` with mismatched or zero-sum weights, or no values;
- a missing column;
- an empty training table;
- a text cell in a standardized or min-max feature column, where the scalers convert to floats;
- a one-hot column that mixes numbers and text, which the encoder cannot sort;
- a text target;
- an unseen category or stratum;
- a stratum whose stored Normal has a negative standard deviation, which `scipy.stats.norm.rvs` refuses;
- an empty hidden layer.

Modules:
- `Wrappers`: `Option` and `Result`.
- `Seqs`: counting, first-occurrence de-duplication, sums and means, decimal rendering.
- `Ordering`: Python string order and a stable sort.
- `Distributions`
- `Encoding`
- `Stratified`
- `StartEstimation`
- `Pairing`

## Model

| member | source | states |
|---|---|---|
| Distributions.LearnUniform | bpo-project/bpo/distributions.py:63-65 | Fails exactly on an empty list. Otherwise the minimum and the maximum are observed values that bound every value, and minimum <= maximum. |
| Distributions.UniformSample | bpo-project/bpo/distributions.py:67-68 | `a + (b - a) * u` lies between the two bounds, whichever of them is larger. |
| Distributions.LearnedUniformSampleInRange | bpo-project/bpo/distributions.py:63-68 | A draw from a learned uniform lies within the observed minimum and maximum. |
| Distributions.SampleCategorical | bpo-project/bpo/distributions.py:53-54 | Fails exactly when the lengths differ, the values are empty or the weights total zero. Otherwise it returns the value at a position i where u times the total lies in [sum of weights before i, sum up to and including i), the interval `bisect` finds on the cumulative weights. That weight is positive. |
| Distributions.PickDrawn | bpo-project/bpo/distributions.py:53-54 | The chosen position is the one whose cumulative-weight interval holds u times the total. |
| Distributions.LearnedCategoricalSamplesPositiveCount | bpo-project/bpo/distributions.py:49-54 | Sampling what `learn` stored succeeds and yields a value with a positive count. |
| Encoding.RestColumns | bpo-project/bpo/distributions.py:202-203 | The rest columns are the feature columns in neither explicit list. They keep the feature order and their multiplicities, and membership holds in both directions. |
| Encoding.FitCategories | bpo-project/bpo/distributions.py:218-219 | One category list per one-hot column, without repeats. Every training value is among its column's categories, and every category is a value seen in training. |
| Encoding.ColumnBlock | bpo-project/bpo/distributions.py:257-265 | Succeeds exactly when all the block's columns are present and hold numbers. A missing column is reported before a text cell. Element i is the fitted transform of column i's cell. |
| Encoding.IndicatorOneHot | bpo-project/bpo/distributions.py:267-268 | A known category sets exactly one indicator, at its own position. |
| Encoding.OneHotBlock | bpo-project/bpo/distributions.py:267-268 | Succeeds exactly when every one-hot column is present and holds a fitted category. A failure is MissingColumn when any one-hot column is absent from the record, since `data[self._onehot_columns]` selects all of them before the encoder runs, and UnknownCategory otherwise. The block is as wide as the total number of categories, and column j's slice, at the sum of the earlier columns' widths, is the indicator vector of its cell. |
| Encoding.Indicators | bpo-project/bpo/distributions.py:268 | The encoder's pass over a record that has every one-hot column: it fails only with UnknownCategory, exactly when some cell is not a fitted category, and otherwise places each column's indicator vector at that column's offset. |
| Encoding.EncodeRow | bpo-project/bpo/distributions.py:256-272 | Succeeds exactly when the row is encodable. A failure reports the standardized block's error if that block fails, else the min-max block's, else the one-hot block's, the order in which the transforms run. The width is standardized + rest + categories, and the blocks come in that order, each holding its own transform's values. |
| Encoding.EncodedWidthsAgree | bpo-project/bpo/distributions.py:223-272 | A training row and a sampled record encode to vectors of the same width. |
| Stratified.Architecture | bpo-project/bpo/distributions.py:225 | The hidden layers are d, floor(d/2) and floor(d/4). |
| Stratified.FitPipeline | bpo-project/bpo/distributions.py:207-223 | The fitted pipeline is well formed, and every training row encodes with the stated width. |
| Stratified.Residuals | bpo-project/bpo/distributions.py:230-233 | One residual per training row: its target minus the regressor's prediction for its encoding. |
| Stratified.BaseEntry | bpo-project/bpo/distributions.py:240-245 | A stratum gets its own fitted Normal exactly when it has more than 50 residuals, and shares the overall one otherwise. |
| Stratified.ApplyCap | bpo-project/bpo/distributions.py:249-250 | After the cap the standard deviation is at most the cap. An entry within the cap is unchanged; one above it becomes Normal(0, cap). |
| Stratified.StratumEntry | bpo-project/bpo/distributions.py:238-250 | Without a cap the entry is the fit-or-share choice. With one, the entry is that choice or Normal(0, cap), and its std is at most the j-th draw times the stratum's mean target. |
| Stratified.Assign | bpo-project/bpo/distributions.py:239-240 | Assigning one value per distinct key yields a map with exactly those keys, each holding its own value. |
| Stratified.ErrorMap | bpo-project/bpo/distributions.py:238-250 | The keys are exactly the strata. Each entry is decided from that stratum's own residuals, its own targets and its own cap draw. |
| Stratified.StrataCoverKeys | bpo-project/bpo/distributions.py:238 | The unique stratifier values cover the same set as the column, and each occurs in it. |
| Stratified.StrataAreStratifierValues | bpo-project/bpo/distributions.py:238 | The strata are exactly the values of the training rows' stratifier column. |
| Stratified.Fit | bpo-project/bpo/distributions.py:190-250 | The pipeline is well formed, and the regressor is the one trained on the encoded rows and the targets with hidden layers built from the encoded width. The strata are exactly the training rows' stratifier values, the fallback mean is the mean target, and the overall Normal is fitted to all residuals. |
| Stratified.LearnedRegressor | bpo-project/bpo/distributions.py:205-226 | For a table `learn` accepts, every training row encodes to width d, and the regressor is the one trained with hidden layers (d, d/2, d/4) on those encoded rows and the target column. The fallback mean is the mean target. |
| Stratified.Learn | bpo-project/bpo/distributions.py:190-229 | Fails exactly when the table is empty, lacks a needed column, has a text target, has a text cell in a scaled feature column, mixes numbers and text in a one-hot column, or when the encoded width leaves the third hidden layer empty. The error is the first one the code meets, in the order of LearnFailure: feature and target selection, target mean, standard scaler, min-max scaler, one-hot encoder, regressor, stratifier selection. |
| Stratified.LearnFailureExact | bpo-project/bpo/distributions.py:190-229 | The code-order failure check raises nothing exactly on the tables the fit accepts, with a non-empty third hidden layer. |
| Stratified.LearnedPipeline | bpo-project/bpo/distributions.py:198-223 | For a table `learn` accepts (columns present, no empty hidden layer), learning succeeds and the learned pipeline keeps the configured standardization and one-hot lists and the derived rest list. Every training row encodes to the training width. |
| Stratified.LearnedStrataTotal | bpo-project/bpo/distributions.py:238-240 | For a table `learn` accepts, the learned strata are exactly the training rows' stratifier values. |
| Stratified.LearnedEntries | bpo-project/bpo/distributions.py:228-250 | For a table `learn` accepts and any stratifier value of its rows, that value is a stratum. The overall Normal is the fit of all training residuals. Each stratum's entry is the StratumEntry of its own residuals and targets, at its first-occurrence position. |
| Stratified.Baseline | bpo-project/bpo/distributions.py:274-276 | A positive prediction is kept; a non-positive one is replaced by the training mean. |
| Stratified.Sample | bpo-project/bpo/distributions.py:253-286 | Fails exactly on an unencodable record (a missing column, a text cell in a scaled column, an unseen category), a record without the stratifier column, an unseen stratum, or a stratum whose Normal has a negative standard deviation. The error is the first one the code meets: the encoding's, then MissingColumn, then UnseenStratum, then NegativeScale. See the note after this table. |
| Stratified.NegativeCapUnsamplable | bpo-project/bpo/distributions.py:246-250 | When a stratum's cap (its draw times its mean target) is negative, the learned entry has a negative standard deviation, and no record of that stratum can be sampled. |
| Stratified.PositiveTargetsPositiveBaseline | bpo-project/bpo/distributions.py:205-276 | For a table `learn` accepts with all training targets positive, every baseline is positive. |
| Stratified.PositiveTargetsPositiveMean | bpo-project/bpo/distributions.py:205 | The mean of positive targets is positive. |
| StartEstimation.SortByCompletion | preprocessing/testupdatedestimator.py:51 | The result is a permutation of the log that is ordered by completion time. |
| StartEstimation.TimesOf | preprocessing/testupdatedestimator.py:10-15 | The timeline of a resource has one entry per row of that resource, and is non-empty exactly when the resource occurs. |
| StartEstimation.TimesOfExact | preprocessing/testupdatedestimator.py:10-15 | The resource's m-th row in log order supplies entry m of its timeline, and every entry is the completion of such a row. |
| StartEstimation.TimesOfSorted | preprocessing/testupdatedestimator.py:8-24 | Over the completion-sorted log every timeline is already in time order, so the re-sort at line 24 changes nothing. |
| StartEstimation.WindowCount | preprocessing/testupdatedestimator.py:26-30 | The count in the hour up to t is at most the timeline length, and at least 1 when t is on the timeline. |
| StartEstimation.WindowCountExact | preprocessing/testupdatedestimator.py:27-30 | The count is the number of timeline positions whose completion lies in [t - 60, t], both ends included. |
| StartEstimation.Concurrency | preprocessing/testupdatedestimator.py:26-36 | A resource's concurrency lies between 1 and its number of completions. |
| StartEstimation.ConcurrencyIsMeanWindow | preprocessing/testupdatedestimator.py:26-36 | The concurrency is the mean, over the timeline's points, of the number of its positions that complete in the hour up to that point. |
| StartEstimation.AnalyzeMultitasking | preprocessing/testupdatedestimator.py:7-40 | A resource has a concurrency exactly when it completed more than once. Its value is the mean window count over its own timeline from the completion-sorted log, and lies between 1 and its number of completions. |
| StartEstimation.CaseEvents | preprocessing/testupdatedestimator.py:59-65 | A case's sequence has one entry per row of the case, all of that case, and is non-empty exactly when the case occurs. |
| StartEstimation.CaseEventsExact | preprocessing/testupdatedestimator.py:59-65 | The case's m-th row in log order is entry m of its sequence, and every entry is such a row. |
| StartEstimation.CaseEventsSorted | preprocessing/testupdatedestimator.py:59-69 | Over the completion-sorted log a case's events are in time order, so the per-case sort changes nothing. |
| StartEstimation.CaseGaps | preprocessing/testupdatedestimator.py:67-78 | One entry per step between consecutive events whose length is in [1, 1440] minutes, each such a step. |
| StartEstimation.CaseGapsExact | preprocessing/testupdatedestimator.py:71-78 | The m-th recorded step supplies entry m, and every entry is a recorded step, so repeated gaps keep their multiplicity. |
| StartEstimation.GapsOf | preprocessing/testupdatedestimator.py:67-78 | Every gap collected over a list of cases is in [1, 1440] minutes. |
| StartEstimation.GapsOfMembers | preprocessing/testupdatedestimator.py:67-78 | A gap is collected over a list of cases exactly when it is a recorded gap of one of them. |
| StartEstimation.GapsOfPlacement | preprocessing/testupdatedestimator.py:67-78 | The collected list is as long as all the cases' gap lists together, and case k's gaps appear as one contiguous block, in order, after the blocks of the cases before it. So each case contributes each of its gaps exactly as often as it recorded it. |
| StartEstimation.AllGaps | preprocessing/testupdatedestimator.py:67-78 | Every gap collected over the log is in [1, 1440] minutes. |
| StartEstimation.AllGapsMembers | preprocessing/testupdatedestimator.py:59-78 | A gap is collected over the log exactly when it is a recorded gap of the case of some row. |
| StartEstimation.AllGapsPlacement | preprocessing/testupdatedestimator.py:59-78 | The log's gaps are the blocks of its cases joined end to end. The case list holds every case of the log exactly once, so every case's gaps are counted once, with their multiplicities. |
| StartEstimation.GapsFor | preprocessing/testupdatedestimator.py:78 | An activity's gap list has one entry per gap that follows it, is non-empty exactly when some gap follows it, and its values are in range. |
| StartEstimation.GapsForExact | preprocessing/testupdatedestimator.py:78 | The m-th gap following the activity supplies entry m, and every entry is the length of such a gap. |
| StartEstimation.GapActivities | preprocessing/testupdatedestimator.py:81 | The activities with a duration of their own are exactly those some gap follows. |
| StartEstimation.OwnDurations | preprocessing/testupdatedestimator.py:81-83 | Each such activity's duration is max(1, percentile of its gaps), so at least 1. |
| StartEstimation.DefaultDuration | preprocessing/testupdatedestimator.py:87-90 | The default is the mean of the own durations, or 30 when there are none; it is at least 1. |
| StartEstimation.DurationTable | preprocessing/testupdatedestimator.py:92-94 | Every log activity is covered: with its own duration if it has one, else with the default. |
| StartEstimation.TypicalDurations | preprocessing/testupdatedestimator.py:80-94 | Every activity of the log has a duration of at least 1. It is max(1, percentile) for activities that have gaps and the default for the rest. The default is the mean of the own durations when some gap was recorded, and 30 otherwise. |
| StartEstimation.FirstActivities | preprocessing/testupdatedestimator.py:96-100 | The keys are exactly the cases of the log, and each case maps to the activity of its first event. |
| StartEstimation.FirstEventEarliest | preprocessing/testupdatedestimator.py:96-100 | Over the completion-sorted log, no row of a case completes before the case's first event. |
| StartEstimation.MultitaskFactor | preprocessing/testupdatedestimator.py:125-128 | The factor is 1 for a resource without concurrency, the concurrency when that is at most 10, and 10 above. It is at least 1 when the concurrencies are. |
| StartEstimation.AdjustmentShare | preprocessing/testupdatedestimator.py:132 | The share is at least 0.1, at most 0.7 for a factor of 1 or more, 0.7 / factor for factors in (0, 7], and 0.1 for factors of 7 or more or below 0. |
| StartEstimation.RawDuration | preprocessing/testupdatedestimator.py:134-141 | The elapsed time since the case's previous completion; else since the resource's previous completion; else the activity's typical duration, or the default for an activity without one. |
| StartEstimation.ClampDuration | preprocessing/testupdatedestimator.py:145-151 | See the note after this table. |
| StartEstimation.RowDuration | preprocessing/testupdatedestimator.py:112-153 | Every duration lies in (0, 360]. Every "Assign seriousness" row of a case whose first event is "Assign seriousness" gets one in [1, 60]. |
| StartEstimation.Prepare | preprocessing/testupdatedestimator.py:57-100 | The concurrencies and typical durations the loop reads are all at least 1. |
| StartEstimation.LastCompletion | preprocessing/testupdatedestimator.py:121-159 | The tracked completion of a case or resource is absent exactly when none of the earlier rows has that key. |
| StartEstimation.LastCompletionIsLatest | preprocessing/testupdatedestimator.py:121-159 | When present, the tracked completion is that of the latest earlier row with the key: that row has the key and no later earlier row does. |
| StartEstimation.RecordRow | preprocessing/testupdatedestimator.py:121-159 | Recording a row's completion under its case or resource extends the tracking from n rows to n + 1. |
| StartEstimation.EstimateRows | preprocessing/testupdatedestimator.py:105-161 | Each start is its row's completion minus RowDuration, given the latest earlier completion of its case and of its resource. It lies strictly before the completion and at most 360 minutes earlier. "Assign seriousness" rows of a case that starts with that activity start 1 to 60 minutes earlier. |
| StartEstimation.EstimateStartTimes | preprocessing/testupdatedestimator.py:42-161 | The rows come back as a completion-ordered permutation of the log. Each has one start, given by the row rules, strictly before its completion and at most 360 minutes earlier. |
| StartEstimation.EarlierCompletionNotLater | preprocessing/testupdatedestimator.py:134-139 | In the sorted log, the previous completion of a case or resource is never after the current one. |
| StartEstimation.RawDurationNonNegative | preprocessing/testupdatedestimator.py:134-141 | The elapsed time a row measures is never negative. |
| Pairing.WithTransition | preprocessing/mergePairsWithZeros.py:41-42 | The selection has one entry per log row with that transition, each such a row, and every such row is in it. |
| Pairing.WithTransitionExact | preprocessing/mergePairsWithZeros.py:41-42 | The m-th log row with the transition is entry m, and every entry is such a row, so log order and duplicates are kept. |
| Pairing.Rank | preprocessing/mergePairsWithZeros.py:44-53 | A row's event_index counts the rows of its (case, activity) group that come before it in the sort by timestamp text, and is below the group's size. |
| Pairing.RankIncreasing | preprocessing/mergePairsWithZeros.py:44-53 | Within a group, a row earlier in the timestamp-text order has a smaller index. |
| Pairing.RankFollowsTime | preprocessing/mergePairsWithZeros.py:44-48 | When the stamps' text order agrees with their time order, an earlier timestamp within a group means a smaller index. |
| Pairing.RankInjective | preprocessing/mergePairsWithZeros.py:44-53 | Distinct rows of one group get distinct indices. |
| Pairing.EventId | preprocessing/mergePairsWithZeros.py:55-60 | The identifier is the case, an underscore, the activity, an underscore and the decimal digits of the index. |
| Pairing.EventIdDeterminesIndex | preprocessing/mergePairsWithZeros.py:55-60 | For one case and activity, two identifiers are equal exactly when their indices are. |
| Pairing.Tag | preprocessing/mergePairsWithZeros.py:44-60 | Each row keeps its event. It gets an index below its group size and the identifier built from that index. |
| Pairing.TagKeysUnique | preprocessing/mergePairsWithZeros.py:44-60 | Within one transition, case, activity and identifier pick out a single row. |
| Pairing.TagDistinct | preprocessing/mergePairsWithZeros.py:44-60 | The tagged rows of one transition are pairwise different. |
| Pairing.MakePair | preprocessing/mergePairsWithZeros.py:24-27 | The duration is complete minus start in seconds, in milliseconds (x1000) and in hours (/3600). |
| Pairing.MatchesOf | preprocessing/mergePairsWithZeros.py:14-19 | The matches of one start are exactly the completes that agree with it on the three merge keys. There are at most as many as there are completes, and no match appears twice when the completes are distinct. |
| Pairing.Join | preprocessing/mergePairsWithZeros.py:14-19 | The inner merge produces exactly the start/complete combinations that agree on the merge keys. When neither side has a repeated row, no combination appears twice. |
| Pairing.NonNegative | preprocessing/mergePairsWithZeros.py:30 | A pair survives exactly when its duration is not negative. The filter adds no rows and no repeats. |
| Pairing.TaggedWithTransition | preprocessing/mergePairsWithZeros.py:10-11 | The selected rows are exactly the input rows with that transition. The selection adds no rows and no repeats. |
| Pairing.MatchedPairs | preprocessing/mergePairsWithZeros.py:10-30 | A pair is present exactly when it joins an input start and an input complete that agree on the keys with a non-negative duration. Distinct input rows give distinct pairs. |
| Pairing.StartEndEventLog | preprocessing/mergePairsWithZeros.py:5-35 | Same pairs as MatchedPairs, sorted by case and then start time, each once when the input rows are distinct. |
| Pairing.PairLog | preprocessing/mergePairsWithZeros.py:41-66 | Every output pair joins a start and a complete that agree on the merge keys with a non-negative duration, no pair appears twice, and the output is sorted by case and start time. |
| Pairing.PairsPerGroupBelowStarts | preprocessing/mergePairsWithZeros.py:14-19 | For each (case, activity), the output has at most as many rows as the log has start rows of that group. |
| Pairing.PairsPerGroupBelowCompletes | preprocessing/mergePairsWithZeros.py:14-19 | For each (case, activity), the output has at most as many rows as the log has complete rows of that group. |
| Pairing.PairsAgreeOnIndex | preprocessing/mergePairsWithZeros.py:41-66 | Each output pair joins a start and a complete from the log, of the same case and activity and with the same event_index, and its duration is not negative. |
| Pairing.PairingOneToOne | preprocessing/mergePairsWithZeros.py:41-66 | A start row is paired with at most one complete row, and a complete row with at most one start row. |
| Pairing.PairingComplete | preprocessing/mergePairsWithZeros.py:41-66 | Each start is paired with the same-index complete of its group whenever that complete is not earlier. |
| Pairing.SameIndexKept | preprocessing/mergePairsWithZeros.py:14-30 | A start and a complete of one group with equal index and no negative duration satisfy the merge keys and the filter. |
| Pairing.KeptIsPaired | preprocessing/mergePairsWithZeros.py:14-35 | Such a start/complete combination appears in the result. |
| Pairing.PairLogOrdered | preprocessing/mergePairsWithZeros.py:33 | Output rows are ordered by case in Python string order, and by start time within a case. |
| Seqs.Distinct | bpo-project/bpo/distributions.py:238 | `unique` keeps each value once, loses none and adds none. |
| Seqs.DistinctFirstOccurrence | bpo-project/bpo/distributions.py:238 | The unique values come in the order of their first occurrences. |
| Seqs.SelectExact | bpo-project/bpo/distributions.py:241-247 | Filtering a column by a key value keeps, in row order, exactly the values of the rows with that key: the m-th such row supplies entry m. |
| Seqs.SelectSorted | preprocessing/testupdatedestimator.py:69 | Filtering rows ordered by a key yields rows ordered by that key. |
| Seqs.NatToStringInjective | preprocessing/mergePairsWithZeros.py:59 | Different indices render to different decimal strings. |
| Ordering.SortBy | preprocessing/mergePairsWithZeros.py:33 | The result is a permutation of the input, ordered by the key. |
| Ordering.SortByStable | preprocessing/mergePairsWithZeros.py:33 | For every key value, the sorted result holds the input's elements with that key in their input order. |

Notes on two rows:

- **Stratified.Sample.** At most eleven residuals are drawn. Every draw before the last left prediction + residual non-positive, and the last is positive unless the retries ran out. The method returns the positive sum or the bare baseline.
- **StartEstimation.ClampDuration.** The result is at most 360, and positive when the typical durations are. A non-positive input becomes 1, and an input in (0, 360] is kept. An input above 360 becomes the activity's typical duration when that is shorter, else a uniform draw in [30, 360].

## Left out

- The Gamma, PO-Gamma, Beta, Erlang and Normal distribution classes are not modelled beyond the Normal parameter record. Their fits and draws are scipy calls. `ErlangDistribution` defines `__init__` twice, and the second one (line 110) shadows the first.
- sklearn and scipy internals are modelled only as the function-typed `Fitters` and the residual sampler: scaling, MLP training, the Normal fit and its draws. The regressor is whatever `trainRegressor` returns.
- Floating point is modelled as exact reals, and datetimes as real minutes or seconds. The microsecond truncation of estimated starts (`replace(microsecond=0)`) and the final `strftime` formatting are not modelled.
- CSV reading and writing, column renaming, `print`, and the module-level script code are not modelled. The exception is the tagging and concatenation that `PairLog` models.
- Ties in pandas sorts are not modelled. `sort_values` defaults to quicksort, which is not stable. The model sorts stably (Ordering.SortByStable), so rows with equal timestamps (or equal case and start time) keep their log order. pandas may order them differently, which can swap their event_index values, their start estimates and their output order.
- sklearn's `OneHotEncoder` sorts each column's categories. The model keeps them in first-seen order. The block width is the same; only the position of each indicator differs.
- `random.choices` and `random.uniform` are modelled with one draw `u` in [0, 1). The RNG stream is a parameter, indexed per stratum, per row or per retry.
- `StratifiedNumericDistribution.learn` called twice on one object keeps strata from the first call. The model builds a fresh model on each call.
- Distributions.LearnCategorical: carries no contract of its own, because `learn` only stores its arguments. What it stores is stated through Distributions.LearnedCategoricalSamplesPositiveCount.
- Distributions.SampleCategorical: requires non-negative weights. Python does not check for negative weights, and `bisect` on non-monotone cumulative weights is outside its documented behaviour. Learned weights are counts.
- StartEstimation.AnalyzeMultitasking: does not re-sort each resource's timeline (line 24). It takes the timeline from the completion-sorted log, and StartEstimation.TimesOfSorted shows that timeline is already in order.
- StartEstimation.CaseEvents: does not re-sort each case's events (lines 69 and 99). Python's sort is stable, and StartEstimation.CaseEventsSorted shows the events of the completion-sorted log are already in order.
- The pairing's timestamp parsing is not modelled. Each `LogEvent` carries both the stamp text as read from the CSV and the time it denotes (`to_datetime`, lines 22-23), and the model does not relate the two.
- Pairing.RankFollowsTime: holds only under `StampsFollowTime`, i.e. when the stamps' text order agrees with their time order, as for zero-padded, year-first stamps. For stamps such as "1/10/2023 09:00" and "1/9/2023 09:00" the text order puts the later day first, and the index follows the text (Pairing.RankIncreasing).
- Pairing.PairLogOrdered: case identifiers are modelled as text and ordered in Python string order. When `read_csv` reads the case column as numbers, pandas sorts them numerically (2 before 10); that order is not modelled.
- Stratified.Learn: a text cell that spells a number (such as "3.5") in a scaled column is converted by numpy and accepted by the scalers. The model rejects every text cell there with `NonNumericFeature`. It also does not model pandas' dtype inference, by which such a column might be read as numbers in the first place.
- Stratified.Sample: the same holds for the feature record: a text cell that spells a number in a scaled column is accepted by the scalers, while the model reports `NonNumericFeature`.
