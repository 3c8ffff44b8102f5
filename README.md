# Radiation-source explorer: belief map, planner, codec and prototype map

This project models the core of an active-sensing engine that searches a
grid for radiation sources, and it proves properties of that model. Belief
values are exact `real`s.

- **Belief map** (`BeliefMap.GridMap2D`). It keeps a `rows` x `cols` matrix
  of per-cell source probabilities. It also keeps the observation history:
  for each observation, the column-major indices of the cells in view and
  the number of sources measured.
  - The constructor sets the uniform prior.
  - `GenerateSources` is the inverse-CDF sampler. It is a row-major walk
    against sorted uniform draws. `Walk`, `WalkRow` and `EmitAt` hold its
    loops, and the pure `Sampling.DrawSources` specifies it.
  - `GenerateEntropyVector` is the Monte Carlo estimator. It draws sources,
    senses along a sampled trajectory and keeps a per-trajectory histogram
    in an ordered map (`Histogram`). It then normalises each column and
    takes its entropy (`Estimator`).
  - `Update` records an observation and may refit the belief.
  - `Entropy` returns the map entropy.
- **Planner** (`Explorer.ExplorerLP`).
  - The constructor places the hidden sources and the start pose.
  - `PlanAhead` takes the arg-max over the entropy vector, starting from a
    `-1.0` sentinel, and decodes the winning trajectory.
  - `TakeStep` commits the first pose of a trajectory and observes there.
- **Codec** (`Encoding`). A mixed-radix positional code, with the least
  significant digit first.
  - Measurements are digits in `[0, max]`, so the radix is `max + 1`.
  - Source maps are column-major cell indices `row + col * rows`, in radix
    `rows * cols`.
- **Prototype map** (`PrototypeMap.GridMap2D`). This is the Python belief
  map of Poisson rates, updated by masked averaging with a rate map.

Randomness, the sensor cone, the trajectory decoder, the logarithm and the
least-squares solver are all parameters:
- Draws are sequences of `real`s.
- A `Sample` carries one Monte Carlo sample's sources draws, its trajectory
  id and its poses.
- The cone is a function from a pose and a field of view to a `Sensor2D`.
- The decoder is a function from an id, a step count and a pose to poses.
- The logarithm is a function assumed non-positive on `(0, 1)`.
- The solver's result is the column-major data it leaves in the belief
  matrix, plus its "usable" flag. A usable result lies in `[0, 1]`; an
  unusable one is any non-negative vector, including the old belief.

## Model

| member | source | states |
|---|---|---|
| Numerics.UniformMass | radiation/cpp/src/grid_map_2d.cpp:62-64 | `n` equal shares `k / n` of `k` sources add up to `k`: total mass of the uniform prior |
| Numerics.SumNormalised | radiation/cpp/src/grid_map_2d.cpp:93 | the normalised shares sum to the old total divided by the normaliser |
| Numerics.SumIncrement | radiation/cpp/src/grid_map_2d.cpp:163 | adding one to one counter adds one to the vector's sum |
| Numerics.SumRates | radiation/src/python/grid_map_2d.py:85-87 | a rate map that is `a` on masked cells and `b` elsewhere sums to `count` times `a` plus `N - count` times `b` |
| Numerics.SumMean | radiation/src/python/grid_map_2d.py:90 | the sum of the element-wise mean `0.5 x + 0.5 y` is the mean of the sums |
| Numerics.TimesShare | radiation/src/python/grid_map_2d.py:85-87 | `n` shares of `x / n` add up to `x` |
| Geometry.Sense | radiation/cpp/src/grid_map_2d.cpp:214-215 | a measurement is the number of sources in view, so it never exceeds the number of sources |
| Geometry.CellBound | radiation/cpp/src/grid_map_2d.cpp:222 | a cell's row-major and column-major indices are both below `rows * cols` |
| Geometry.CellOf | radiation/cpp/src/grid_map_2d.cpp:98 | row-major position `t` names the cell of row `t / cols` and column `t % cols` below `cols`, whose position is `t` again |
| Geometry.RowMajorAt | radiation/cpp/src/grid_map_2d.cpp:91-93 | cell (row, col) is at row-major position `row * cols + col` of the matrix's flat view |
| Encoding.EncodeDigits | radiation/cpp/test/test_encoding.cpp:103-104 | the number whose base-`radix` digits, least significant first, are the sequence; `DigitsRoundTrip` and `EncodeDigitsBound` state what it means |
| Encoding.DecodeDigits | radiation/cpp/test/test_encoding.cpp:107-109 | the `len` least significant base-`radix` digits of an id, each below the radix |
| Encoding.EncodeMeasurements | radiation/cpp/src/grid_map_2d.cpp:153-155 | the measurement id: the measurements as digits in radix `max + 1`; `MeasurementsRoundTrip` and the injectivity lemma state what it means |
| Encoding.DecodeMeasurements | radiation/cpp/test/test_encoding.cpp:107-112 | the decoded list has exactly the requested length and every value is in `[0, max]` |
| Encoding.DigitsRoundTrip | radiation/cpp/test/test_encoding.cpp:103-114 | decoding the number of in-range digits gives the digits back |
| Encoding.DigitsDecodeEncode | radiation/cpp/test/test_encoding.cpp:103-109 | every id below `radix^len` re-encodes to itself after decoding |
| Encoding.EncodeDigitsBound | radiation/cpp/test/test_encoding.cpp:103-104 | the number of `n` in-range digits is below `radix^n` |
| Encoding.MeasurementsRoundTrip | radiation/cpp/test/test_encoding.cpp:95-114 | `DecodeMeasurements(EncodeMeasurements(ms, max), max, \|ms\|) == ms` for values in `[0, max]` |
| Encoding.MeasurementIdBound | radiation/cpp/src/grid_map_2d.cpp:121-160 | the id of an in-range measurement sequence lies below `(max+1)^len`, the histogram width |
| Encoding.MeasurementIdOnto | radiation/cpp/src/grid_map_2d.cpp:121-160 | every id below `(max+1)^len` is the id of the sequence it decodes to, so every column of the histogram can be hit |
| Encoding.EncodeMeasurementsInjective | radiation/cpp/test/test_encoding.cpp:103-114 | equal-length in-range measurement sequences with the same id are equal |
| Encoding.EncodeMap | radiation/cpp/test/test_encoding.cpp:70 | the map id: the column-major cell indices `row + col*rows` as digits in radix `rows*cols`; `MapRoundTrip` states what it means |
| Encoding.DecodeMap | radiation/cpp/test/test_encoding.cpp:73-77 | the decoded map has exactly `n` sources, all on the grid |
| Encoding.CellAtIndex | radiation/cpp/test/test_encoding.cpp:79-83 | a column-major index below `rows * cols` names a cell on the grid |
| Encoding.MapRoundTrip | radiation/cpp/test/test_encoding.cpp:65-84 | `DecodeMap(EncodeMap(s, rows, cols), rows, cols, \|s\|) == s`: same sources, same order, same row and column |
| Encoding.EncodeMapInjective | radiation/cpp/test/test_encoding.cpp:70-84 | equal-length on-grid source lists with the same id are equal |
| Encoding.EncodeMapBound | radiation/cpp/test/test_encoding.cpp:70 | the id of `n` on-grid sources is below `(rows*cols)^n` |
| Sampling.Insert | radiation/cpp/src/grid_map_2d.cpp:83 | inserting into a sorted list keeps it sorted and adds exactly the new element |
| Sampling.SortAscending | radiation/cpp/src/grid_map_2d.cpp:83 | the sorted draws are ascending and a permutation of the draws |
| Sampling.CrossingFrom | radiation/cpp/src/grid_map_2d.cpp:91-96 | the first cell from a start whose cumulative mass reaches `u`, or none below it |
| Sampling.InverseCdf | radiation/cpp/src/grid_map_2d.cpp:91-96 | the first row-major cell whose cumulative normalised mass is `>= u`; `None` exactly when every cell stays below |
| Sampling.Placements | radiation/cpp/src/grid_map_2d.cpp:91-106 | the inverse-CDF cells of the longest prefix of draws that all have one; the next draw has none |
| Sampling.InverseCdfAt | radiation/cpp/src/grid_map_2d.cpp:96 | a cell reaching `u` with every earlier cell below it is the inverse-CDF cell |
| Sampling.PlacementsExact | radiation/cpp/src/grid_map_2d.cpp:96-106 | any placed prefix that stops at the first unplaceable draw equals `Placements` |
| Sampling.DrawSources | radiation/cpp/src/grid_map_2d.cpp:72-112 | what GenerateSources computes: at most one source per draw, all of them on success, none and failure on a zero total (`DrawSourcesLaw` gives the full law) |
| Sampling.CellsOf | radiation/cpp/src/grid_map_2d.cpp:98 | the emitted source for row-major position `t` is the cell `(t / cols, t % cols)` |
| Sampling.InverseCdfMonotone | radiation/cpp/src/grid_map_2d.cpp:83-106 | a larger draw never lands in an earlier cell |
| Sampling.PlacementsNonDecreasing | radiation/cpp/src/grid_map_2d.cpp:91-106 | sorted draws are placed in non-decreasing row-major cells |
| Sampling.DrawSourcesLaw | radiation/cpp/src/grid_map_2d.cpp:80-106 | at most one source per draw; success iff exactly `num_sources`; source `k` is the inverse-CDF cell of sorted draw `k`; failure iff a draw has no cell; non-decreasing row-major order |
| Sampling.DrawSourcesInGrid | radiation/cpp/src/grid_map_2d.cpp:91-98 | every emitted source has row `< rows` and column `< cols` |
| Sampling.NormalisedReachesOne | radiation/cpp/src/grid_map_2d.cpp:73-93 | with a non-zero total the cumulative normalised mass through the last cell is exactly one |
| Sampling.SortedFromDraws | radiation/cpp/src/grid_map_2d.cpp:83 | every sorted draw is one of the draws |
| Sampling.DrawSourcesSucceeds | radiation/cpp/src/grid_map_2d.cpp:73-111 | with exact arithmetic, a non-zero total and draws `<= 1`, the sampler never reaches `return false` |
| Histogram.CountPair | radiation/cpp/src/grid_map_2d.cpp:158-163 | the count of one (trajectory, measurement) pair is at most the number of outcomes |
| Histogram.CountId | radiation/cpp/src/grid_map_2d.cpp:158-163 | the count of one trajectory is at most the number of outcomes |
| Histogram.Column | radiation/cpp/src/grid_map_2d.cpp:159-163 | a trajectory's count column has one entry per measurement id |
| Histogram.Empirical | radiation/cpp/src/grid_map_2d.cpp:186 | the empirical conditional distribution has one entry per measurement id |
| Histogram.Lookup | radiation/cpp/src/grid_map_2d.cpp:158 | a lookup succeeds exactly for ids that have an entry (`count(id) != 0`) |
| Histogram.LookupAt | radiation/cpp/src/grid_map_2d.cpp:175-177 | in an ordered map every entry is found under its own id |
| Histogram.LookupWidth | radiation/cpp/src/grid_map_2d.cpp:159 | every looked-up count vector has the histogram width |
| Histogram.IdsAbove | radiation/cpp/src/grid_map_2d.cpp:161 | an id below the first key is absent and below every key |
| Histogram.Bump | radiation/cpp/src/grid_map_2d.cpp:158-163 | a new vector is zeros with a one at `m`, an existing one gains one at `m`; the width is kept |
| Histogram.BumpSum | radiation/cpp/src/grid_map_2d.cpp:158-163 | bumping adds exactly one to the vector's sum |
| Histogram.Record | radiation/cpp/src/grid_map_2d.cpp:157-164 | recording keeps the map strictly ordered by id and of uniform width, and adds exactly `id` to its keys |
| Histogram.Tail | radiation/cpp/src/grid_map_2d.cpp:124 | the entries after the first form an ordered map of the same width, all above the first id |
| Histogram.Cons | radiation/cpp/src/grid_map_2d.cpp:161 | putting an entry below every key in front keeps the map ordered; its ids and total add the entry's |
| Histogram.RecordAbove | radiation/cpp/src/grid_map_2d.cpp:161 | keys above `x` as a set are above `x` position by position |
| Histogram.IdsBounded | radiation/cpp/src/grid_map_2d.cpp:161 | keys above `x` position by position are above `x` as a set |
| Histogram.RecordLookup | radiation/cpp/src/grid_map_2d.cpp:157-164 | recording `(id, m)` bumps the vector of `id` at `m` and leaves every other id's vector as it was |
| Histogram.RecordTotal | radiation/cpp/src/grid_map_2d.cpp:157-164 | recording an outcome adds exactly one to the histogram's grand total |
| Histogram.Tally | radiation/cpp/src/grid_map_2d.cpp:124-165 | the histogram of all outcomes is strictly ordered and of uniform width, and its keys are exactly the recorded trajectories |
| Histogram.CountPairMissing | radiation/cpp/src/grid_map_2d.cpp:158-161 | a trajectory that never occurs has zero counts |
| Histogram.KeysCountId | radiation/cpp/src/grid_map_2d.cpp:158-161 | a trajectory has an entry iff it has at least one outcome |
| Histogram.ColumnStep | radiation/cpp/src/grid_map_2d.cpp:163 | one more outcome bumps its own trajectory's column by one at its measurement and no other column |
| Histogram.TallyLookup | radiation/cpp/src/grid_map_2d.cpp:157-165 | the histogram holds, under each recorded trajectory, exactly its count column, and nothing under the others |
| Histogram.ColumnSum | radiation/cpp/src/grid_map_2d.cpp:158-163 | a trajectory's counts add up to its number of outcomes |
| Histogram.CountPairAtMostCountId | radiation/cpp/src/grid_map_2d.cpp:158-163 | a pair count is at most its trajectory's count |
| Histogram.Fraction | radiation/cpp/src/grid_map_2d.cpp:186 | a count divided by a larger total lies in `[0, 1]` |
| Histogram.EmpiricalIsDistribution | radiation/cpp/src/grid_map_2d.cpp:180-188 | for each recorded trajectory the normalised column has entries in `[0, 1]` summing to one |
| Histogram.TallyTotal | radiation/cpp/src/grid_map_2d.cpp:127-165 | the counts of the whole histogram add up to the number of recorded outcomes |
| Estimator.SenseAlong | radiation/cpp/src/grid_map_2d.cpp:139-150 | one measurement per step, each at most the number of sampled sources |
| Estimator.SenseAt | radiation/cpp/src/grid_map_2d.cpp:147-148 | a step's measurement is at most the number of sampled sources |
| Estimator.OutcomesInRange | radiation/cpp/src/grid_map_2d.cpp:121-160 | every recorded measurement id lies below `(num_sources+1)^num_steps` |
| Estimator.MeasurementSpace | radiation/cpp/src/grid_map_2d.cpp:121 | `kNumMeasurements`, the number of measurement sequences of `num_steps` counts in `[0, num_sources]`; `MeasurementIdBound` and `MeasurementIdOnto` show the ids fill exactly this range |
| Estimator.Outcomes | radiation/cpp/src/grid_map_2d.cpp:127-165 | the (trajectory id, measurement id) pairs in sample order, a sample whose sources cannot be drawn skipped; `OutcomesStep`, `OutcomesCount` and `OutcomesInRange` state its properties |
| Estimator.Successes | radiation/cpp/src/grid_map_2d.cpp:127-135 | the number of samples that are not skipped, at most the number of samples |
| Estimator.OutcomesStep | radiation/cpp/src/grid_map_2d.cpp:127-164 | one more sample appends its outcome exactly when its sources can be drawn |
| Estimator.OutcomesCount | radiation/cpp/src/grid_map_2d.cpp:127-135 | a failed sample adds nothing and every other one adds exactly one outcome |
| Estimator.HistogramTotal | radiation/cpp/src/grid_map_2d.cpp:127-165 | the histogram's grand total equals the number of samples whose sources could be drawn |
| Estimator.AllSucceed | radiation/cpp/src/grid_map_2d.cpp:127-135 | with a non-zero total and draws `<= 1`, every sample is recorded |
| Estimator.Conditional | radiation/cpp/src/grid_map_2d.cpp:180-188 | each normalised column has one entry per measurement id |
| Estimator.NormaliseColumn | radiation/cpp/src/grid_map_2d.cpp:182-187 | a normalised column keeps its length |
| Estimator.ConditionalIsEmpirical | radiation/cpp/src/grid_map_2d.cpp:158-188 | every recorded column starts at count one, so it is always normalised: it equals the empirical distribution and sums to one |
| Estimator.EntropyTerm | radiation/cpp/src/grid_map_2d.cpp:195-203 | a probability's term `-p log p`, zero outside `[0.01, 0.99]`; `NonPositiveProduct` shows it is not negative |
| Estimator.BandEntropy | radiation/cpp/src/grid_map_2d.cpp:190-204 | the column entropy, summed over the measurement ids in order; `BandEntropyNonNegative` and `BandEntropyCertain` state its properties |
| Estimator.BandEntropyStep | radiation/cpp/src/grid_map_2d.cpp:195-203 | the column entropy after one more measurement id adds that id's term |
| Estimator.BandEntropyNonNegative | radiation/cpp/src/grid_map_2d.cpp:190-206 | with a logarithm not positive on (0, 1) no column entropy is negative, so the CHECK at line 206 holds |
| Estimator.NonPositiveProduct | radiation/cpp/src/grid_map_2d.cpp:202 | `p * log p <= 0` for `p >= 0` and `log p <= 0` |
| Estimator.BandEntropyCertain | radiation/cpp/src/grid_map_2d.cpp:195-203 | a column of certain outcomes (every probability 0 or 1) has zero entropy |
| Estimator.TrajectoryIds | radiation/cpp/src/grid_map_2d.cpp:171-178 | one id per histogram entry |
| Estimator.EntropyVector | radiation/cpp/src/grid_map_2d.cpp:191-207 | one entropy per histogram entry |
| Estimator.TallyEntry | radiation/cpp/src/grid_map_2d.cpp:174-178 | entry `k` of the histogram holds its own trajectory's count column |
| Estimator.TallyNonEmpty | radiation/cpp/src/grid_map_2d.cpp:158-161 | a histogram that recorded an outcome has an entry |
| Estimator.IdsAt | radiation/cpp/src/grid_map_2d.cpp:175-176 | every entry's id is a key of the map |
| Estimator.IdsHas | radiation/cpp/src/grid_map_2d.cpp:175-176 | every key of the map is the id of some entry |
| Estimator.TrajectoryIdsLaw | radiation/cpp/src/grid_map_2d.cpp:168-178 | the reported ids are strictly increasing (so each appears once) and are exactly the trajectories of the recorded samples |
| BeliefMap.AddShare | radiation/cpp/src/grid_map_2d.cpp:93 | the running mass gains `belief / total`; a zero total makes it NaN, which stays NaN |
| BeliefMap.WalkPlace | radiation/cpp/src/grid_map_2d.cpp:96-105 | emitting a source at a cell that reaches the current draw places that draw at its inverse-CDF cell |
| BeliefMap.WalkOn | radiation/cpp/src/grid_map_2d.cpp:92-96 | leaving a cell that stays below the current draw keeps the walk's invariant |
| BeliefMap.WalkDone | radiation/cpp/src/grid_map_2d.cpp:91-111 | a walk that runs out of cells has placed exactly `Placements` |
| BeliefMap.EnterCell | radiation/cpp/src/grid_map_2d.cpp:93 | after adding a cell's share the running mass is the cumulative mass through that cell |
| BeliefMap.EmitAt | radiation/cpp/src/grid_map_2d.cpp:96-106 | the `while` loop emits a source for each further draw the cell reaches, and stops when all are placed |
| BeliefMap.WalkRow | radiation/cpp/src/grid_map_2d.cpp:92-107 | the `jj` loop keeps the walk's invariant across one row, or finishes with every source placed |
| BeliefMap.Walk | radiation/cpp/src/grid_map_2d.cpp:88-111 | the nested walk succeeds iff every sorted draw has an inverse-CDF cell, and emits exactly those cells; a zero total fails with no sources |
| BeliefMap.SenseTrajectory | radiation/cpp/src/grid_map_2d.cpp:139-150 | the measurement loop senses the sampled sources at each pose |
| BeliefMap.ExtractColumns | radiation/cpp/src/grid_map_2d.cpp:168-178 | iterating the ordered map yields the ids in key order and the matching count columns |
| BeliefMap.NormaliseColumns | radiation/cpp/src/grid_map_2d.cpp:180-188 | every column summing to at least one is divided by its sum; the others are kept |
| BeliefMap.ColumnEntropies | radiation/cpp/src/grid_map_2d.cpp:190-207 | each column's entropy skips probabilities within 0.01 of 0 or 1, and none is negative |
| BeliefMap.EntropiesOf | radiation/cpp/src/grid_map_2d.cpp:167-207 | the estimator's output is the ids of the histogram and each trajectory's band entropy of `P(Z \| X)`, all non-negative |
| BeliefMap.DistinctAppend | radiation/cpp/src/grid_map_2d.cpp:219-224 | two repeat-free lists with no common element join into a repeat-free list |
| BeliefMap.ColumnMajor | radiation/cpp/src/grid_map_2d.cpp:222 | `x == ii + jj * rows` iff `x % rows == ii` and `x / rows == jj` |
| BeliefMap.RowVoxels | radiation/cpp/src/grid_map_2d.cpp:220-223 | the column-major indices of row `ii`'s in-view cells, in column order; `RowVoxelsLaw` states what it holds |
| BeliefMap.GridVoxels | radiation/cpp/src/grid_map_2d.cpp:218-224 | the in-view indices of the first `n` rows, row by row; `GridVoxelsLaw` states what it holds |
| BeliefMap.Voxels | radiation/cpp/src/grid_map_2d.cpp:218-224 | the voxel list Update stores; `VoxelsLaw` states what it holds |
| BeliefMap.RowVoxelsLaw | radiation/cpp/src/grid_map_2d.cpp:220-223 | one row's indices are exactly the in-view cells of that row, without repeats |
| BeliefMap.GridVoxelsLaw | radiation/cpp/src/grid_map_2d.cpp:219-224 | the first `n` rows' indices are exactly their in-view cells, without repeats |
| BeliefMap.VoxelsLaw | radiation/cpp/src/grid_map_2d.cpp:218-224 | the stored voxel list holds exactly the in-view cells as `ii + jj*rows`, each `< rows*cols`, none twice |
| BeliefMap.InViewVoxels | radiation/cpp/src/grid_map_2d.cpp:218-224 | the nested loop builds exactly that voxel list |
| BeliefMap.BernoulliEntropy | radiation/cpp/src/grid_map_2d.cpp:242-244 | one cell's Bernoulli entropy, zero within `1e-8` of 0 or 1 |
| BeliefMap.MapEntropy | radiation/cpp/src/grid_map_2d.cpp:237-251 | the sum of the cells' Bernoulli entropies in row-major order; `MapEntropyNonNegative`, `MapEntropyCertain` and `MapEntropyUniform` state its properties |
| BeliefMap.MapEntropyStep | radiation/cpp/src/grid_map_2d.cpp:246 | the map entropy after one more cell adds that cell's Bernoulli entropy |
| BeliefMap.MapEntropyNonNegative | radiation/cpp/src/grid_map_2d.cpp:237-251 | with a logarithm not positive on (0, 1) the map entropy is not negative |
| BeliefMap.MapEntropyCertain | radiation/cpp/src/grid_map_2d.cpp:243-244 | a map whose cells are all 0 or 1 has zero entropy |
| BeliefMap.MapEntropyUniform | radiation/cpp/src/grid_map_2d.cpp:240-248 | a uniform map's entropy is the cell count times one cell's entropy |
| BeliefMap.BeliefEntropy | radiation/cpp/src/grid_map_2d.cpp:238-250 | the nested loop computes the sum of the cells' Bernoulli entropies, skipping within 1e-8 of 0 or 1 |
| BeliefMap.RowEntropy | radiation/cpp/src/grid_map_2d.cpp:241-247 | the inner loop adds one row's Bernoulli entropies |
| BeliefMap.EntropyAt | radiation/cpp/src/grid_map_2d.cpp:242-246 | cell (ii, jj) is the next cell of the row-major entropy sum |
| BeliefMap.FitAt | radiation/cpp/src/grid_map_2d.cpp:259-261 | cell (i, j) of the solver's column-major vector is entry `i + j*rows`; it is non-negative, or in `[0, 1]`, when the whole vector is |
| BeliefMap.BeliefData | radiation/cpp/src/grid_map_2d.cpp:259-261 | the column-major data of the belief matrix, read back cell by cell by `FitAt` as the matrix itself |
| BeliefMap.UnusableSolveKeeps | radiation/cpp/src/grid_map_2d.cpp:294-296 | the old belief's data is an admissible unusable result, so a failed solve may leave the belief as it was, above 1 included |
| BeliefMap.CellsOfAppend | radiation/cpp/src/grid_map_2d.cpp:98 | emitting cell (row, col) appends `Source2D(row, col)` |
| BeliefMap.CdfStep | radiation/cpp/src/grid_map_2d.cpp:93 | the cumulative mass through cell (ii, jj) is the mass before it plus `belief(ii, jj) / total` |
| BeliefMap.GridMap2D.Valid | radiation/cpp/src/grid_map_2d.cpp:56-65 | the invariant every operation keeps: the belief is `rows` x `cols` and non-negative, one measurement per voxel list, every voxel index below `rows*cols`, every measurement at most `num_sources` (the CHECK at line 215) |
| BeliefMap.GridMap2D.Cells | radiation/cpp/src/grid_map_2d.cpp:91-93 | the belief in the row-major order of the sampler's walk, one value per cell |
| BeliefMap.GridMap2D.constructor | radiation/cpp/src/grid_map_2d.cpp:56-65 | every cell is `num_sources / (rows*cols)`, and the history is empty |
| BeliefMap.GridMap2D.GridShape | radiation/cpp/src/grid_map_2d.cpp:56-65 | the flat view has `rows * cols` cells |
| BeliefMap.GridMap2D.GenerateSources | radiation/cpp/src/grid_map_2d.cpp:72-112 | the result and the sources are those of `DrawSources` on the belief and the draws |
| BeliefMap.GridMap2D.GenerateEntropyVector | radiation/cpp/src/grid_map_2d.cpp:116-208 | `trajectory_ids` are the histogram's keys in order and `hzx` their band entropies of the normalised columns; equal lengths; all `>= 0` |
| BeliefMap.GridMap2D.SolveLeastSquares | radiation/cpp/src/grid_map_2d.cpp:254-297 | the belief becomes the solver's result, read column-major; the result is the solver's "usable" flag; a usable result puts every cell in `[0, 1]` (lines 278-283), an unusable one may leave the old belief, even above 1 |
| BeliefMap.GridMap2D.Update | radiation/cpp/src/grid_map_2d.cpp:211-234 | appends exactly one voxel list and one measurement; without `solve` returns true with the belief unchanged; with it, the belief is the solver's result and the result its "usable" flag, every cell in `[0, 1]` when usable |
| BeliefMap.GridMap2D.Entropy | radiation/cpp/src/grid_map_2d.cpp:237-251 | the map entropy, not negative |
| Explorer.LastIndex | radiation/cpp/src/explorer_lp.cpp:71-72 | `n - 1` in 32-bit unsigned arithmetic: below `n` when `n > 0`, `2^32 - 1` when `n == 0` |
| Explorer.CellDraw | radiation/cpp/src/explorer_lp.cpp:71-72 | a draw of `unif_rows` and `unif_cols`: row and column at most `LastIndex` of the grid size |
| Explorer.FirstMax | radiation/cpp/src/explorer_lp.cpp:97-102 | the first position of the largest entry: no entry exceeds it and every earlier one is smaller |
| Explorer.FirstMaxUnique | radiation/cpp/src/explorer_lp.cpp:97-102 | a largest entry with no earlier entry as large is the one `FirstMax` finds |
| Explorer.FirstMaxStep | radiation/cpp/src/explorer_lp.cpp:98-101 | one more entry replaces the best so far only when it is strictly larger |
| Explorer.ArgMax | radiation/cpp/src/explorer_lp.cpp:95-102 | the loop result is `>= 0` iff some entry is `>= 0`, and then it is the first maximum and its id |
| Explorer.PlanAheadSucceeds | radiation/cpp/src/explorer_lp.cpp:86-108 | with exact arithmetic, a non-zero belief, draws `<= 1` and at least one sample, some trajectory has a non-negative entropy, so planning succeeds |
| Explorer.ExplorerLP.Valid | radiation/cpp/src/explorer_lp.cpp:59-83 | the explorer's invariant: a valid map, as many true sources as the map expects, and a logarithm not positive on (0, 1) |
| Explorer.ExplorerLP.constructor | radiation/cpp/src/explorer_lp.cpp:59-83 | `num_sources` sources on the grid, a start pose on the grid with angle in `[0, 2pi)`, a uniform map and no past poses |
| Explorer.ExplorerLP.PlanAhead | radiation/cpp/src/explorer_lp.cpp:86-114 | fails iff no entropy is `>= 0`, leaving the trajectory as it was; otherwise returns the decoding of the first arg-max id from the current pose |
| Explorer.ExplorerLP.TakeStep | radiation/cpp/src/explorer_lp.cpp:117-131 | past poses grow by the old pose, the pose becomes `trajectory[0]`, the map records one observation there and is refit with the solver's result (in `[0, 1]` when usable); returns the new map entropy |
| Explorer.ExplorerLP.Entropy | radiation/cpp/src/explorer_lp.cpp:134 | the map's entropy, not negative |
| PrototypeMap.Mask | radiation/src/python/grid_map_2d.py:76-82 | the in-view mask has one entry per cell |
| PrototypeMap.MaskAt | radiation/src/python/grid_map_2d.py:80-81 | entry `ii*cols + jj` of the mask is whether cell (ii, jj) is in view |
| PrototypeMap.Blend | radiation/src/python/grid_map_2d.py:85-90 | the blended belief has one rate per cell |
| PrototypeMap.Outcome | radiation/src/python/grid_map_2d.py:69-91 | the update returns False exactly when `m > k`, and blends exactly when `m <= k` and the view is neither empty nor the whole grid; otherwise it divides by zero |
| PrototypeMap.InRate | radiation/src/python/grid_map_2d.py:85 | the in-view rate: non-negative, and the `count` in-view cells share exactly the `m` measured sources |
| PrototypeMap.OutRate | radiation/src/python/grid_map_2d.py:86-87 | the out-of-view rate: non-negative, and the `N - count` other cells share exactly the `k - m` remaining sources |
| PrototypeMap.SumBlend | radiation/src/python/grid_map_2d.py:85-90 | the blend's total is half the old total plus half the rate map's total |
| PrototypeMap.BlendPreservesMass | radiation/src/python/grid_map_2d.py:85-90 | when the update goes through the new total is `0.5 * old + 0.5 * k` |
| PrototypeMap.MassInvariant | radiation/src/python/grid_map_2d.py:85-90 | a belief of total `k` keeps total `k` |
| PrototypeMap.BlendNonNegative | radiation/src/python/grid_map_2d.py:85-91 | a non-negative belief stays non-negative |
| PrototypeMap.ViewMask | radiation/src/python/grid_map_2d.py:76-82 | the nested loop fills the mask with the in-view cells and counts them |
| PrototypeMap.MaskRow | radiation/src/python/grid_map_2d.py:79-82 | the inner loop marks and counts the in-view cells of one row |
| PrototypeMap.Average | radiation/src/python/grid_map_2d.py:75-90 | each new cell is `0.5*old + 0.5*m/count` in view and `0.5*old + 0.5*(k-m)/(N-count)` out of view |
| PrototypeMap.AverageCells | radiation/src/python/grid_map_2d.py:85-90 | the averaged array, read row-major, is the blend of the old one |
| PrototypeMap.UpdateBelief | radiation/src/python/grid_map_2d.py:69-91 | refuses `m > k`, raises ZeroDivisionError when `count == 0` or `count == N`, and otherwise blends |
| PrototypeMap.GridMap2D.Cells | radiation/src/python/grid_map_2d.py:58 | the flat view has one rate per cell |
| PrototypeMap.GridMap2D.constructor | radiation/src/python/grid_map_2d.py:53-59 | every cell is `k / (nrows*ncols)`, so the total is `k` |
| PrototypeMap.GridMap2D.Update | radiation/src/python/grid_map_2d.py:61-91 | the result is `False` for `m > k` and `ZeroDivisionError` for an empty or full view, with the belief unchanged; otherwise `True`, the same shape, and the blended belief |

## Left out

- SolveLeastSquares: the Ceres Levenberg–Marquardt solve is not modelled. Its outcome is an input: the column-major data the solver leaves in the belief and the "usable" flag. A usable result is required to lie in `[0, 1]`, the bound constraints of lines 278-283. An unusable one only has to be non-negative, because a solve started outside the bounds (the prior is above 1 when `num_sources > rows * cols`) fails and may leave the belief unchanged. The residual blocks and the regulariser weight are not modelled, so nothing says the result fits the observations.
- The natural logarithm is a parameter. The only property assumed is that it is not positive on `(0, 1)`. No other floating-point property of `log`, `/` or `+` is modelled, because all arithmetic is exact. The one floating-point effect kept is the NaN that `0/0` gives when the total belief is zero (`BeliefMap.AddShare`).
- Random number generation is not modelled. The uniform draws of the sampler, the source and pose draws of the explorer's constructor, and the random moves are inputs.
- The random-move loop at `radiation/cpp/src/grid_map_2d.cpp:142-150` is not modelled. `GridPose2D::MoveBy`, `Movement2D` and `EncodeTrajectory` are not part of this model. Each sample gives the accepted poses and trajectory id instead. So the start pose argument of GenerateEntropyVector is implicit in the samples.
- `DecodeTrajectory` is a function parameter of the explorer, because its definition is not part of this model.
- `Sensor2D::VoxelInView` is a predicate parameter, because its definition is not part of this model. `Sensor2D::Sense` is modelled as the number of sources in view.
- The encoder sources are not part of this model. The codec is a mixed-radix code whose round trips are proved.
- Integer widths are not modelled: the 32-bit `unsigned int` ids and `pow(num_sources + 1, num_steps)` in the C++ code can overflow. The one exception is `Explorer.LastIndex`, which models the wrap of `num_rows - 1` at zero. Encodings are exact `nat`s.
- BeliefMap.GridMap2D.GenerateSources requires `num_sources >= 1`, because line 96 reads `cdf_evals[0]` and the behaviour with no sources is undefined.
- BeliefMap.GridMap2D.Update requires the measurement to be at most `num_sources`, which is the CHECK at line 215.
- The getters GetNumRows, GetNumCols and GetImmutableBelief are not modelled; they are the class's constant fields and its belief array.
- The VLOG messages are not modelled, and neither is the Python `print`.
- `ExplorerLP::Visualize`, the GLUT driver program and the Python driver scripts are not modelled.
- The Python `Entropy`, `PoissonEntropy` and `Simulate` are not modelled: they are floating-point series and the last is empty.
- Concurrency is not modelled; none of the modelled code is concurrent.
