# BOOM: Student-t multivariate state-space bookkeeping, FFT mirror step, GP parameter serialisation

This project models three self-contained pieces of the BOOM Bayesian modelling library in Dafny and proves properties of each model.

- **`FastFourierTransform` (fft.dfy)**: `FastFourierTransform::reflect`. After a real-input FFT has filled the lower half of a frequency vector, `reflect` writes the complex conjugate of that half into the upper half, in place. Let `half = size / 2`. The copy happens only when `half` is odd. Then, for `i = 1 .. half-1`, element `half+i` becomes the conjugate of element `half-i`. When `half` is even, the vector is left exactly as it was. In the source that branch is an empty `else`. The model keeps it that way: a vector of length 4 is not reflected. For an odd length the copy mirrors about `half`, not about the length n: for length 7, position 4 receives the conjugate of position 2 rather than of position 3, and position 6 is never written. So `reflect` produces the conjugate symmetry its header comment describes only for lengths 0 and 1 and for twice an odd number (2, 6, 10, 14, ...); see "## Findings".
  - The method `Reflect` runs on an `array` of complex numbers. It is proved equal to `Reflected`, a function that replays the source loop one step at a time, in the source's order.
  - `Mirrored` is an independent element-by-element definition. The lemma `ReflectedIsMirrored` proves the two definitions agree. Every other property follows from that lemma.
- **`GpKernels` (kernels.hpp)**: the parameter serialisation of Gaussian-process mean functions and kernels.
  - `ZeroFunction` has no parameters, so it writes and reads nothing.
  - `RadialBasisFunction` has a single parameter, its scale.
  - `vectorize` writes the parameters to a flat vector. `unvectorize` reads them back from a position and returns the position just after them. A position in a vector is modelled as a natural-number offset.
- **`StudentMvss` (StudentMvssRegressionModel.hpp)**: the observable bookkeeping of the multivariate state-space regression with Student-t errors.
  - Per-observation latent weights.
  - A data store indexed by (series, time), whose `response` returns a negative-infinity sentinel for a missing cell.
  - Observed-status flags per time.
  - Merging the data of another model, with a type check.
  - Shared and series-specific state dimensions.
  - The fixed order of the four sub-steps of state imputation.
  - The paths that always report an error.

  The model object is a class. It contains its data policy's fields directly: the data points, the (series, time) → index table and the observed-flag table. `Valid()` states that the index maps each cell to the last data point added for it. So `DataIndex` equals `LastIndexOf`, a reference definition over the list of points. `StatusConsistent()` states the invariant "a cell has data exactly when its observed flag is set". Adding and merging data preserve it. `set_observed_status` can break it.

## Model

| member | source | states |
|---|---|---|
| `FastFourierTransform.Reflect` | math/fft.cpp:56-68 | the array afterwards is `Reflected` of its old contents; the frame is the array alone |
| `FastFourierTransform.Reflected` | math/fft.cpp:56-58 | reflect never changes the vector's length |
| `FastFourierTransform.ReflectFrom` | math/fft.cpp:60-63 | running the loop from any index keeps the length |
| `FastFourierTransform.ReflectFromAt` | math/fft.cpp:60-63 | after the loop has run from index i, positions half+i .. 2*half-1 hold the conjugate mirror of the ORIGINAL values and every other position is untouched; the loop never reads a position it has written |
| `FastFourierTransform.ReflectedIsMirrored` | math/fft.cpp:58-66 | the loop-order definition equals the element-wise mirror on every vector, so the result does not depend on loop order |
| `FastFourierTransform.ReflectMirrorsLowerHalf` | math/fft.cpp:58-63 | when half is odd, for 1 <= i < half the new element half+i has the real part of the old element half-i and the negated imaginary part |
| `FastFourierTransform.ReflectChangesOnlyUpperHalf` | math/fft.cpp:57-66 | an element can change only if half is odd and its index lies strictly between half and 2*half; so indices 0..half and, for an odd length, the last index are never modified |
| `FastFourierTransform.ReflectKeepsEvenHalf` | math/fft.cpp:64-66 | when half is even (lengths 0, 1, 4, 5, 8, ...) the vector is unchanged |
| `FastFourierTransform.ReflectIdempotent` | math/fft.cpp:60-63 | reflecting twice gives the same vector as reflecting once |
| `FastFourierTransform.ConjugateMirroredIsHermitian` | math/fft.hpp:41-44 | the intended result: position n-k holds the conjugate of position k for every 0 < k < n except the middle of an even length, and positions 0 .. n/2 keep their values |
| `FastFourierTransform.ReflectIsHermitianForTwiceOddHalf` | math/fft.cpp:56-66 | for a length that is twice an odd half, reflect produces exactly the conjugate-symmetric vector |
| `FastFourierTransform.ReflectOddLengthCounterexample` | math/fft.cpp:58-63 | for length 7, reflect puts conj(freq[2]) at position 4 where the symmetry needs conj(freq[3]), and leaves position 6 unwritten |
| `FastFourierTransform.ReflectEvenHalfCounterexample` | math/fft.cpp:64-66 | for length 4, reflect leaves position 3 as it was where the symmetry needs conj(freq[1]) |
| `GpKernels.ZeroFunction.Size` | Models/GP/kernels.hpp:39 | the zero function has 0 parameters for either value of `minimal` |
| `GpKernels.ZeroFunction.Eval` | Models/GP/kernels.hpp:41-43 | the value is 0 at every predictor vector |
| `GpKernels.ZeroFunction.Vectorize` | Models/GP/kernels.hpp:50-52 | the vectorized parameters number exactly Size(minimal), i.e. none |
| `GpKernels.ZeroFunction.UnvectorizeFrom` | Models/GP/kernels.hpp:53-54 | reading from a position consumes Size(minimal) = 0 values: the position returned is the one given; the function value cannot change the object |
| `GpKernels.ZeroFunction.Unvectorize` | Models/GP/kernels.hpp:55-58 | reading a whole vector returns its start, having consumed Size(minimal) = 0 values |
| `GpKernels.ZeroFunctionRoundTrip` | Models/GP/kernels.hpp:50-58 | unvectorizing what vectorize wrote consumes all of it, whatever the two `minimal` flags are |
| `GpKernels.RadialBasisFunction.constructor` | Models/GP/kernels.hpp:80 | the new kernel has the given scale |
| `GpKernels.RadialBasisFunction.Scale` | Models/GP/kernels.hpp:85 | the stored scale: the constructor's argument, or the value last given to set_scale or read by unvectorize (see those rows) |
| `GpKernels.RadialBasisFunction.Size` | Models/GP/kernels.hpp:83 | one parameter, whatever `minimal` is |
| `GpKernels.RadialBasisFunction.SetScale` | Models/GP/kernels.hpp:85-86 | afterwards scale() returns the value set |
| `GpKernels.RadialBasisFunction.Vectorize` | Models/GP/kernels.hpp:67-68 | returns exactly Size(minimal) values, the first of which is the scale |
| `GpKernels.RadialBasisFunction.UnvectorizeFrom` | Models/GP/kernels.hpp:93-94 | consumes Size(minimal) values starting at pos, returns the position just past them, and afterwards the kernel vectorizes to exactly the slice it consumed |
| `GpKernels.RadialBasisFunction.Unvectorize` | Models/GP/kernels.hpp:95 | as UnvectorizeFrom, from the start of the vector |
| `GpKernels.RadialBasisRoundTrip` | Models/GP/kernels.hpp:67-68 | unvectorize(vectorize()) restores the scale and consumes the whole vector, for any pair of `minimal` flags |
| `StudentMvss.StudentRegressionData.constructor` | Models/StateSpace/Multivariate/StudentMvssRegressionModel.hpp:52-55 | the data point holds the given response, predictors, series and timestamp |
| `StudentMvss.StudentRegressionData.Weight` | Models/StateSpace/Multivariate/StudentMvssRegressionModel.hpp:71 | the stored weight: 1 for a new data point, then the value last set (see the constructor and SetWeight rows) |
| `StudentMvss.StudentRegressionData.SetWeight` | Models/StateSpace/Multivariate/StudentMvssRegressionModel.hpp:70-72 | afterwards weight() returns the value set; only the weight field may change, so response, predictors, series and timestamp are unchanged |
| `StudentMvss.LastIndexOf` | Models/StateSpace/Multivariate/StudentMvssRegressionModel.hpp:290-292 | reference lookup: the position of the last data point for a cell, or -1 exactly when no data point has that cell |
| `StudentMvss.LastIndexOfConcat` | Models/StateSpace/Multivariate/StudentMvssRegressionModel.hpp:276-285 | in merged data, a cell that the merged-in part holds is found there; any other cell is found where it was before |
| `StudentMvss.Observe` | Models/StateSpace/Multivariate/StudentMvssRegressionModel.hpp:267-274 | adding data grows the observed table to cover the new time, with new rows all false, sets the new cell's flag and keeps every other flag |
| `StudentMvss.ObserveAllTimeDimension` | Models/StateSpace/Multivariate/StudentMvssRegressionModel.hpp:276-285 | after merging, the time dimension is the smallest that covers the old one and every merged point's timestamp |
| `StudentMvss.ObserveAllFlags` | Models/StateSpace/Multivariate/StudentMvssRegressionModel.hpp:276-285 | after merging, a cell is flagged exactly when it was flagged before or some merged point belongs to it |
| `StudentMvss.IndexesAppend` | Models/StateSpace/Multivariate/StudentMvssRegressionModel.hpp:267-274 | pointing the new point's cell at the new point keeps the index equal to the last-occurrence lookup |
| `StudentMvss.ObserveKeepsConsistent` | Models/StateSpace/Multivariate/StudentMvssRegressionModel.hpp:267-274 | adding data keeps "cell indexed iff flag set" |
| `StudentMvss.SumAppend` | Models/StateSpace/Multivariate/StudentMvssRegressionModel.hpp:222-225 | adding a state model of dimension d adds d to the total state dimension |
| `StudentMvss.StudentMvssRegressionModel.constructor` | Models/StateSpace/Multivariate/StudentMvssRegressionModel.hpp:149-152 | a new model has no data, time dimension 0, no shared state models, state dimension 0, every series' own state dimension 0 and no series-specific state |
| `StudentMvss.StudentMvssRegressionModel.TimeDimension` | Models/StateSpace/Multivariate/StudentMvssRegressionModel.hpp:259 | the number of time points; it exceeds the timestamp of every data point |
| `StudentMvss.StudentMvssRegressionModel.DataIndex` | Models/StateSpace/Multivariate/StudentMvssRegressionModel.hpp:290-292 | the index lookup agrees with the last-occurrence reference definition, so -1 means no data point for that cell |
| `StudentMvss.StudentMvssRegressionModel.Response` | Models/StateSpace/Multivariate/StudentMvssRegressionModel.hpp:295-302 | negative infinity exactly when no data point exists for (series, time); otherwise the y of the last data point added for that cell |
| `StudentMvss.StudentMvssRegressionModel.ObservedData` | Models/StateSpace/Multivariate/StudentMvssRegressionModel.hpp:323-327 | always equal to response(series, time) |
| `StudentMvss.StudentMvssRegressionModel.ObservedStatus` | Models/StateSpace/Multivariate/StudentMvssRegressionModel.hpp:314-316 | one flag per series |
| `StudentMvss.StudentMvssRegressionModel.IsObserved` | Models/StateSpace/Multivariate/StudentMvssRegressionModel.hpp:304-307 | element `series` of observed_status(time) |
| `StudentMvss.StudentMvssRegressionModel.AdjustedObservations` | Models/StateSpace/Multivariate/StudentMvssRegressionModel.hpp:336-337 | one adjusted observation per series |
| `StudentMvss.StudentMvssRegressionModel.AdjustedObservation` | Models/StateSpace/Multivariate/StudentMvssRegressionModel.hpp:329-334 | element `series` of the vector adjusted_observation(time) |
| `StudentMvss.StudentMvssRegressionModel.AddData` | Models/StateSpace/Multivariate/StudentMvssRegressionModel.hpp:267-274 | appends the point; the observed table becomes `Observe` of the old one; the cell is observed and its response is the new y; the invariant and flag consistency are kept; nothing else changes |
| `StudentMvss.StudentMvssRegressionModel.ClearData` | Models/StateSpace/Multivariate/StudentMvssRegressionModel.hpp:287-288 | no data, time dimension 0, invariant and consistency hold; state models and trace untouched |
| `StudentMvss.StudentMvssRegressionModel.SetObservedStatus` | Models/StateSpace/Multivariate/StudentMvssRegressionModel.hpp:318-321 | afterwards observed_status(t) is the given status; other times' flags and all data unchanged |
| `StudentMvss.StudentMvssRegressionModel.CombineData` | Models/StateSpace/Multivariate/StudentMvssRegressionModel.hpp:276-285 | reports an error and changes nothing exactly when rhs is not this kind of model; otherwise appends rhs's data points, the observed table becomes `ObserveAll` of the old one over rhs's points (so an empty rhs changes nothing), and every cell rhs holds now reads rhs's last point for it, other cells unchanged; just_suf has no effect |
| `StudentMvss.StudentMvssRegressionModel.MergeData` | Models/StateSpace/Multivariate/StudentMvssRegressionModel.hpp:279-280 | adds the incoming points in order: the points are appended, the observed table becomes `ObserveAll` of the old one, and the invariant and flag consistency are kept |
| `StudentMvss.StudentMvssRegressionModel.AddState` | Models/StateSpace/Multivariate/StudentMvssRegressionModel.hpp:200-204 | one more shared state model; state_dimension grows by its dimension; nothing else changes |
| `StudentMvss.StudentMvssRegressionModel.AddSeriesSpecificState` | Models/StateSpace/Multivariate/StudentMvssRegressionModel.hpp:206-215 | succeeds exactly for a series in range, then that series' state dimension grows by the model's dimension and the model has series-specific state; otherwise an error and no change |
| `StudentMvss.StudentMvssRegressionModel.ImputeState` | Models/StateSpace/Multivariate/StudentMvssRegressionModel.hpp:245-252 | runs exactly four sub-steps in the order resize state, impute Student weights, impute shared state given series state, impute series state given shared state; afterwards every data point carries the Student-t weight drawn for its cell; data points, index, observed flags and state models are otherwise unchanged |
| `StudentMvss.StudentMvssRegressionModel.SetStudentWeights` | Models/StateSpace/Multivariate/StudentMvssRegressionModel.hpp:97-101 | every data point's weight becomes the weight drawn for its cell (w[series, time]), even when one data point object appears twice |
| `StudentMvss.StudentMvssRegressionModel.Run` | Models/StateSpace/Multivariate/StudentMvssRegressionModel.hpp:248-251 | running a sub-step records exactly that sub-step after the ones already run |
| `StudentMvss.StudentMvssRegressionModel.Clone` | Models/StateSpace/Multivariate/StudentMvssRegressionModel.hpp:165-167 | cloning always reports an error |
| `StudentMvss.StudentMvssRegressionModel.UpdateObservationModelGradient` | Models/StateSpace/Multivariate/StudentMvssRegressionModel.hpp:511-517 | always reports "not implemented", leaves the gradient as given and changes no state |
| `StudentMvss.StudentMvssRegressionModel.UpdateObservationModelCompleteDataSufficientStatistics` | Models/StateSpace/Multivariate/StudentMvssRegressionModel.hpp:543-549 | always reports "not implemented" and changes no state |
| `StudentMvss.ResponseMissingIffUnobserved` | Models/StateSpace/Multivariate/StudentMvssRegressionModel.hpp:295-321 | while flags and data are consistent, response is negative infinity exactly when the cell is not observed |
| `StudentMvss.ResponseBeyondTimeDimension` | Models/StateSpace/Multivariate/StudentMvssRegressionModel.hpp:295-302 | a time at or beyond the time dimension has no data, so its response is negative infinity |

`state_dimension`, `number_of_state_models`, `series_state_dimension` and `has_series_specific_state` (lines 217-235) are the functions `StateDimension`, `NumberOfStateModels`, `SeriesStateDimension` and `HasSeriesSpecificState`. Their meaning is stated through `AddState`, `AddSeriesSpecificState` and the constructor.

## Left out

- The forward and inverse transforms and `print_config` (math/fft.cpp:38-54, 70-88): floating-point wrappers over kissfft, which is not part of this model, and output to stdout. math/fft.hpp declares `reflect` and `transform` const and `print_config` as returning a string; the model follows the .cpp.
- Doubles are modelled as exact reals, and negative infinity as a constructor of the `ResponseValue` datatype. Rounding and NaN are not modelled.
- The data policy (`MultivariateStateSpaceRegressionDataPolicy`) is not part of this model. `add_data`, `data_index` and `clear_data` are modelled at the level the header states: adding data sets the cell's index, extends the time dimension and sets the observed flag. How `combine_data` merges is an assumption; see the `MergeData` line below.
- StudentMvss.StudentMvssRegressionModel.AddData: when a second data point is added for a cell that already has one, the model lets the later point win. Series and timestamp in range are preconditions, as the data point's documentation demands. The data policy's own checks are not visible.
- StudentMvss.StudentMvssRegressionModel.MergeData: merging is modelled as adding rhs's data points in order through add_data. The data policy's combine_data body is not visible, so this, and what it implies for the index, the observed flags and the time dimension, is an assumption of the model.
- StudentMvss.StudentMvssRegressionModel.CombineData: requires that rhs's data points fit this model's series range, because merging is modelled through add_data. What the data policy does with points out of range is not visible.
- StudentMvss.StudentRegressionData.constructor: the constructor body is not part of this model. Its promise of an initial weight of 1 (the Gaussian default) is an assumption of the model.
- StudentMvss.StudentMvssRegressionModel.ImputeState: records which sub-step ran and stores the Student-t weights, which are taken as the parameter `draw` (one per cell) instead of being drawn from a random number generator. The Gamma distribution of the draws, state resizing and the Kalman filtering/smoothing of the other sub-steps depend on floating point and randomness, and their bodies are not visible; the state values they produce are not modelled.
- StudentMvss.StudentMvssRegressionModel.SetObservedStatus: a time within the time dimension and one flag per series are preconditions. What the data policy does with other arguments is not visible.
- Not modelled, because they depend on floating point, a random number generator or bodies that are not visible:
  - `simulate_forecast`;
  - the `observation_variance*` and `single_observation_variance` members;
  - `observation_coefficients` and `state_contributions`;
  - `observation(t)`;
  - `isolate_shared_state` and `isolate_series_specific_state`. The adjusted-observation workspace is a field that nothing in the model writes.
- StudentMvss.StudentMvssRegressionModel.AdjustedObservations: that each workspace vector holds one entry per series is part of the model's invariant, following the header's "across all time series"; the code that fills the workspace is not visible.
- Not modelled because they are accessors to objects outside this model: `observe_time_dimension`, `series_specific_model`, `observation_model`, `state_model` and `state_models`.
- The parameter-observer mechanism (`set_parameter_observers`, `observation_variance_current_`) is left out: it is a callback cache with no visible body.
- The commented-out MLE/EM declarations (lines 410-531) are left out.
- StudentMvss.StudentMvssRegressionModel.Clone and `deepclone`: their bodies are not visible. `Clone` follows the header comment that cloning reports an error. Copy and move are deleted in C++, and the Dafny class simply has no copy operation.
- StudentMvss.StudentMvssRegressionModel.AddSeriesSpecificState: the error for a series out of range comes from the state manager's documented contract. The state manager itself is not part of this model. State models are represented only by their dimensions.
- `RadialBasisFunction::operator()` and `display` are left out. The first is a floating-point exponential whose body is not visible; the second is output formatting. `clone` is left out too.
- GpKernels.RadialBasisFunction.SetScale, GpKernels.RadialBasisFunction.Vectorize, GpKernels.RadialBasisFunction.UnvectorizeFrom and GpKernels.RadialBasisFunction.constructor: their bodies are not visible. They are modelled after the class comment: one parameter, the scale, written and consumed. Any validation of the scale that `set_scale` or the constructor might do is not modelled.
- GpKernels.RadialBasisFunction.UnvectorizeFrom: requires enough values after the position. Reading past the end of the vector is undefined in C++.
- Iterators are modelled as natural-number offsets. An iterator argument that C++ advances in place is modelled as the returned position.

## Findings

| source | as written | input that shows it | evidently intended | confidence | as-written member | corrected member |
|---|---|---|---|---|---|---|
| math/fft.cpp:57-66 | copies conj(freq[half-i]) to freq[half+i] for 1 <= i < half, and only when half is odd | length 7: position 4 gets conj(freq[2]) and position 6 is never written; length 4: position 3 is left as it was | position k above n/2 holds conj(freq[n-k]), the conjugate symmetry of a real input's transform described at math/fft.hpp:41-44 | medium, not executed | `FastFourierTransform.ReflectOddLengthCounterexample`, `FastFourierTransform.ReflectEvenHalfCounterexample` (about `Reflected`) | `FastFourierTransform.ConjugateMirroredIsHermitian` (about `ConjugateMirrored`), with `FastFourierTransform.ReflectIsHermitianForTwiceOddHalf` showing the two agree for lengths that are twice an odd half |

The in-place method `Reflect` models the code as written, since that is what the library does; `ConjugateMirrored` is the definition a caller of `transform` that expects the full symmetric spectrum relies on.
