// The observable bookkeeping of BOOM's multivariate state-space regression
// with Student-t errors: the per-observation latent weight, the data store
// indexed by (series, time), observed-status flags, the shared and
// series-specific state bookkeeping, the order of the Gibbs imputation
// sub-steps, and the paths that deliberately report an error.
//
// The data policy that the C++ model delegates to is flattened into the model
// class: its data points, its (series, time) -> index table and its table of
// observed flags are fields of the model.

module StudentMvss {

  /** The outcome of an operation that can report an error. */
  datatype Outcome = Pass | Fail(message: string)

  /** A scalar response: a real value, or the negative-infinity sentinel of a missing cell. */
  datatype ResponseValue = NegativeInfinity | Finite(value: real)

  /** The sub-steps of one state imputation. */
  datatype ImputationStep =
    | ResizeState
    | ImputeStudentWeights
    | ImputeSharedStateGivenSeriesState
    | ImputeSeriesStateGivenSharedState

  /**
   * One observation: response y with predictors x, for one series at one
   * time, plus the latent Student-t weight that the sampler updates in place.
   */
  class StudentRegressionData
  {
    const y: real
    const x: seq<real>
    const series: int
    const timestamp: int
    var weight: real

    constructor (y: real, x: seq<real>, series: int, timestamp: int)
      ensures this.y == y && this.x == x
      ensures this.series == series && this.timestamp == timestamp
      ensures weight == 1.0
    {
      this.y, this.x := y, x;
      this.series, this.timestamp := series, timestamp;
      weight := 1.0;
    }

    function Weight(): real
      reads this
    {
      weight
    }

    /** Only the weight changes; response, predictors, series and timestamp are constant. */
    method SetWeight(weight: real)
      modifies this`weight
      ensures Weight() == weight
    {
      this.weight := weight;
    }
  }

  /** The cell a data point belongs to. */
  function Key(p: StudentRegressionData): (int, int)
  {
    (p.series, p.timestamp)
  }

  /** The position of the last data point in ps for cell key, or -1 when there is none. */
  function LastIndexOf(ps: seq<StudentRegressionData>, key: (int, int)): (r: int)
    ensures -1 <= r < |ps|
    ensures r >= 0 ==> Key(ps[r]) == key
    ensures forall i :: r < i < |ps| ==> Key(ps[i]) != key
  {
    if |ps| == 0 then -1
    else if Key(ps[|ps| - 1]) == key then |ps| - 1
    else LastIndexOf(ps[..|ps| - 1], key)
  }

  /** Looking a cell up in a concatenation: the second part wins when it holds the cell. */
  lemma {:induction false} LastIndexOfConcat(a: seq<StudentRegressionData>, b: seq<StudentRegressionData>, key: (int, int))
    ensures LastIndexOf(a + b, key) ==
      if LastIndexOf(b, key) >= 0 then |a| + LastIndexOf(b, key) else LastIndexOf(a, key)
    decreases |b|
  {
    if |b| == 0 {
      assert a + b == a;
    } else if Key(b[|b| - 1]) != key {
      assert (a + b)[..|a + b| - 1] == a + b[..|b| - 1];
      LastIndexOfConcat(a, b[..|b| - 1], key);
    }
  }

  /**
   * The observed-flag table after marking (series, time) observed: the table
   * first grows to cover time with all-false rows of width nseries.
   */
  function Observe(rows: seq<seq<bool>>, nseries: nat, series: nat, time: nat): (r: seq<seq<bool>>)
    requires series < nseries
    requires forall t :: 0 <= t < |rows| ==> |rows[t]| == nseries
    ensures |r| == if time < |rows| then |rows| else time + 1
    ensures forall t :: 0 <= t < |r| ==> |r[t]| == nseries
    ensures r[time][series]
    ensures forall t, s :: 0 <= t < |r| && 0 <= s < nseries && (s, t) != (series, time) ==>
      r[t][s] == (t < |rows| && rows[t][s])
  {
    var grown := if time < |rows| then rows else rows + seq(time + 1 - |rows|, _ => seq(nseries, _ => false));
    grown[time := grown[time][series := true]]
  }

  /**
   * The observed-flag table after marking the cells of ps observed, one data
   * point after the other, as merging is modelled.
   */
  function ObserveAll(rows: seq<seq<bool>>, nseries: nat, ps: seq<StudentRegressionData>): (r: seq<seq<bool>>)
    requires forall t :: 0 <= t < |rows| ==> |rows[t]| == nseries
    requires forall i :: 0 <= i < |ps| ==> 0 <= ps[i].series < nseries && 0 <= ps[i].timestamp
    ensures forall t :: 0 <= t < |r| ==> |r[t]| == nseries
  {
    if |ps| == 0 then rows
    else
      var last := ps[|ps| - 1];
      Observe(ObserveAll(rows, nseries, ps[..|ps| - 1]), nseries, last.series, last.timestamp)
  }

  /**
   * The time dimension after merging: the smallest one that covers both the
   * old time dimension and every merged point's timestamp.
   */
  lemma {:induction false} ObserveAllTimeDimension(rows: seq<seq<bool>>, nseries: nat, ps: seq<StudentRegressionData>)
    requires forall t :: 0 <= t < |rows| ==> |rows[t]| == nseries
    requires forall i :: 0 <= i < |ps| ==> 0 <= ps[i].series < nseries && 0 <= ps[i].timestamp
    ensures |rows| <= |ObserveAll(rows, nseries, ps)|
    ensures forall i :: 0 <= i < |ps| ==> ps[i].timestamp < |ObserveAll(rows, nseries, ps)|
    ensures |ObserveAll(rows, nseries, ps)| == |rows| ||
      exists i :: 0 <= i < |ps| && ps[i].timestamp + 1 == |ObserveAll(rows, nseries, ps)|
  {
    if |ps| > 0 {
      var init := ps[..|ps| - 1];
      ObserveAllTimeDimension(rows, nseries, init);
      var r := ObserveAll(rows, nseries, ps);
      assert forall i :: 0 <= i < |init| ==> init[i] == ps[i];
      if |r| != |ObserveAll(rows, nseries, init)| {
        assert ps[|ps| - 1].timestamp + 1 == |r|;
      }
    }
  }

  /**
   * The flags after merging: a cell is flagged exactly when it was flagged
   * before or some merged point belongs to it.
   */
  lemma {:induction false} ObserveAllFlags(rows: seq<seq<bool>>, nseries: nat, ps: seq<StudentRegressionData>, s: int, t: int)
    requires forall t :: 0 <= t < |rows| ==> |rows[t]| == nseries
    requires forall i :: 0 <= i < |ps| ==> 0 <= ps[i].series < nseries && 0 <= ps[i].timestamp
    requires 0 <= s < nseries && 0 <= t < |ObserveAll(rows, nseries, ps)|
    ensures ObserveAll(rows, nseries, ps)[t][s] ==
      ((t < |rows| && rows[t][s]) || LastIndexOf(ps, (s, t)) >= 0)
  {
    if |ps| > 0 {
      var init := ps[..|ps| - 1];
      var before := ObserveAll(rows, nseries, init);
      if t < |before| {
        ObserveAllFlags(rows, nseries, init, s, t);
      } else {
        ObserveAllTimeDimension(rows, nseries, init);
      }
    }
  }

  /** Every row of a table has the given width. */
  ghost predicate Rectangular<T>(rows: seq<seq<T>>, width: nat)
  {
    forall t :: 0 <= t < |rows| ==> |rows[t]| == width
  }

  /** Every data point belongs to a series below nseries and to a time below timeDimension. */
  ghost predicate InRange(ps: seq<StudentRegressionData>, nseries: nat, timeDimension: nat)
  {
    forall i :: 0 <= i < |ps| ==> 0 <= ps[i].series < nseries && 0 <= ps[i].timestamp < timeDimension
  }

  /** The index holds exactly the cells that have data points, each mapped to the last one added. */
  ghost predicate Indexes(index: map<(int, int), nat>, ps: seq<StudentRegressionData>)
  {
    forall key :: LastIndexOf(ps, key) == if key in index then index[key] else -1
  }

  /** A cell is in the index exactly when its observed flag is set. */
  ghost predicate Consistent(rows: seq<seq<bool>>, index: map<(int, int), nat>)
  {
    forall s, t :: 0 <= t < |rows| && 0 <= s < |rows[t]| ==> (rows[t][s] <==> (s, t) in index)
  }

  /** Appending a data point and pointing its cell at it keeps the index exact. */
  lemma IndexesAppend(index: map<(int, int), nat>, ps: seq<StudentRegressionData>, dp: StudentRegressionData)
    requires Indexes(index, ps)
    ensures Indexes(index[Key(dp) := |ps|], ps + [dp])
  {
    forall key
      ensures LastIndexOf(ps + [dp], key) ==
        var m := index[Key(dp) := |ps|]; if key in m then m[key] else -1
    {
      assert (ps + [dp])[..|ps|] == ps;
    }
  }

  lemma InRangeAppend(ps: seq<StudentRegressionData>, nseries: nat, before: nat, after: nat, dp: StudentRegressionData)
    requires InRange(ps, nseries, before) && before <= after
    requires 0 <= dp.series < nseries && 0 <= dp.timestamp < after
    ensures InRange(ps + [dp], nseries, after)
  {
  }

  /**
   * Adding a data point and marking its cell observed keeps the flags and the
   * index in step: the new rows are all false except for the new cell, and no
   * indexed cell lies beyond the old time dimension.
   */
  lemma ObserveKeepsConsistent(rows: seq<seq<bool>>, index: map<(int, int), nat>,
                               ps: seq<StudentRegressionData>, nseries: nat, dp: StudentRegressionData)
    requires Rectangular(rows, nseries) && InRange(ps, nseries, |rows|) && Indexes(index, ps)
    requires Consistent(rows, index)
    requires 0 <= dp.series < nseries && 0 <= dp.timestamp
    ensures Consistent(Observe(rows, nseries, dp.series, dp.timestamp), index[Key(dp) := |ps|])
  {
    var r := Observe(rows, nseries, dp.series, dp.timestamp);
    var m := index[Key(dp) := |ps|];
    forall s, t | 0 <= t < |r| && 0 <= s < |r[t]|
      ensures r[t][s] <==> (s, t) in m
    {
      if (s, t) in index {
        var j := LastIndexOf(ps, (s, t));
        assert ps[j].timestamp == t;
      }
    }
  }

  /** The sum of a list of state dimensions. */
  function Sum(dims: seq<nat>): nat
  {
    if |dims| == 0 then 0 else Sum(dims[..|dims| - 1]) + dims[|dims| - 1]
  }

  lemma SumAppend(dims: seq<nat>, d: nat)
    ensures Sum(dims + [d]) == Sum(dims) + d
  {
    assert (dims + [d])[..|dims|] == dims;
  }

  class StudentMvssRegressionModel
  {
    /** Dimension of the static regression component. */
    const xdim: nat
    /** Number of time series modelled. */
    const nseries: nat

    // The data policy.
    var points: seq<StudentRegressionData>
    var index: map<(int, int), nat>
    var observed: seq<seq<bool>>
    /** Workspace of adjusted observations, one vector per time; filled by the data policy. */
    var adjusted: seq<seq<real>>

    // The state manager: the dimension of each shared state model, in the
    // order added, and of each series' own state models.
    var sharedStateDimensions: seq<nat>
    var seriesStateDimensions: seq<seq<nat>>

    /** The imputation sub-steps run so far, in order. */
    var trace: seq<ImputationStep>

    /**
     * The object invariant: each time has one observed flag per series; each
     * data point belongs to a series in range and to a time within the time
     * dimension; the index maps each cell to the LAST data point added for it.
     */
    ghost predicate Valid()
      reads this
    {
      && Rectangular(observed, nseries)
      && InRange(points, nseries, |observed|)
      && Indexes(index, points)
      && Rectangular(adjusted, nseries)
      && |seriesStateDimensions| == nseries
    }

    /** A data point is present for a cell exactly when that cell's observed flag is set. */
    ghost predicate StatusConsistent()
      reads this
    {
      Consistent(observed, index)
    }

    constructor (xdim: nat, nseries: nat)
      ensures Valid() && StatusConsistent()
      ensures this.xdim == xdim && this.nseries == nseries
      ensures points == [] && TimeDimension() == 0
      ensures NumberOfStateModels() == 0 && StateDimension() == 0
      ensures forall s :: 0 <= s < nseries ==> SeriesStateDimension(s) == 0
      ensures !HasSeriesSpecificState()
      ensures trace == []
    {
      this.xdim, this.nseries := xdim, nseries;
      points, index, observed, adjusted := [], map[], [], [];
      sharedStateDimensions := [];
      seriesStateDimensions := seq(nseries, _ => []);
      trace := [];
    }

    //-----------------------------------------------------------------------
    // Data access.

    /** The number of time points seen: it covers the timestamp of every data point. */
    function TimeDimension(): (r: nat)
      reads this
      ensures Valid() ==> forall i :: 0 <= i < |points| ==> points[i].timestamp < r
    {
      |observed|
    }

    /** Position of the data point for (series, time), or -1 when that cell is missing. */
    function DataIndex(series: int, time: int): (r: int)
      reads this
      requires Valid()
      ensures r == LastIndexOf(points, (series, time))
    {
      if (series, time) in index then index[(series, time)] else -1
    }

    /**
     * The response for (series, time): negative infinity exactly when no data
     * point was added for that cell, otherwise the y of the last one added.
     */
    function Response(series: int, time: int): (r: ResponseValue)
      reads this
      requires Valid()
      ensures r.NegativeInfinity? <==> forall i :: 0 <= i < |points| ==> Key(points[i]) != (series, time)
      ensures r.Finite? ==> r.value == points[LastIndexOf(points, (series, time))].y
    {
      var i := DataIndex(series, time);
      if i < 0 then NegativeInfinity else Finite(points[i].y)
    }

    /** The observed data point for a cell; the same thing as its response. */
    function ObservedData(series: int, time: int): (r: ResponseValue)
      reads this
      requires Valid()
      ensures r == Response(series, time)
    {
      Response(series, time)
    }

    /** The observed flags of all series at time t. */
    function ObservedStatus(t: int): (r: seq<bool>)
      reads this
      requires Valid() && 0 <= t < TimeDimension()
      ensures |r| == nseries
    {
      observed[t]
    }

    /** Whether the given series was observed at the given time. */
    function IsObserved(series: int, time: int): (r: bool)
      reads this
      requires Valid() && 0 <= time < TimeDimension() && 0 <= series < nseries
      ensures r == ObservedStatus(time)[series]
    {
      observed[time][series]
    }

    /** The adjusted observations of all series at the given time. */
    function AdjustedObservations(time: int): (r: seq<real>)
      reads this
      requires Valid() && 0 <= time < |adjusted|
      ensures |r| == nseries
    {
      adjusted[time]
    }

    /** One series' adjusted observation at the given time. */
    function AdjustedObservation(series: int, time: int): (r: real)
      reads this
      requires Valid() && 0 <= time < |adjusted| && 0 <= series < nseries
      ensures r == AdjustedObservations(time)[series]
    {
      AdjustedObservations(time)[series]
    }

    /**
     * Adds a data point: it becomes the cell's data point, the time dimension
     * grows to cover its timestamp, and its observed flag is set.
     */
    method AddData(dp: StudentRegressionData)
      requires Valid()
      requires 0 <= dp.series < nseries && 0 <= dp.timestamp
      modifies this`points, this`index, this`observed
      ensures Valid()
      ensures points == old(points) + [dp]
      ensures observed == Observe(old(observed), nseries, dp.series, dp.timestamp)
      ensures IsObserved(dp.series, dp.timestamp)
      ensures Response(dp.series, dp.timestamp) == Finite(dp.y)
      ensures old(StatusConsistent()) ==> StatusConsistent()
    {
      var key := Key(dp);
      var rows := Observe(observed, nseries, dp.series, dp.timestamp);
      IndexesAppend(index, points, dp);
      InRangeAppend(points, nseries, |observed|, |rows|, dp);
      if StatusConsistent() {
        ObserveKeepsConsistent(observed, index, points, nseries, dp);
      }
      observed, index, points := rows, index[key := |points|], points + [dp];
    }

    /** Forgets all data points, their index and the observed flags. */
    method ClearData()
      requires Valid()
      modifies this`points, this`index, this`observed
      ensures Valid() && StatusConsistent()
      ensures points == [] && TimeDimension() == 0
    {
      points, index, observed := [], map[], [];
    }

    /** Replaces the observed flags at time t. */
    method SetObservedStatus(t: int, status: seq<bool>)
      requires Valid() && 0 <= t < TimeDimension() && |status| == nseries
      modifies this`observed
      ensures Valid()
      ensures observed == old(observed)[t := status]
      ensures ObservedStatus(t) == status
    {
      observed := observed[t := status];
    }

    /**
     * Merges the data of another model. Only another Student-t multivariate
     * state-space model can be merged; anything else is an error and changes
     * nothing. The just_suf flag has no effect.
     */
    method CombineData(rhs: AnyModel, justSuf: bool) returns (outcome: Outcome)
      requires Valid()
      requires rhs.StudentMvssModel? ==>
        forall i :: 0 <= i < |rhs.model.points| ==>
          0 <= rhs.model.points[i].series < nseries && 0 <= rhs.model.points[i].timestamp
      modifies this`points, this`index, this`observed
      ensures Valid()
      ensures outcome.Fail? <==> !rhs.StudentMvssModel?
      ensures !rhs.StudentMvssModel? ==>
        points == old(points) && index == old(index) && observed == old(observed)
      ensures rhs.StudentMvssModel? ==> points == old(points) + old(rhs.model.points)
      ensures rhs.StudentMvssModel? ==> observed == ObserveAll(old(observed), nseries, old(rhs.model.points))
      ensures rhs.StudentMvssModel? ==> forall s, t ::
        DataIndex(s, t) ==
          var j := LastIndexOf(old(rhs.model.points), (s, t));
          if j >= 0 then |old(points)| + j else LastIndexOf(old(points), (s, t))
      ensures old(StatusConsistent()) ==> StatusConsistent()
    {
      if !rhs.StudentMvssModel? {
        return Fail("rhs could not be converted to StudentMvssRegressionModel.");
      }
      var incoming := rhs.model.points;
      MergeData(incoming);
      forall s, t
        ensures DataIndex(s, t) ==
          var j := LastIndexOf(incoming, (s, t));
          if j >= 0 then |old(points)| + j else LastIndexOf(old(points), (s, t))
      {
        LastIndexOfConcat(old(points), incoming, (s, t));
      }
      outcome := Pass;
    }

    /**
     * The data policy's merge, modelled as adding the given data points one
     * after the other through AddData.
     */
    method MergeData(incoming: seq<StudentRegressionData>)
      requires Valid()
      requires forall i :: 0 <= i < |incoming| ==> 0 <= incoming[i].series < nseries && 0 <= incoming[i].timestamp
      modifies this`points, this`index, this`observed
      ensures Valid()
      ensures points == old(points) + incoming
      ensures observed == ObserveAll(old(observed), nseries, incoming)
      ensures old(StatusConsistent()) ==> StatusConsistent()
    {
      var i := 0;
      while i < |incoming|
        invariant 0 <= i <= |incoming|
        invariant Valid()
        invariant points == old(points) + incoming[..i]
        invariant observed == ObserveAll(old(observed), nseries, incoming[..i])
        invariant old(StatusConsistent()) ==> StatusConsistent()
      {
        assert incoming[..i + 1] == incoming[..i] + [incoming[i]];
        assert incoming[..i + 1][..i] == incoming[..i];
        AddData(incoming[i]);
        i := i + 1;
      }
      assert incoming[..i] == incoming;
    }

    //-----------------------------------------------------------------------
    // State.

    /** Dimension of the shared state. */
    function StateDimension(): nat
      reads this
    {
      Sum(sharedStateDimensions)
    }

    function NumberOfStateModels(): nat
      reads this
    {
      |sharedStateDimensions|
    }

    /** Dimension of the state private to one series. */
    function SeriesStateDimension(series: int): nat
      reads this
      requires Valid() && 0 <= series < nseries
    {
      Sum(seriesStateDimensions[series])
    }

    /** Whether any series has state of its own. */
    predicate HasSeriesSpecificState()
      reads this
    {
      exists s :: 0 <= s < |seriesStateDimensions| && seriesStateDimensions[s] != []
    }

    /** Appends a shared state model of the given dimension. */
    method AddState(dimension: nat)
      requires Valid()
      modifies this`sharedStateDimensions
      ensures Valid()
      ensures sharedStateDimensions == old(sharedStateDimensions) + [dimension]
      ensures NumberOfStateModels() == old(NumberOfStateModels()) + 1
      ensures StateDimension() == old(StateDimension()) + dimension
    {
      SumAppend(sharedStateDimensions, dimension);
      sharedStateDimensions := sharedStateDimensions + [dimension];
    }

    /**
     * Appends a state model of the given dimension to one series' own state.
     * A series outside 0 .. nseries - 1 is an error and changes nothing.
     */
    method AddSeriesSpecificState(dimension: nat, series: int) returns (outcome: Outcome)
      requires Valid()
      modifies this`seriesStateDimensions
      ensures Valid()
      ensures outcome.Pass? <==> 0 <= series < nseries
      ensures outcome.Pass? ==>
        && seriesStateDimensions == old(seriesStateDimensions)[series := old(seriesStateDimensions)[series] + [dimension]]
        && SeriesStateDimension(series) == old(SeriesStateDimension(series)) + dimension
        && HasSeriesSpecificState()
      ensures outcome.Fail? ==> seriesStateDimensions == old(seriesStateDimensions)
    {
      if !(0 <= series < nseries) {
        return Fail("series index out of range");
      }
      var dims := seriesStateDimensions[series];
      SumAppend(dims, dimension);
      seriesStateDimensions := seriesStateDimensions[series := dims + [dimension]];
      outcome := Pass;
    }

    //-----------------------------------------------------------------------
    // Imputation.

    /**
     * Imputes shared and series-specific state, each conditional on the other,
     * in four sub-steps. The Student-t weights drawn in the second sub-step
     * are given as draw: the data point for cell (series, time) receives
     * weight draw((series, time)).
     */
    method ImputeState(draw: ((int, int)) -> real)
      requires Valid()
      modifies this`trace, points
      ensures Valid()
      ensures trace == old(trace) + [ResizeState, ImputeStudentWeights,
                                     ImputeSharedStateGivenSeriesState,
                                     ImputeSeriesStateGivenSharedState]
      ensures forall i :: 0 <= i < |points| ==> points[i].Weight() == draw(Key(points[i]))
    {
      Run(ResizeState);
      Run(ImputeStudentWeights);
      SetStudentWeights(draw);
      Run(ImputeSharedStateGivenSeriesState);
      Run(ImputeSeriesStateGivenSharedState);
    }

    /** Stores in each data point the weight drawn for its cell. */
    method SetStudentWeights(draw: ((int, int)) -> real)
      modifies points
      ensures forall i :: 0 <= i < |points| ==> points[i].Weight() == draw(Key(points[i]))
    {
      var i := 0;
      while i < |points|
        invariant 0 <= i <= |points|
        invariant forall k :: 0 <= k < i ==> points[k].Weight() == draw(Key(points[k]))
      {
        points[i].SetWeight(draw(Key(points[i])));
        i := i + 1;
      }
    }

    /** Runs one imputation sub-step; its numerical effect is not modelled, only that it ran. */
    method Run(step: ImputationStep)
      modifies this`trace
      ensures trace == old(trace) + [step]
    {
      trace := trace + [step];
    }

    //-----------------------------------------------------------------------
    // Paths that always report an error.

    /** Copying the model is refused. */
    method Clone() returns (outcome: Outcome)
      ensures outcome.Fail?
    {
      outcome := Fail("StudentMvssRegressionModel cannot be cloned.");
    }

    /** Not implemented: reports an error and leaves the gradient as it was. */
    method UpdateObservationModelGradient(
      gradient: seq<real>, t: int,
      observationErrorMean: seq<real>, observationErrorVariances: seq<real>)
      returns (outcome: Outcome, gradient': seq<real>)
      ensures outcome == Fail("update_observation_model_gradient is not implemented.")
      ensures gradient' == gradient
    {
      outcome := Fail("update_observation_model_gradient is not implemented.");
      gradient' := gradient;
    }

    /** Not implemented: reports an error and updates no sufficient statistics. */
    method UpdateObservationModelCompleteDataSufficientStatistics(
      t: int, observationErrorMean: seq<real>, observationErrorVariances: seq<real>)
      returns (outcome: Outcome)
      ensures outcome == Fail("update_observation_model_complete_data_sufficient_statistics is not implemented.")
    {
      outcome := Fail("update_observation_model_complete_data_sufficient_statistics is not implemented.");
    }
  }

  /** A model as combine_data receives it: either this kind of model or some other kind. */
  datatype AnyModel = StudentMvssModel(model: StudentMvssRegressionModel) | OtherModel

  /** With consistent flags, a response is missing exactly when the cell is not observed. */
  lemma ResponseMissingIffUnobserved(m: StudentMvssRegressionModel, series: int, time: int)
    requires m.Valid() && m.StatusConsistent()
    requires 0 <= time < m.TimeDimension() && 0 <= series < m.nseries
    ensures m.Response(series, time).NegativeInfinity? <==> !m.IsObserved(series, time)
  {
  }

  /** A time beyond the time dimension has no data: its response is negative infinity. */
  lemma ResponseBeyondTimeDimension(m: StudentMvssRegressionModel, series: int, time: int)
    requires m.Valid() && time >= m.TimeDimension()
    ensures m.Response(series, time) == NegativeInfinity
  {
  }
}
