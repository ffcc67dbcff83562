/**
 * One energy-split run for a prediction job (`split_energy`): fetch the job
 * and its input, split, add the mean absolute error to the coefficient dict,
 * format it, and check it against the historical means. Accepted
 * coefficients are appended to the store and returned; rejected ones are sent
 * in a Teams alert, and the last stored coefficients, formatted against the
 * same input, are returned instead without writing anything.
 *
 * The database and Teams are not modelled: their answers are the fields of a
 * `Store` value, and the calls made to them are returned as a trace.
 */
module SplitOrchestrator {
  import opened Wrappers
  import opened OrderedDict
  import opened Numeric
  import opened CoefValidator
  import opened CoefFormatter
  import opened ComponentSplitter

  /** A prediction job; the run only uses its id. */
  datatype PredictionJob = PredictionJob(id: int)

  /** What the database answers during one run. */
  datatype Store = Store(
    job: PredictionJob,      // get_prediction_job(pid)
    input: InputTable,       // get_input_energy_splitting(pj)
    meanCoefs: Dict,         // get_energy_split_coefs(pj, mean=True)
    lastCoefs: Dict)         // get_energy_split_coefs(pj)

  /** A call made to the database or to Teams. */
  datatype Call =
    | GetPredictionJob(pid: int)
    | GetInputEnergySplitting(jobId: int)
    | GetMeanCoefs(jobId: int)
    | GetLastCoefs(jobId: int)
    | PostTeamsAlert(jobId: int, coefsdf: Frame)
    | WriteCoefs(coefsdf: Frame)   // if_exists="append"

  /** The exception that ends a run early. */
  datatype SplitFailure =
    | SplitFailed(split: SplitError)
    | MissingLoadColumn(firstColumn: Name)   // `components[["load", "Inschatting"]]` raised KeyError
    | ValidationFailed(lookup: KeyError)

  /** The column that the MAE selects by name; the input's first column keeps its own name in `components`. */
  const LoadLabel: Name := "load"

  /** The key under which the mean absolute error is added to the coefficient dict. */
  const MaeKey: Name := "MAE"

  /** The per-timestamp error `Inschatting - load` (the row difference of `[load, Inschatting]`). */
  function Errors(c: Components): (e: seq<real>)
    requires |c.estimate| == |c.load|
    ensures |e| == |c.load|
  {
    seq(|c.load|, t requires 0 <= t < |c.load| && |c.estimate| == |c.load| => c.estimate[t] - c.load[t])
  }

  /** `error.abs().mean()` */
  function MeanAbsoluteError(c: Components): real
    requires |c.estimate| == |c.load| > 0
  {
    var e := Errors(c);
    Sum(seq(|e|, t requires 0 <= t < |e| => Abs(e[t]))) / (|e| as real)
  }

  /** The mean absolute error is never negative, and it is zero exactly when the estimate equals the load. */
  lemma MeanAbsoluteErrorZero(c: Components)
    requires |c.estimate| == |c.load| > 0
    ensures MeanAbsoluteError(c) >= 0.0
    ensures MeanAbsoluteError(c) == 0.0 <==> c.estimate == c.load
  {
    var e := Errors(c);
    var a := seq(|e|, t requires 0 <= t < |e| => Abs(e[t]));
    SumNonNegative(a);
    if c.estimate == c.load {
      SumZeros(a);
    }
    if MeanAbsoluteError(c) == 0.0 {
      assert Sum(a) == 0.0;
      assert forall t :: 0 <= t < |c.load| ==> c.estimate[t] == c.load[t] by {
        forall t | 0 <= t < |c.load| ensures c.estimate[t] == c.load[t] {
          assert a[t] == 0.0;
        }
      }
    }
  }

  /** `coefdict.update({"MAE": mae})`: the fitted weights keep their values and order. */
  function WithMae(coefdict: Dict, mae: real): (d: Dict)
    requires coefdict.Valid()
    ensures d.Valid() && d.Get(MaeKey) == Some(mae)
    ensures forall k :: k != MaeKey ==> d.Get(k) == coefdict.Get(k)
    ensures d.keys == if MaeKey in coefdict.keys then coefdict.keys else coefdict.keys + [MaeKey]
  {
    coefdict.Put(MaeKey, mae)
  }

  /** The calls made before validation, when the split has succeeded. */
  function Reads(pid: int, job: PredictionJob): seq<Call> {
    [GetPredictionJob(pid), GetInputEnergySplitting(job.id), GetMeanCoefs(job.id)]
  }

  /** The coefficient dict that is validated: the fitted weights plus the MAE. */
  function CandidateCoefs(store: Store, fit: Fitter): (d: Dict)
    requires WellShaped(store.input) && Split(store.input, true, fit).Success?
    ensures d.Valid()
  {
    SplitShape(store.input, true, fit);
    var split := Split(store.input, true, fit).value;
    WithMae(split.1, MeanAbsoluteError(split.0))
  }

  /** The frame formatted from the candidate coefficients (`coefsdf`). */
  function Candidate(store: Store, fit: Fitter, createdAt: Timestamp): Frame
    requires WellShaped(store.input) && Split(store.input, true, fit).Success?
  {
    SplitShape(store.input, true, fit);
    CoefsFrame(store.job.id, store.input.index, CandidateCoefs(store, fit), createdAt)
  }

  /** The frame returned after a rejection: the last stored coefficients (`last_coefsdf`). */
  function Fallback(store: Store, fit: Fitter, fallbackCreatedAt: Timestamp): Frame
    requires WellShaped(store.input) && Split(store.input, true, fit).Success? && store.lastCoefs.Valid()
  {
    SplitShape(store.input, true, fit);
    CoefsFrame(store.job.id, store.input.index, store.lastCoefs, fallbackCreatedAt)
  }

  /** The calls before the split: fetching the prediction job and its input. */
  function Fetches(pid: int, job: PredictionJob): seq<Call> {
    [GetPredictionJob(pid), GetInputEnergySplitting(job.id)]
  }

  /**
   * What happens once the candidate is known, from fetching the means on: a
   * lookup error ends the run, a rejection alerts with the candidate and
   * returns the fallback, an acceptance writes the candidate and returns it.
   */
  function Decide(job: PredictionJob, verdict: Result<bool, KeyError>, candidate: Frame, fallback: Frame)
    : (Result<Frame, SplitFailure>, seq<Call>)
  {
    match verdict
    case Failure(e) => (Failure(ValidationFailed(e)), [GetMeanCoefs(job.id)])
    case Success(valid) =>
      if !valid then
        (Success(fallback), [GetMeanCoefs(job.id), PostTeamsAlert(job.id, candidate), GetLastCoefs(job.id)])
      else
        (Success(candidate), [GetMeanCoefs(job.id), WriteCoefs(candidate)])
  }

  /** What a successful `find_components` hands on: a non-empty index, an estimate as long as the load, a valid dict. */
  ghost predicate Usable(index: seq<Timestamp>, split: (Components, Dict)) {
    |index| > 0 && |split.0.estimate| == |split.0.load| > 0 && split.1.Valid()
  }

  /** A successful split of a well-shaped input is usable. */
  lemma SplitUsable(df: InputTable, fit: Fitter)
    requires WellShaped(df)
    ensures Split(df, true, fit).Success? ==> Usable(df.index, Split(df, true, fit).value)
  {
    if Split(df, true, fit).Success? {
      SplitShape(df, true, fit);
    }
  }

  /** The result and the calls of the run once the coefficient dict is known. */
  function Settled(job: PredictionJob, index: seq<Timestamp>, coefdict: Dict, meanCoefs: Dict, lastCoefs: Dict,
                   createdAt: Timestamp, fallbackCreatedAt: Timestamp): (Result<Frame, SplitFailure>, seq<Call>)
    requires |index| > 0 && coefdict.Valid() && meanCoefs.Valid() && lastCoefs.Valid()
  {
    Decide(job, Verdict(coefdict, meanCoefs),
           CoefsFrame(job.id, index, coefdict, createdAt), CoefsFrame(job.id, index, lastCoefs, fallbackCreatedAt))
  }

  /** The result and the calls of the run after the input is fetched, given what the split returned. */
  function AfterSplit(job: PredictionJob, index: seq<Timestamp>, split: Result<(Components, Dict), SplitError>,
                      meanCoefs: Dict, lastCoefs: Dict, createdAt: Timestamp, fallbackCreatedAt: Timestamp)
    : (Result<Frame, SplitFailure>, seq<Call>)
    requires split.Success? ==> Usable(index, split.value)
    requires meanCoefs.Valid() && lastCoefs.Valid()
  {
    match split
    case Failure(e) => (Failure(SplitFailed(e)), [])
    case Success(s) =>
      if s.0.loadName != LoadLabel then (Failure(MissingLoadColumn(s.0.loadName)), [])
      else Settled(job, index, WithMae(s.1, MeanAbsoluteError(s.0)), meanCoefs, lastCoefs, createdAt, fallbackCreatedAt)
  }

  /**
   * The result and the calls of `split_energy(pid)`, with `createdAt` and
   * `fallbackCreatedAt` the two readings of `datetime.utcnow()`.
   */
  function SplitEnergyRun(pid: int, store: Store, fit: Fitter, createdAt: Timestamp, fallbackCreatedAt: Timestamp)
    : (Result<Frame, SplitFailure>, seq<Call>)
    requires WellShaped(store.input) && store.meanCoefs.Valid() && store.lastCoefs.Valid()
  {
    SplitUsable(store.input, fit);
    var after := AfterSplit(store.job, store.input.index, Split(store.input, true, fit),
                            store.meanCoefs, store.lastCoefs, createdAt, fallbackCreatedAt);
    (after.0, Fetches(pid, store.job) + after.1)
  }

  /**
   * Lines 47 to 70 of `split_energy`: format the candidate, fetch the means,
   * validate, then alert and fall back, or write. `calls` are the calls made here.
   */
  method Settle(job: PredictionJob, index: seq<Timestamp>, coefdict: Dict, meanCoefs: Dict, lastCoefs: Dict,
                createdAt: Timestamp, fallbackCreatedAt: Timestamp)
    returns (r: Result<Frame, SplitFailure>, calls: seq<Call>)
    requires |index| > 0 && coefdict.Valid() && meanCoefs.Valid() && lastCoefs.Valid()
    ensures r == Settled(job, index, coefdict, meanCoefs, lastCoefs, createdAt, fallbackCreatedAt).0
    ensures calls == Settled(job, index, coefdict, meanCoefs, lastCoefs, createdAt, fallbackCreatedAt).1
  {
    var coefsdf := ConvertCoefdictToCoefsdf(job.id, index, coefdict, createdAt);
    calls := [GetMeanCoefs(job.id)];
    var valid := AreNewCoefsValid(coefdict, meanCoefs);
    if valid.Failure? {
      return Failure(ValidationFailed(valid.error)), calls;
    }
    if !valid.value {
      calls := calls + [PostTeamsAlert(job.id, coefsdf)];
      calls := calls + [GetLastCoefs(job.id)];
      var lastCoefsdf := ConvertCoefdictToCoefsdf(job.id, index, lastCoefs, fallbackCreatedAt);
      return Success(lastCoefsdf), calls;
    }
    calls := calls + [WriteCoefs(coefsdf)];
    return Success(coefsdf), calls;
  }

  /**
   * Lines 31 to 70 of `split_energy`: stop on a failed split or when the
   * components have no `load` column, else add the MAE and settle.
   */
  method Proceed(job: PredictionJob, index: seq<Timestamp>, split: Result<(Components, Dict), SplitError>,
                 meanCoefs: Dict, lastCoefs: Dict, createdAt: Timestamp, fallbackCreatedAt: Timestamp)
    returns (r: Result<Frame, SplitFailure>, calls: seq<Call>)
    requires split.Success? ==> Usable(index, split.value)
    requires meanCoefs.Valid() && lastCoefs.Valid()
    ensures r == AfterSplit(job, index, split, meanCoefs, lastCoefs, createdAt, fallbackCreatedAt).0
    ensures calls == AfterSplit(job, index, split, meanCoefs, lastCoefs, createdAt, fallbackCreatedAt).1
  {
    if split.Failure? {
      return Failure(SplitFailed(split.error)), [];
    }
    var (components, fitted) := split.value;
    if components.loadName != LoadLabel {
      return Failure(MissingLoadColumn(components.loadName)), [];
    }
    var mae := MeanAbsoluteError(components);
    var coefdict := WithMae(fitted, mae);
    r, calls := Settle(job, index, coefdict, meanCoefs, lastCoefs, createdAt, fallbackCreatedAt);
  }

  /** `split_energy(pid)`, step by step. */
  method SplitEnergy(pid: int, store: Store, fit: Fitter, createdAt: Timestamp, fallbackCreatedAt: Timestamp)
    returns (r: Result<Frame, SplitFailure>, trace: seq<Call>)
    requires WellShaped(store.input) && store.meanCoefs.Valid() && store.lastCoefs.Valid()
    ensures r == SplitEnergyRun(pid, store, fit, createdAt, fallbackCreatedAt).0
    ensures trace == SplitEnergyRun(pid, store, fit, createdAt, fallbackCreatedAt).1
  {
    trace := [GetPredictionJob(pid)];
    var pj := store.job;
    trace := trace + [GetInputEnergySplitting(pj.id)];
    var input := store.input;
    var split := FindComponents(input, true, fit);
    SplitUsable(input, fit);
    var calls;
    r, calls := Proceed(pj, input.index, split, store.meanCoefs, store.lastCoefs, createdAt, fallbackCreatedAt);
    trace := trace + calls;
  }

  /** The number of writes in a trace. */
  function Writes(trace: seq<Call>): nat {
    if trace == [] then 0 else (if trace[0].WriteCoefs? then 1 else 0) + Writes(trace[1..])
  }

  /** The number of alerts in a trace. */
  function Alerts(trace: seq<Call>): nat {
    if trace == [] then 0 else (if trace[0].PostTeamsAlert? then 1 else 0) + Alerts(trace[1..])
  }

  lemma {:induction false} CountsAppend(a: seq<Call>, b: seq<Call>)
    ensures Writes(a + b) == Writes(a) + Writes(b)
    ensures Alerts(a + b) == Alerts(a) + Alerts(b)
  {
    if a == [] {
      assert a + b == b;
    } else {
      CountsAppend(a[1..], b);
      assert (a + b)[1..] == a[1..] + b;
    }
  }

  /** The calls before validation neither write nor alert. */
  lemma NoEffectsInReads(pid: int, job: PredictionJob)
    ensures Writes(Reads(pid, job)) == 0 && Alerts(Reads(pid, job)) == 0
  {
    var rs := Reads(pid, job);
    assert rs[1..][1..][1..] == [];
    assert Writes(rs[1..][1..]) == 0 && Alerts(rs[1..][1..]) == 0;
    assert Writes(rs[1..]) == 0 && Alerts(rs[1..]) == 0;
  }

  /** After an acceptance the run has read, then written the candidate, and nothing else. */
  lemma DecideAccepts(pid: int, job: PredictionJob, candidate: Frame, fallback: Frame)
    ensures Decide(job, Success(true), candidate, fallback).0 == Success(candidate)
    ensures Fetches(pid, job) + Decide(job, Success(true), candidate, fallback).1 == Reads(pid, job) + [WriteCoefs(candidate)]
    ensures Writes(Reads(pid, job) + [WriteCoefs(candidate)]) == 1
    ensures Alerts(Reads(pid, job) + [WriteCoefs(candidate)]) == 0
  {
    var write := WriteCoefs(candidate);
    assert Fetches(pid, job) + [GetMeanCoefs(job.id), write] == Reads(pid, job) + [write];
    NoEffectsInReads(pid, job);
    CountsAppend(Reads(pid, job), [write]);
  }

  /** After a rejection the run has read, alerted with the candidate and fetched the last coefficients. */
  lemma DecideRejects(pid: int, job: PredictionJob, candidate: Frame, fallback: Frame)
    ensures Decide(job, Success(false), candidate, fallback).0 == Success(fallback)
    ensures Fetches(pid, job) + Decide(job, Success(false), candidate, fallback).1 ==
      Reads(pid, job) + [PostTeamsAlert(job.id, candidate), GetLastCoefs(job.id)]
    ensures Writes(Reads(pid, job) + [PostTeamsAlert(job.id, candidate), GetLastCoefs(job.id)]) == 0
    ensures Alerts(Reads(pid, job) + [PostTeamsAlert(job.id, candidate), GetLastCoefs(job.id)]) == 1
  {
    var alert := PostTeamsAlert(job.id, candidate);
    var after := [alert, GetLastCoefs(job.id)];
    assert Fetches(pid, job) + [GetMeanCoefs(job.id), alert, GetLastCoefs(job.id)] == Reads(pid, job) + after;
    NoEffectsInReads(pid, job);
    assert after[1..] == [GetLastCoefs(job.id)] && after[1..][1..] == [];
    assert Writes(after[1..]) == 0 && Alerts(after[1..]) == 0;
    assert Writes(after) == 0 && Alerts(after) == 1;
    CountsAppend(Reads(pid, job), after);
  }

  /**
   * Accepted coefficients: exactly one write, of the frame that is
   * returned, made last, and no alert.
   */
  lemma AcceptedRunWrites(pid: int, store: Store, fit: Fitter, createdAt: Timestamp, fallbackCreatedAt: Timestamp)
    requires WellShaped(store.input) && store.meanCoefs.Valid() && store.lastCoefs.Valid()
    requires Split(store.input, true, fit).Success? && store.input.columns[0] == LoadLabel
    requires Verdict(CandidateCoefs(store, fit), store.meanCoefs) == Success(true)
    ensures SplitEnergyRun(pid, store, fit, createdAt, fallbackCreatedAt).0 == Success(Candidate(store, fit, createdAt))
    ensures Writes(SplitEnergyRun(pid, store, fit, createdAt, fallbackCreatedAt).1) == 1
    ensures Alerts(SplitEnergyRun(pid, store, fit, createdAt, fallbackCreatedAt).1) == 0
    ensures SplitEnergyRun(pid, store, fit, createdAt, fallbackCreatedAt).1 ==
      Reads(pid, store.job) + [WriteCoefs(Candidate(store, fit, createdAt))]
  {
    SplitShape(store.input, true, fit);
    DecideAccepts(pid, store.job, Candidate(store, fit, createdAt), Fallback(store, fit, fallbackCreatedAt));
  }

  /**
   * Rejected coefficients: exactly one alert, carrying the rejected
   * candidate, no write, and the last stored coefficients, reformatted, are
   * returned.
   */
  lemma RejectedRunAlerts(pid: int, store: Store, fit: Fitter, createdAt: Timestamp, fallbackCreatedAt: Timestamp)
    requires WellShaped(store.input) && store.meanCoefs.Valid() && store.lastCoefs.Valid()
    requires Split(store.input, true, fit).Success? && store.input.columns[0] == LoadLabel
    requires Verdict(CandidateCoefs(store, fit), store.meanCoefs) == Success(false)
    ensures SplitEnergyRun(pid, store, fit, createdAt, fallbackCreatedAt).0 == Success(Fallback(store, fit, fallbackCreatedAt))
    ensures Writes(SplitEnergyRun(pid, store, fit, createdAt, fallbackCreatedAt).1) == 0
    ensures Alerts(SplitEnergyRun(pid, store, fit, createdAt, fallbackCreatedAt).1) == 1
    ensures SplitEnergyRun(pid, store, fit, createdAt, fallbackCreatedAt).1 ==
      Reads(pid, store.job) + [PostTeamsAlert(store.job.id, Candidate(store, fit, createdAt)), GetLastCoefs(store.job.id)]
  {
    SplitShape(store.input, true, fit);
    DecideRejects(pid, store.job, Candidate(store, fit, createdAt), Fallback(store, fit, fallbackCreatedAt));
  }

  /**
   * A run writes exactly when the split succeeds, the load column is named
   * `load`, and the candidate, MAE included, passes validation; otherwise
   * nothing is written.
   */
  lemma WritesIffAccepted(pid: int, store: Store, fit: Fitter, createdAt: Timestamp, fallbackCreatedAt: Timestamp)
    requires WellShaped(store.input) && store.meanCoefs.Valid() && store.lastCoefs.Valid()
    ensures
      var trace := SplitEnergyRun(pid, store, fit, createdAt, fallbackCreatedAt).1;
      Writes(trace) == (if Split(store.input, true, fit).Success? && store.input.columns[0] == LoadLabel &&
                           Verdict(CandidateCoefs(store, fit), store.meanCoefs) == Success(true) then 1 else 0)
  {
    var trace := SplitEnergyRun(pid, store, fit, createdAt, fallbackCreatedAt).1;
    if Split(store.input, true, fit).Success? && store.input.columns[0] != LoadLabel {
      UnnamedLoadStops(pid, store, fit, createdAt, fallbackCreatedAt);
      assert trace[1..][1..] == [];
      assert Writes(trace[1..]) == 0;
    } else if Split(store.input, true, fit).Success? {
      match Verdict(CandidateCoefs(store, fit), store.meanCoefs)
      case Failure(_) =>
        NoEffectsInReads(pid, store.job);
      case Success(valid) =>
        if valid {
          AcceptedRunWrites(pid, store, fit, createdAt, fallbackCreatedAt);
        } else {
          RejectedRunAlerts(pid, store, fit, createdAt, fallbackCreatedAt);
        }
    } else {
      assert trace[1..][1..] == [];
      assert Writes(trace[1..]) == 0;
    }
  }

  /** A run whose split fails calls nothing after fetching the input. */
  lemma SplitFailureStops(pid: int, store: Store, fit: Fitter, createdAt: Timestamp, fallbackCreatedAt: Timestamp)
    requires WellShaped(store.input) && store.meanCoefs.Valid() && store.lastCoefs.Valid()
    requires Split(store.input, true, fit).Failure?
    ensures SplitEnergyRun(pid, store, fit, createdAt, fallbackCreatedAt) ==
      (Failure(SplitFailed(Split(store.input, true, fit).error)),
       [GetPredictionJob(pid), GetInputEnergySplitting(store.job.id)])
  {
    assert Fetches(pid, store.job) + [] == Fetches(pid, store.job);
  }

  /**
   * A split whose input does not name its first column `load` ends the run at
   * the MAE with a KeyError, after the two reads: nothing is validated,
   * written or posted.
   */
  lemma UnnamedLoadStops(pid: int, store: Store, fit: Fitter, createdAt: Timestamp, fallbackCreatedAt: Timestamp)
    requires WellShaped(store.input) && store.meanCoefs.Valid() && store.lastCoefs.Valid()
    requires Split(store.input, true, fit).Success? && store.input.columns[0] != LoadLabel
    ensures SplitEnergyRun(pid, store, fit, createdAt, fallbackCreatedAt) ==
      (Failure(MissingLoadColumn(store.input.columns[0])),
       [GetPredictionJob(pid), GetInputEnergySplitting(store.job.id)])
  {
    SplitShape(store.input, true, fit);
    assert Fetches(pid, store.job) + [] == Fetches(pid, store.job);
  }

  /**
   * The MAE takes part in validation: when the historical means hold an
   * "MAE" entry, a candidate whose fitted weights are all in range is still
   * rejected if its MAE drifts.
   */
  lemma {:induction false} MaeIsValidated(coefdict: Dict, mae: real, meanCoefs: Dict)
    requires coefdict.Valid() && meanCoefs.Valid()
    requires MaeKey in meanCoefs.keys
    requires forall k :: k in meanCoefs.keys ==> k in WithMae(coefdict, mae).keys
    requires !WithinDrift(meanCoefs.vals[MaeKey], mae)
    ensures Verdict(WithMae(coefdict, mae), meanCoefs) == Success(false)
  {
    var d := WithMae(coefdict, mae);
    AcceptedIffNoKeyDrifts(d, meanCoefs);
    assert d.vals[MaeKey] == mae;
  }
}
