/**
 * The energy split itself (`find_components`): the load column of the input
 * table is fitted as a weighted sum of the reference columns that follow it
 * (wind, solar, then any number of standard load profiles); weights below the
 * noise floor are set to zero; the estimate, a baseline built from the
 * initial guess, and the wind, solar and standard-usage components are
 * rebuilt from the weights.
 *
 * The least-squares solver (`scipy.optimize.curve_fit`) is the parameter
 * `fit`: any function from (reference columns, load, initial guess, bounds)
 * to a weight vector, or to None when the solver raises.
 */
module ComponentSplitter {
  import opened Wrappers
  import opened OrderedDict
  import opened Numeric

  /** Fitted weights below this value are treated as noise. */
  const NoiseFloor: real := 0.1

  /**
   * The input frame, column by column: `data[c]` holds column `columns[c]`,
   * one value per timestamp of `index`. Column 0 is the load, column 1 the
   * wind reference, column 2 the solar reference, the rest standard profiles.
   */
  datatype InputTable = InputTable(index: seq<int>, columns: seq<Name>, data: seq<seq<real>>)

  /** A data frame is rectangular: one name per column, one value per timestamp in each column. */
  ghost predicate WellShaped(df: InputTable) {
    && |df.columns| == |df.data|
    && forall c :: 0 <= c < |df.data| ==> |df.data[c]| == |df.index|
  }

  /** The bounds handed to the solver: `(0, inf)` or `(-inf, inf)`. */
  datatype Bounds = NonNegative | Unbounded

  function BoundsFor(zeroBound: bool): (b: Bounds)
    ensures b == NonNegative <==> zeroBound
  {
    if zeroBound then NonNegative else Unbounded
  }

  /** `curve_fit(weighted_sum, xdata, ydata, p0, bounds)`: the fitted weights, or None when it raises. */
  type Fitter = (seq<seq<real>>, seq<real>, seq<real>, Bounds) -> Option<seq<real>>

  datatype SplitError =
    | TooFewColumns   // `df.iloc[:, 1]` or `df.iloc[:, 2]` does not exist
    | FitFailed       // the solver raised (no convergence, or no data)
    | LengthMismatch  // `weighted_sum` raised: as many weights as reference columns are needed

  /** Sample `t` of every reference column: row `t` of `xdata.T`. */
  function Sample(x: seq<seq<real>>, t: nat): (v: seq<real>)
    requires forall i :: 0 <= i < |x| ==> t < |x[i]|
    ensures |v| == |x| && forall i :: 0 <= i < |x| ==> v[i] == x[i][t]
  {
    seq(|x|, i requires 0 <= i < |x| && t < |x[i]| => x[i][t])
  }

  /** Elementwise product. */
  function Times(a: seq<real>, w: seq<real>): (p: seq<real>)
    requires |a| == |w|
    ensures |p| == |a| && forall i :: 0 <= i < |a| ==> p[i] == a[i] * w[i]
  {
    seq(|a|, i requires 0 <= i < |a| && |a| == |w| => a[i] * w[i])
  }

  /** `np.dot(a, w)` */
  function Dot(a: seq<real>, w: seq<real>): real
    requires |a| == |w|
  {
    Sum(Times(a, w))
  }

  /**
   * `weighted_sum(x, *w)`: raises unless there is one weight per reference
   * column; otherwise each sample is the weighted sum of the reference
   * columns at that timestamp.
   */
  function WeightedSum(x: seq<seq<real>>, n: nat, w: seq<real>): (r: Result<seq<real>, SplitError>)
    requires forall i :: 0 <= i < |x| ==> |x[i]| == n
    ensures r.Failure? <==> |x| != |w|
    ensures r.Failure? ==> r.error == LengthMismatch
    ensures r.Success? ==> |r.value| == n
    ensures r.Success? ==> forall t :: 0 <= t < n ==> r.value[t] == Dot(Sample(x, t), w)
  {
    if |x| != |w| then Failure(LengthMismatch)
    else Success(seq(n, t requires 0 <= t < n => Dot(Sample(x, t), w)))
  }

  /** Splitting a weighted sum of at least two columns into its first two terms and the rest. */
  lemma DotFirstTwo(a: seq<real>, w: seq<real>)
    requires |a| == |w| >= 2
    ensures Dot(a, w) == a[0] * w[0] + a[1] * w[1] + Dot(a[2..], w[2..])
  {
    var p := Times(a, w);
    forall i | 0 <= i < |a| - 2 ensures p[2..][i] == Times(a[2..], w[2..])[i] {
    }
    assert p[2..] == Times(a[2..], w[2..]);
    assert p[1..][1..] == p[2..];
    assert Sum(p) == p[0] + Sum(p[1..]);
    assert Sum(p[1..]) == p[1] + Sum(p[1..][1..]);
  }

  /**
   * The initial guess `p0`: weight 1 for wind and for solar, and a tenth of
   * the load's range for every standard profile. It lies within the
   * non-negative bounds.
   */
  function InitialGuess(load: seq<real>, numColumns: nat): (p0: seq<real>)
    requires |load| > 0 && numColumns >= 3
    ensures |p0| == numColumns - 1
    ensures p0[0] == 1.0 && p0[1] == 1.0
    ensures forall i :: 2 <= i < |p0| ==> p0[i] == (MaxOf(load) - MinOf(load)) / 10.0
    ensures forall i :: 0 <= i < |p0| ==> p0[i] >= 0.0
  {
    var scaler := (MaxOf(load) - MinOf(load)) / 10.0;
    [1.0, 1.0] + seq(numColumns - 3, _ => scaler)
  }

  /**
   * `coefs[coefs < 0.1] = 0`. The test is signed: every weight below 0.1,
   * negative ones included, becomes 0 and every other weight is kept, so
   * each resulting weight is 0 or at least 0.1; clamping twice changes
   * nothing.
   */
  function Clamped(s: seq<real>): (c: seq<real>)
    ensures |c| == |s|
    ensures forall i :: 0 <= i < |s| ==> (s[i] < NoiseFloor ==> c[i] == 0.0)
    ensures forall i :: 0 <= i < |s| ==> (s[i] >= NoiseFloor ==> c[i] == s[i])
    ensures forall i :: 0 <= i < |s| ==> c[i] == 0.0 || c[i] >= NoiseFloor
  {
    seq(|s|, i requires 0 <= i < |s| => if s[i] < NoiseFloor then 0.0 else s[i])
  }

  lemma ClampedIdempotent(s: seq<real>)
    ensures Clamped(Clamped(s)) == Clamped(s)
  {
  }

  /** The clamp of line 173, done in place on the weight array. */
  method ClampNoise(a: array<real>)
    modifies a
    ensures a[..] == Clamped(old(a[..]))
  {
    for i := 0 to a.Length
      invariant forall k :: 0 <= k < i ==> a[k] == Clamped(old(a[..]))[k]
      invariant forall k :: i <= k < a.Length ==> a[k] == old(a[k])
    {
      if a[i] < NoiseFloor {
        a[i] := 0.0;
      }
    }
  }

  /**
   * The returned frame, one value per timestamp in each column: the load,
   * `Inschatting` (estimate), `p0` (baseline from the initial guess),
   * `Windopwek`, `Zonne-opwek`, `StandaardVerbruik` and `Residu`.
   */
  datatype Components = Components(
    loadName: Name,   // the label of the first column, copied from the input
    load: seq<real>, estimate: seq<real>, baseline: seq<real>,
    wind: seq<real>, solar: seq<real>, standard: seq<real>, residual: seq<real>)

  /**
   * The columns of lines 180-186, from the input, the final weights and the
   * two reconstructions. `Residu` is `-1 *` the row difference of
   * `[load, Inschatting]`, i.e. load minus estimate.
   */
  function BuildComponents(df: InputTable, coefs: seq<real>, hist: seq<real>, histp0: seq<real>): (c: Components)
    requires WellShaped(df) && |df.data| >= 3 && |coefs| == |df.data| - 1
    requires |hist| == |df.index| && |histp0| == |df.index|
  {
    var n := |df.index|;
    var load := df.data[0];
    var rest := df.data[3..];
    Components(
      df.columns[0], load, hist, histp0,
      seq(n, t requires 0 <= t < n => df.data[1][t] * coefs[0]),
      seq(n, t requires 0 <= t < n => df.data[2][t] * coefs[1]),
      seq(n, t requires 0 <= t < n => Sum(Times(Sample(rest, t), coefs[2..]))),
      seq(n, t requires 0 <= t < n => -1.0 * (hist[t] - load[t])))
  }

  /**
   * Lines 176-189, once the weights are known: the estimate and the
   * baseline (the latter never fails, since the initial guess has one weight
   * per reference column), the component columns, and the dict zipping the
   * column names after the load with the weights.
   */
  function Reconstruct(df: InputTable, coefs: seq<real>): Result<(Components, Dict), SplitError>
    requires WellShaped(df) && |df.data| >= 3 && |df.index| > 0
  {
    var x := df.data[1..];
    var n := |df.index|;
    match WeightedSum(x, n, coefs)
    case Failure(e) => Failure(e)
    case Success(hist) =>
      var histp0 := WeightedSum(x, n, InitialGuess(df.data[0], |df.columns|)).value;
      Success((BuildComponents(df, coefs, hist, histp0), FromEntries(Zip(df.columns[1..], coefs))))
  }

  /** The solver's answer for this table, when it has one. */
  function Fitted(df: InputTable, zeroBound: bool, fit: Fitter): Option<seq<real>>
    requires WellShaped(df) && |df.data| >= 3 && |df.index| > 0
  {
    fit(df.data[1..], df.data[0], InitialGuess(df.data[0], |df.columns|), BoundsFor(zeroBound))
  }

  /** What `find_components(df, zero_bound)` returns or raises, for a given solver. */
  function Split(df: InputTable, zeroBound: bool, fit: Fitter): Result<(Components, Dict), SplitError>
    requires WellShaped(df)
  {
    if |df.data| < 3 then Failure(TooFewColumns)
    else if |df.index| == 0 then Failure(FitFailed)
    else match Fitted(df, zeroBound, fit)
      case None => Failure(FitFailed)
      case Some(w) => Reconstruct(df, Clamped(w))
  }

  /** `find_components`: the clamp runs in place on a fresh weight array. */
  method FindComponents(df: InputTable, zeroBound: bool, fit: Fitter)
    returns (r: Result<(Components, Dict), SplitError>)
    requires WellShaped(df)
    ensures r == Split(df, zeroBound, fit)
  {
    if |df.data| < 3 {
      return Failure(TooFewColumns);
    }
    if |df.index| == 0 {
      return Failure(FitFailed);
    }
    var load := df.data[0];
    var x := df.data[1..];
    var n := |df.index|;
    var p0 := InitialGuess(load, |df.columns|);
    var fitted := fit(x, load, p0, BoundsFor(zeroBound));
    assert fitted == Fitted(df, zeroBound, fit);
    if fitted.None? {
      return Failure(FitFailed);
    }
    var a := new real[|fitted.value|](i requires 0 <= i < |fitted.value| => fitted.value[i]);
    assert a[..] == fitted.value;
    ClampNoise(a);
    var coefs := a[..];
    assert coefs == Clamped(fitted.value);
    var hist := WeightedSum(x, n, coefs);
    if hist.Failure? {
      return Failure(hist.error);
    }
    var histp0 := WeightedSum(x, n, p0);
    var components := BuildComponents(df, coefs, hist.value, histp0.value);
    var coefdict := FromEntries(Zip(df.columns[1..], coefs));
    return Success((components, coefdict));
  }

  /** The estimate and the baseline of the reconstruction are the two weighted sums. */
  lemma ReconstructValue(df: InputTable, coefs: seq<real>)
    requires WellShaped(df) && |df.data| >= 3 && |df.index| > 0
    ensures Reconstruct(df, coefs).Success? <==> |coefs| == |df.data| - 1
    ensures Reconstruct(df, coefs).Failure? ==> Reconstruct(df, coefs).error == LengthMismatch
    ensures Reconstruct(df, coefs).Success? ==>
      var x, n := df.data[1..], |df.index|;
      Reconstruct(df, coefs).value.0 ==
        BuildComponents(df, coefs, WeightedSum(x, n, coefs).value,
                        WeightedSum(x, n, InitialGuess(df.data[0], |df.columns|)).value)
  {
  }

  /**
   * The columns of the components frame: the estimate equals wind plus solar
   * plus standard usage, and the residual is load minus estimate.
   */
  lemma {:induction false} ComponentsAddUp(df: InputTable, coefs: seq<real>, hist: seq<real>, histp0: seq<real>)
    requires WellShaped(df) && |df.data| >= 3 && |coefs| == |df.data| - 1
    requires |hist| == |df.index| && |histp0| == |df.index|
    requires forall t :: 0 <= t < |df.index| ==> hist[t] == Dot(Sample(df.data[1..], t), coefs)
    ensures
      var c := BuildComponents(df, coefs, hist, histp0);
      var n := |df.index|;
      && c.loadName == df.columns[0] && c.load == df.data[0] && c.estimate == hist && c.baseline == histp0
      && |c.wind| == |c.solar| == |c.standard| == |c.residual| == n
      && (forall t :: 0 <= t < n ==> c.wind[t] == df.data[1][t] * coefs[0])
      && (forall t :: 0 <= t < n ==> c.solar[t] == df.data[2][t] * coefs[1])
      && (forall t :: 0 <= t < n ==> c.estimate[t] == c.wind[t] + c.solar[t] + c.standard[t])
      && (forall t :: 0 <= t < n ==> c.residual[t] == c.load[t] - c.estimate[t])
  {
    var c := BuildComponents(df, coefs, hist, histp0);
    var x := df.data[1..];
    forall t | 0 <= t < |df.index| ensures c.estimate[t] == c.wind[t] + c.solar[t] + c.standard[t] {
      var v := Sample(x, t);
      DotFirstTwo(v, coefs);
      assert v[2..] == Sample(df.data[3..], t);
    }
  }

  /**
   * When `find_components` returns, it is the reconstruction under the
   * solver's weights after the clamp, so every weight in the dict is 0 or at
   * least 0.1.
   */
  lemma SplitUsesClampedWeights(df: InputTable, zeroBound: bool, fit: Fitter)
    requires WellShaped(df)
    requires Split(df, zeroBound, fit).Success?
    ensures |df.data| >= 3 && |df.index| > 0 && Fitted(df, zeroBound, fit).Some?
    ensures Split(df, zeroBound, fit) == Reconstruct(df, Clamped(Fitted(df, zeroBound, fit).value))
    ensures forall k :: k in Split(df, zeroBound, fit).value.1.keys ==>
      var v := Split(df, zeroBound, fit).value.1.vals[k];
      v == 0.0 || v >= NoiseFloor
  {
    var coefs := Clamped(Fitted(df, zeroBound, fit).value);
    var es := Zip(df.columns[1..], coefs);
    forall k | k in FromEntries(es).keys
      ensures FromEntries(es).vals[k] == 0.0 || FromEntries(es).vals[k] >= NoiseFloor
    {
      FromEntriesValues(es, k);
    }
  }

  /**
   * The coefficient dict: with distinct column names its keys are the
   * columns after the load, in order, each mapped to its weight.
   */
  lemma ReconstructCoefdict(df: InputTable, coefs: seq<real>)
    requires WellShaped(df) && |df.data| >= 3 && |df.index| > 0
    requires Reconstruct(df, coefs).Success?
    requires forall i, j :: 0 <= i < j < |df.columns| ==> df.columns[i] != df.columns[j]
    ensures
      var d := Reconstruct(df, coefs).value.1;
      && d.keys == df.columns[1..]
      && |coefs| == |d.keys|
      && forall i :: 0 <= i < |coefs| ==> d.Get(df.columns[i + 1]) == Some(coefs[i])
  {
    ReconstructDict(df, coefs);
    ColumnsAfterLoad(df.columns, coefs);
  }

  /** The dict of a successful reconstruction zips the columns after the load with the weights. */
  lemma ReconstructDict(df: InputTable, coefs: seq<real>)
    requires WellShaped(df) && |df.data| >= 3 && |df.index| > 0
    requires Reconstruct(df, coefs).Success?
    ensures |coefs| == |df.columns| - 1
    ensures Reconstruct(df, coefs).value.1 == FromEntries(Zip(df.columns[1..], coefs))
  {
    ReconstructValue(df, coefs);
  }

  /** Zipping distinct columns after the first with one value each. */
  lemma ColumnsAfterLoad(columns: seq<Name>, coefs: seq<real>)
    requires |coefs| == |columns| - 1
    requires forall i, j :: 0 <= i < j < |columns| ==> columns[i] != columns[j]
    ensures FromEntries(Zip(columns[1..], coefs)).keys == columns[1..]
    ensures forall i :: 0 <= i < |coefs| ==> FromEntries(Zip(columns[1..], coefs)).Get(columns[i + 1]) == Some(coefs[i])
  {
    var names := columns[1..];
    assert forall i, j :: 0 <= i < j < |names| ==> names[i] != names[j] by {
      forall i, j | 0 <= i < j < |names| ensures names[i] != names[j] {
        assert names[i] == columns[i + 1] && names[j] == columns[j + 1];
      }
    }
    ZipDistinct(names, coefs);
    assert forall i :: 0 <= i < |coefs| ==> names[i] == columns[i + 1];
  }

  /** When `find_components` returns, its load and estimate have one value per timestamp. */
  lemma SplitShape(df: InputTable, zeroBound: bool, fit: Fitter)
    requires WellShaped(df)
    requires Split(df, zeroBound, fit).Success?
    ensures |df.index| > 0
    ensures Split(df, zeroBound, fit).value.0.loadName == df.columns[0]
    ensures |Split(df, zeroBound, fit).value.0.load| == |df.index|
    ensures |Split(df, zeroBound, fit).value.0.estimate| == |df.index|
  {
    SplitUsesClampedWeights(df, zeroBound, fit);
    ReconstructValue(df, Clamped(Fitted(df, zeroBound, fit).value));
  }
}
