/**
 * The drift check on freshly fitted energy-split coefficients
 * (`are_new_coefs_valid`): every key of the historical mean map is looked up
 * in the new map, in the mean map's key order, and the first key whose new
 * value deviates from its mean by more than 30% of |mean| makes the whole set
 * invalid. A mean key that the new map lacks raises a KeyError.
 */
module CoefValidator {
  import opened Wrappers
  import opened OrderedDict
  import opened Numeric

  /** `COEF_MAX_PCT_DIFF`: the largest accepted deviation, as a fraction of |mean|. */
  const MaxPctDiff: real := 0.3

  /** The lookup `new_coefs[key]` failed. */
  datatype KeyError = KeyError(key: Name)

  /**
   * The per-key test, read as "not rejected": the comparison with the
   * threshold is a strict `>`, so a deviation of exactly 30% passes, and a
   * zero mean leaves no room for any nonzero new value.
   */
  predicate WithinDrift(mean: real, candidate: real)
    ensures WithinDrift(mean, candidate) <==> Abs(mean - candidate) <= MaxPctDiff * Abs(mean)
    ensures mean == 0.0 ==> (WithinDrift(mean, candidate) <==> candidate == 0.0)
    ensures candidate == mean + MaxPctDiff * Abs(mean) ==> WithinDrift(mean, candidate)
    ensures candidate == mean - MaxPctDiff * Abs(mean) ==> WithinDrift(mean, candidate)
  {
    !(Abs(mean - candidate) > MaxPctDiff * Abs(mean))
  }

  /** The outcome of the loop when it starts at key position `from` of `meanCoefs`. */
  function VerdictFrom(newCoefs: Dict, meanCoefs: Dict, from: nat): Result<bool, KeyError>
    requires newCoefs.Valid() && meanCoefs.Valid() && from <= |meanCoefs.keys|
    decreases |meanCoefs.keys| - from
  {
    if from == |meanCoefs.keys| then Success(true)
    else
      var key := meanCoefs.keys[from];
      match newCoefs.Get(key)
      case None => Failure(KeyError(key))
      case Some(n) =>
        if !WithinDrift(meanCoefs.vals[key], n) then Success(false)
        else VerdictFrom(newCoefs, meanCoefs, from + 1)
  }

  /** What `are_new_coefs_valid(new_coefs, mean_coefs)` returns or raises. */
  function Verdict(newCoefs: Dict, meanCoefs: Dict): Result<bool, KeyError>
    requires newCoefs.Valid() && meanCoefs.Valid()
  {
    VerdictFrom(newCoefs, meanCoefs, 0)
  }

  /** The loop over `mean_coefs.keys()` with its early `return False`. */
  method AreNewCoefsValid(newCoefs: Dict, meanCoefs: Dict) returns (r: Result<bool, KeyError>)
    requires newCoefs.Valid() && meanCoefs.Valid()
    ensures r == Verdict(newCoefs, meanCoefs)
  {
    var i := 0;
    while i < |meanCoefs.keys|
      invariant 0 <= i <= |meanCoefs.keys|
      invariant Verdict(newCoefs, meanCoefs) == VerdictFrom(newCoefs, meanCoefs, i)
    {
      var key := meanCoefs.keys[i];
      var n := newCoefs.Get(key);
      if n.None? {
        return Failure(KeyError(key));
      }
      var diff := Abs(meanCoefs.vals[key] - n.value);
      if diff > MaxPctDiff * Abs(meanCoefs.vals[key]) {
        return Success(false);
      }
      i := i + 1;
    }
    return Success(true);
  }

  /** No history: the loop body never runs and the coefficients are accepted. */
  lemma BootstrapAccepts(newCoefs: Dict, meanCoefs: Dict)
    requires newCoefs.Valid() && meanCoefs.Valid()
    requires meanCoefs.Size() == 0
    ensures Verdict(newCoefs, meanCoefs) == Success(true)
  {
  }

  lemma {:induction false} VerdictFromKeysPresent(newCoefs: Dict, meanCoefs: Dict, from: nat)
    requires newCoefs.Valid() && meanCoefs.Valid() && from <= |meanCoefs.keys|
    requires forall k :: k in meanCoefs.keys ==> k in newCoefs.keys
    ensures VerdictFrom(newCoefs, meanCoefs, from) == Success(
      forall i :: from <= i < |meanCoefs.keys| ==>
        WithinDrift(meanCoefs.vals[meanCoefs.keys[i]], newCoefs.vals[meanCoefs.keys[i]]))
    decreases |meanCoefs.keys| - from
  {
    if from < |meanCoefs.keys| {
      VerdictFromKeysPresent(newCoefs, meanCoefs, from + 1);
    }
  }

  /**
   * When every historical key is present in the new map, the verdict is
   * "valid" exactly when every historical key passes the drift test, i.e. it
   * is "invalid" exactly when some key has |mean - new| > 0.3 |mean|.
   */
  lemma AcceptedIffNoKeyDrifts(newCoefs: Dict, meanCoefs: Dict)
    requires newCoefs.Valid() && meanCoefs.Valid()
    requires forall k :: k in meanCoefs.keys ==> k in newCoefs.keys
    ensures Verdict(newCoefs, meanCoefs).Success?
    ensures Verdict(newCoefs, meanCoefs).value <==>
      forall k :: k in meanCoefs.keys ==> WithinDrift(meanCoefs.vals[k], newCoefs.vals[k])
  {
    VerdictFromKeysPresent(newCoefs, meanCoefs, 0);
  }

  lemma {:induction false} VerdictFromError(newCoefs: Dict, meanCoefs: Dict, from: nat)
    requires newCoefs.Valid() && meanCoefs.Valid() && from <= |meanCoefs.keys|
    ensures VerdictFrom(newCoefs, meanCoefs, from).Failure? ==>
      var k := VerdictFrom(newCoefs, meanCoefs, from).error.key;
      k in meanCoefs.keys[from..] && k !in newCoefs.keys
    ensures
      (exists i :: from <= i < |meanCoefs.keys| && meanCoefs.keys[i] !in newCoefs.keys) &&
      (forall k :: k in meanCoefs.keys && k in newCoefs.keys ==>
        WithinDrift(meanCoefs.vals[k], newCoefs.vals[k]))
      ==> VerdictFrom(newCoefs, meanCoefs, from).Failure?
    decreases |meanCoefs.keys| - from
  {
    if from < |meanCoefs.keys| {
      VerdictFromError(newCoefs, meanCoefs, from + 1);
      var key := meanCoefs.keys[from];
      if key in newCoefs.keys && exists i :: from <= i < |meanCoefs.keys| && meanCoefs.keys[i] !in newCoefs.keys {
        var i :| from <= i < |meanCoefs.keys| && meanCoefs.keys[i] !in newCoefs.keys;
        assert i != from;
      }
    }
  }

  /**
   * A KeyError names a historical key that the new map lacks; and when some
   * historical key is missing while no present key drifts, the KeyError is
   * what the check ends in.
   */
  lemma MissingKeyRaises(newCoefs: Dict, meanCoefs: Dict)
    requires newCoefs.Valid() && meanCoefs.Valid()
    ensures Verdict(newCoefs, meanCoefs).Failure? ==>
      Verdict(newCoefs, meanCoefs).error.key in meanCoefs.keys &&
      Verdict(newCoefs, meanCoefs).error.key !in newCoefs.keys
    ensures
      (exists k :: k in meanCoefs.keys && k !in newCoefs.keys) &&
      (forall k :: k in meanCoefs.keys && k in newCoefs.keys ==>
        WithinDrift(meanCoefs.vals[k], newCoefs.vals[k]))
      ==> Verdict(newCoefs, meanCoefs).Failure?
  {
    VerdictFromError(newCoefs, meanCoefs, 0);
    assert meanCoefs.keys[0..] == meanCoefs.keys;
  }

  lemma {:induction false} VerdictFromOnlyMeanKeys(new1: Dict, new2: Dict, meanCoefs: Dict, from: nat)
    requires new1.Valid() && new2.Valid() && meanCoefs.Valid() && from <= |meanCoefs.keys|
    requires forall k :: k in meanCoefs.keys ==> new1.Get(k) == new2.Get(k)
    ensures VerdictFrom(new1, meanCoefs, from) == VerdictFrom(new2, meanCoefs, from)
    decreases |meanCoefs.keys| - from
  {
    if from < |meanCoefs.keys| {
      VerdictFromOnlyMeanKeys(new1, new2, meanCoefs, from + 1);
    }
  }

  /** Keys that occur only in the new map play no part in the verdict. */
  lemma OnlyMeanKeysMatter(new1: Dict, new2: Dict, meanCoefs: Dict)
    requires new1.Valid() && new2.Valid() && meanCoefs.Valid()
    requires forall k :: k in meanCoefs.keys ==> new1.Get(k) == new2.Get(k)
    ensures Verdict(new1, meanCoefs) == Verdict(new2, meanCoefs)
  {
    VerdictFromOnlyMeanKeys(new1, new2, meanCoefs, 0);
  }

  /** The boundary case: mean 10, new 13 passes; new 13.01 fails. */
  lemma BoundaryExample()
    ensures Verdict(Ordered(["a"], map["a" := 13.0]), Ordered(["a"], map["a" := 10.0])) == Success(true)
    ensures Verdict(Ordered(["a"], map["a" := 13.01]), Ordered(["a"], map["a" := 10.0])) == Success(false)
  {
    var mean := Ordered(["a"], map["a" := 10.0]);
    assert mean.Valid();
    assert Ordered(["a"], map["a" := 13.0]).Valid();
    assert Ordered(["a"], map["a" := 13.01]).Valid();
  }
}
