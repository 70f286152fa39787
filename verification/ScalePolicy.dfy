/** Eligibility of an image under a declared ridge scale: a target period, and a band of scale factors. */
module ScalePolicy {
  import opened Results

  /** What the estimator says of one image: a period, or none, and why it is not to be relied on. */
  datatype Estimate = Estimate(period: Option<real>, unreliable: Option<string>)

  datatype Declared = Declared(target: real, low: real, high: real)

  datatype Reason = Unreliable(code: string) | OutsideBand

  datatype Policy = Policy(declared: Declared, factor: Option<real>, reason: Option<Reason>) {
    predicate Eligible() { reason.None? }
  }

  datatype PolicyError = InvalidDeclaration | ZeroPeriod

  predicate Valid(d: Declared) {
    d.target > 0.0 && 0.0 < d.low <= d.high
  }

  /** `scale_policy`. */
  function Scale(e: Estimate, d: Declared): Result<Policy, PolicyError> {
    if !Valid(d) then Err(InvalidDeclaration)
    else if e.period == Some(0.0) then Err(ZeroPeriod)
    else
      var factor := if e.period.Some? then Some(d.target / e.period.value) else None;
      var reason :=
        if e.unreliable.Some? then Some(Unreliable(e.unreliable.value))
        else if factor.None? || !(d.low <= factor.value <= d.high) then Some(OutsideBand)
        else None;
      Ok(Policy(d, factor, reason))
  }

  /** One policy's work may stand for another's: the second is ineligible, or both see the same scaled image. */
  predicate Shareable(primary: Policy, wide: Policy) {
    primary.Eligible() ==> wide.Eligible() && primary.factor == wide.factor
  }

  ghost predicate Within(primary: Declared, wide: Declared) {
    primary.target == wide.target && wide.low <= primary.low && primary.high <= wide.high
  }

  /** Both policies are decided for this estimate and cannot share. */
  ghost predicate Clash(e: Estimate, primary: Declared, wide: Declared) {
    && Scale(e, primary).Ok? && Scale(e, wide).Ok?
    && !Shareable(Scale(e, primary).value, Scale(e, wide).value)
  }

  lemma {:induction false} Multiplied(a: real, b: real)
    requires b != 0.0
    ensures a / b * b == a
  {
  }

  /** Decided for every sound declaration and every period but nought; the factor takes the period to the target. */
  lemma {:induction false} DecidedExactlyWhen(e: Estimate, d: Declared)
    ensures Scale(e, d).Ok? <==> d.target > 0.0 && 0.0 < d.low <= d.high && e.period != Some(0.0)
    ensures Scale(e, d).Ok? ==> var policy := Scale(e, d).value;
      && policy.declared == d && (policy.factor.Some? <==> e.period.Some?)
      && (e.period.Some? ==> policy.factor.value * e.period.value == d.target)
      && (e.unreliable.Some? ==> policy.reason == Some(Unreliable(e.unreliable.value)))
      && (e.unreliable.None? && !policy.Eligible() ==> policy.reason == Some(OutsideBand))
  {
    if Scale(e, d).Ok? && e.period.Some? {
      Multiplied(d.target, e.period.value);
    }
  }

  /** Eligible exactly when a reliable period brings the target inside the band, said without dividing. */
  lemma {:induction false} EligibleExactlyWhen(e: Estimate, d: Declared)
    requires Scale(e, d).Ok?
    ensures Scale(e, d).value.Eligible() <==>
      && e.unreliable.None? && e.period.Some?
      && d.low * e.period.value <= d.target <= d.high * e.period.value
  {
  }

  /** The period that scales to a given factor. */
  lemma {:induction false} PeriodOf(target: real, factor: real) returns (period: real)
    requires target > 0.0 && factor > 0.0
    ensures period > 0.0 && target / period == factor
  {
    period := target / factor;
    Multiplied(target, factor);
    Multiplied(target, period);
    assert factor * period == target;
  }

  lemma {:induction false} DifferentTargets(a: real, b: real, period: real)
    requires period > 0.0 && a / period == b / period
    ensures a == b
  {
  }

  lemma {:induction false} EdgeClashes(primary: Declared, wide: Declared, factor: real) returns (e: Estimate)
    requires Valid(primary) && Valid(wide) && primary.low <= factor <= primary.high
    requires primary.target != wide.target || !(wide.low <= factor <= wide.high)
    ensures Clash(e, primary, wide)
  {
    var period := PeriodOf(primary.target, factor);
    e := Estimate(Some(period), None);
    if primary.target != wide.target && wide.target / period == factor {
      DifferentTargets(primary.target, wide.target, period);
    }
  }

  /** Sharing is possible on every image exactly when the targets agree and one band lies inside the other. */
  lemma {:induction false} ShareableIffWithin(primary: Declared, wide: Declared)
    requires Valid(primary) && Valid(wide)
    ensures (forall e :: !Clash(e, primary, wide)) <==> Within(primary, wide)
  {
    if !Within(primary, wide) {
      var factor := if primary.target != wide.target || primary.low < wide.low then primary.low else primary.high;
      var e := EdgeClashes(primary, wide, factor);
    }
  }
}
