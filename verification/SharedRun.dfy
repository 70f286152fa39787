/**
 One physical run under the wide policy, whose detections, templates and pair results a narrower
 policy takes over wherever an image is eligible under it in its own right.
 */
module SharedRun {
  import opened Results
  import opened ScalePolicy

  type Alias = string
  type PairId = string
  type Points = seq<(real, real)>

  datatype Template = Template(points: Points, descriptors: seq<seq<real>>)

  datatype Cause = Scaling(reason: Reason) | Exception(name: string)

  datatype Failure = Failure(cause: Cause, stage: string)

  /** The third-party stages, taken as deterministic. */
  datatype Engine = Engine(
    detect: (Alias, Option<real>) -> Result<Points, Failure>,
    describe: (Alias, Points) -> Result<seq<seq<real>>, string>,
    score: (Template, Template) -> Result<real, string>,
    correspond: (Template, Template) -> Option<string>)

  datatype Detection = Detection(alias: Alias, scale: Policy, outcome: Result<Points, Failure>, shared: bool)

  datatype Description = Description(alias: Alias, outcome: Result<Template, Failure>, pores: Option<nat>, shared: bool)

  datatype Pair = Pair(id: PairId, left: Alias, right: Alias)

  datatype Side = Left | Right

  datatype PairReason = ExtractionFailure | Matching(name: string)

  /** A pair's result; it succeeded exactly when it has a score. */
  datatype PairResult = PairResult(pair: Pair, score: Option<real>, reason: Option<PairReason>,
                                   failures: map<Side, Cause>, shared: bool)

  datatype Refusal = ScalesDiffer | TemplatesDiffer | FileExists | MissingFile

  // ---- the stages, as one policy alone would run them ----

  function Detect(engine: Engine, alias: Alias, policy: Policy): Detection {
    var outcome :=
      if policy.Eligible() then engine.detect(alias, policy.factor)
      else Err(Failure(Scaling(policy.reason.value), "preprocessing"));
    Detection(alias, policy, outcome, false)
  }

  function Describe(engine: Engine, d: Detection): Description {
    match d.outcome
    case Err(f) => Description(d.alias, Err(f), None, false)
    case Ok(points) =>
      match engine.describe(d.alias, points)
      case Err(name) => Description(d.alias, Err(Failure(Exception(name), "description")), Some(|points|), false)
      case Ok(descriptors) => Description(d.alias, Ok(Template(points, descriptors)), Some(|points|), false)
  }

  function Failures(left: Description, right: Description): map<Side, Cause> {
    (if left.outcome.Err? then map[Left := left.outcome.error.cause] else map[])
    + (if right.outcome.Err? then map[Right := right.outcome.error.cause] else map[])
  }

  /** An example pair also gets its correspondences listed; when that raises, the score stays and a reason joins it. */
  function Match(engine: Engine, examples: set<PairId>, pair: Pair, left: Description, right: Description): PairResult {
    if left.outcome.Err? || right.outcome.Err? then
      PairResult(pair, None, Some(ExtractionFailure), Failures(left, right), false)
    else
      var a, b := left.outcome.value, right.outcome.value;
      match engine.score(a, b)
      case Err(name) => PairResult(pair, None, Some(Matching(name)), map[], false)
      case Ok(score) =>
        var listing := if pair.id in examples then engine.correspond(a, b) else None;
        PairResult(pair, Some(score), if listing.Some? then Some(Matching(listing.value)) else None, map[], false)
  }

  // ---- what a stage must leave, said of each record and the engine alone ----

  /** Detection on the image as the policy scales it, or the policy's own reason before anything ran. */
  ghost predicate DetectionFits(engine: Engine, alias: Alias, policy: Policy, d: Detection) {
    && d.alias == alias && d.scale == policy
    && (policy.reason.None? ==> d.outcome == engine.detect(alias, policy.factor))
    && (policy.reason.Some? ==>
          d.outcome.Err? && d.outcome.error.cause == Scaling(policy.reason.value)
          && d.outcome.error.stage == "preprocessing")
  }

  /** A detection's failure is handed on; its points are described, and counted whether or not that succeeds. */
  ghost predicate DescriptionFits(engine: Engine, d: Detection, t: Description) {
    && t.alias == d.alias
    && (d.outcome.Err? ==> t.outcome.Err? && t.outcome.error == d.outcome.error && t.pores.None?)
    && (d.outcome.Ok? ==> t.pores == Some(|d.outcome.value|) && Describes(engine, d.alias, d.outcome.value, t.outcome))
  }

  ghost predicate Describes(engine: Engine, alias: Alias, points: Points, outcome: Result<Template, Failure>) {
    var described := engine.describe(alias, points);
    && (outcome.Ok? <==> described.Ok?)
    && (outcome.Ok? ==> outcome.value.points == points && outcome.value.descriptors == described.value)
    && (outcome.Err? ==> outcome.error.cause == Exception(described.error) && outcome.error.stage == "description")
  }

  /** A side is listed exactly when its own description failed, and with that description's cause. */
  ghost predicate SideListed(result: PairResult, side: Side, d: Description) {
    && (side in result.failures <==> d.outcome.Err?)
    && (d.outcome.Err? ==> result.failures[side] == d.outcome.error.cause)
  }

  /** The score of two templates, and what raised if anything did. */
  ghost predicate ScoreFits(engine: Engine, listed: bool, a: Template, b: Template, result: PairResult) {
    var scored, listing := engine.score(a, b), engine.correspond(a, b);
    && (result.score.Some? <==> scored.Ok?) && (scored.Ok? ==> result.score.value == scored.value)
    && (scored.Err? ==> result.reason == Some(Matching(scored.error)))
    && (scored.Ok? && listed && listing.Some? ==> result.reason == Some(Matching(listing.value)))
    && (scored.Ok? && !(listed && listing.Some?) ==> result.reason.None?)
  }

  /** A pair's result by its two descriptions. */
  ghost predicate ResultFits(engine: Engine, examples: set<PairId>, pair: Pair, left: Description, right: Description,
                             result: PairResult)
  {
    && result.pair == pair && SideListed(result, Left, left) && SideListed(result, Right, right)
    && (left.outcome.Err? || right.outcome.Err? ==> result.score.None? && result.reason == Some(ExtractionFailure))
    && (left.outcome.Ok? && right.outcome.Ok? ==>
          ScoreFits(engine, pair.id in examples, left.outcome.value, right.outcome.value, result))
  }

  lemma {:induction false} DetectFits(engine: Engine, alias: Alias, policy: Policy)
    ensures DetectionFits(engine, alias, policy, Detect(engine, alias, policy))
  {
  }

  lemma {:induction false} DescribeFits(engine: Engine, d: Detection)
    ensures DescriptionFits(engine, d, Describe(engine, d))
  {
  }

  /** Which sides failed, and why, is all a listing of failures can say. */
  lemma {:induction false} FailuresListed(left: Description, right: Description, result: PairResult)
    ensures result.failures == Failures(left, right) <==>
      SideListed(result, Left, left) && SideListed(result, Right, right)
  {
    var f := Failures(left, right);
    if SideListed(result, Left, left) && SideListed(result, Right, right) {
      forall side | side in result.failures || side in f ensures side in result.failures && side in f {
        match side
        case Left => assert Left in result.failures <==> Left in f;
        case Right => assert Right in result.failures <==> Right in f;
      }
      assert result.failures.Keys == f.Keys;
    }
  }

  /** A policy's own result is the only one its descriptions allow. */
  lemma {:induction false} MatchExactly(engine: Engine, examples: set<PairId>, pair: Pair, left: Description,
                                        right: Description, result: PairResult)
    ensures ResultFits(engine, examples, pair, left, right, result) <==>
      result.(shared := false) == Match(engine, examples, pair, left, right)
  {
    FailuresListed(left, right, result);
    FailuresListed(left, right, Match(engine, examples, pair, left, right));
  }

  // ---- what the narrower policy takes over ----

  function ShareDetection(wide: Detection, primary: Policy): Result<Detection, Refusal> {
    if !primary.Eligible() then
      Ok(Detection(wide.alias, primary, Err(Failure(Scaling(primary.reason.value), "preprocessing")), false))
    else if primary.factor != wide.scale.factor || !wide.scale.Eligible() then Err(ScalesDiffer)
    else Ok(wide.(scale := primary, shared := true))
  }

  function ShareDescription(primary: Detection, wide: Description): Description {
    match primary.outcome
    case Ok(_) => wide.(shared := true)
    case Err(f) => Description(primary.alias, Err(f), None, false)
  }

  function SharePair(pair: Pair, left: Description, right: Description, wideLeft: Description, wideRight: Description,
                     wide: PairResult): Result<PairResult, Refusal>
  {
    if left.outcome.Err? || right.outcome.Err? then
      Ok(PairResult(pair, None, Some(ExtractionFailure), Failures(left, right), false))
    else if left.outcome != wideLeft.outcome || right.outcome != wideRight.outcome then Err(TemplatesDiffer)
    else Ok(wide.(shared := true))
  }

  // ---- what sharing keeps ----

  /** Refused exactly when the policies cannot share; otherwise what the narrower policy alone would record. */
  lemma {:induction false} DetectionIsOwn(engine: Engine, alias: Alias, primary: Policy, wide: Policy)
    ensures ShareDetection(Detect(engine, alias, wide), primary).Ok? <==> Shareable(primary, wide)
    ensures var r := ShareDetection(Detect(engine, alias, wide), primary);
      r.Ok? ==> r.value.(shared := false) == Detect(engine, alias, primary)
  {
  }

  lemma {:induction false} DescriptionIsOwn(engine: Engine, alias: Alias, primary: Policy, wide: Policy)
    requires Shareable(primary, wide)
    ensures var d := ShareDetection(Detect(engine, alias, wide), primary).value;
      ShareDescription(d, Describe(engine, Detect(engine, alias, wide))).(shared := false)
        == Describe(engine, Detect(engine, alias, primary))
  {
  }

  /** An input image, its corrected scale estimate and its saved eligibility under both policies. */
  datatype Image = Image(alias: Alias, estimate: Estimate, primary: Policy, wide: Policy)

  function Wide(engine: Engine, i: Image): Description {
    Describe(engine, Detect(engine, i.alias, i.wide))
  }

  function Own(engine: Engine, i: Image): Description {
    Describe(engine, Detect(engine, i.alias, i.primary))
  }

  function Shared(engine: Engine, i: Image): Description
    requires Shareable(i.primary, i.wide)
  {
    ShareDescription(ShareDetection(Detect(engine, i.alias, i.wide), i.primary).value, Wide(engine, i))
  }

  /**
   A shared pair result is the narrower policy's own: never refused, with its own status, score,
   failing sides and reason, provided both would list the same example pairs.
   */
  lemma {:induction false} PairIsOwn(engine: Engine, examples: set<PairId>, pair: Pair, l: Image, r: Image)
    requires Shareable(l.primary, l.wide) && Shareable(r.primary, r.wide)
    ensures var wide := Match(engine, examples, pair, Wide(engine, l), Wide(engine, r));
      var s := SharePair(pair, Shared(engine, l), Shared(engine, r), Wide(engine, l), Wide(engine, r), wide);
      s.Ok? && s.value.(shared := false) == Match(engine, examples, pair, Own(engine, l), Own(engine, r))
  {
    DescriptionIsOwn(engine, l.alias, l.primary, l.wide);
    DescriptionIsOwn(engine, r.alias, r.primary, r.wide);
  }
}
