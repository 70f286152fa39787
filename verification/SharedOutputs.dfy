/** The output directories of the shared run, filled stage by stage, and the check that reads them back. */
module SharedOutputs {
  import opened Results
  import opened ScalePolicy
  import opened SharedRun

  function Aliases(images: seq<Image>): set<Alias> {
    set i <- images :: i.alias
  }

  ghost predicate Distinct(images: seq<Image>) {
    forall i, j :: 0 <= i < j < |images| ==> images[i].alias != images[j].alias
  }

  ghost predicate DistinctPairs(pairs: seq<Pair>) {
    forall i, j :: 0 <= i < j < |pairs| ==> pairs[i].id != pairs[j].id
  }

  ghost predicate AllShareable(images: seq<Image>) {
    forall i :: 0 <= i < |images| ==> Shareable(images[i].primary, images[i].wide)
  }

  ghost predicate Prepared(images: seq<Image>, primary: Declared, wide: Declared) {
    forall k :: 0 <= k < |images| ==>
      && Scale(images[k].estimate, primary) == Ok(images[k].primary)
      && Scale(images[k].estimate, wide) == Ok(images[k].wide)
  }

  predicate KeepsDetection(engine: Engine, i: Image, wide: Detection, own: Detection) {
    wide == Detect(engine, i.alias, i.wide) && Ok(own) == ShareDetection(wide, i.primary)
  }

  predicate DetectionKept(engine: Engine, i: Image, wide: map<Alias, Detection>, own: map<Alias, Detection>) {
    i.alias in wide && i.alias in own && KeepsDetection(engine, i, wide[i.alias], own[i.alias])
  }

  ghost predicate Detected(engine: Engine, images: seq<Image>, wide: map<Alias, Detection>, own: map<Alias, Detection>)
  {
    && wide.Keys == own.Keys == Aliases(images)
    && forall k :: 0 <= k < |images| ==>
         DetectionKept(engine, images[k], wide, own)
  }

  predicate KeepsDescription(engine: Engine, i: Image, wide: Description, own: Description) {
    && wide == Wide(engine, i)
    && Shareable(i.primary, i.wide)
    && own == Shared(engine, i)
  }

  predicate DescriptionKept(engine: Engine, i: Image, wide: map<Alias, Description>, own: map<Alias, Description>) {
    i.alias in wide && i.alias in own && KeepsDescription(engine, i, wide[i.alias], own[i.alias])
  }

  ghost predicate Described(engine: Engine, images: seq<Image>, wide: map<Alias, Description>,
                            own: map<Alias, Description>)
  {
    && wide.Keys == own.Keys == Aliases(images)
    && forall k :: 0 <= k < |images| ==>
         DescriptionKept(engine, images[k], wide, own)
  }

  ghost function IndexOf(images: seq<Image>, alias: Alias): (k: nat)
    requires alias in Aliases(images)
    ensures k < |images| && images[k].alias == alias
  {
    var i :| i in images && i.alias == alias;
    var k :| 0 <= k < |images| && images[k] == i;
    k
  }

  /** The result a run under the narrower policy alone would record for a pair. */
  ghost function OwnResult(engine: Engine, examples: set<PairId>, images: seq<Image>, pair: Pair): PairResult
    requires {pair.left, pair.right} <= Aliases(images)
  {
    var l, r := images[IndexOf(images, pair.left)], images[IndexOf(images, pair.right)];
    Match(engine, examples, pair, Own(engine, l), Own(engine, r))
  }

  ghost predicate IsOwnResult(engine: Engine, examples: set<PairId>, images: seq<Image>, pair: Pair, result: PairResult)
  {
    && {pair.left, pair.right} <= Aliases(images)
    && result.(shared := false) == OwnResult(engine, examples, images, pair)
  }

  lemma {:induction false} AliasesGrow(images: seq<Image>, n: nat)
    requires n < |images|
    ensures Aliases(images[..n + 1]) == Aliases(images[..n]) + {images[n].alias}
  {
  }

  lemma {:induction false} Seen(images: seq<Image>, n: nat)
    requires n < |images|
    ensures images[n].alias in Aliases(images[..n]) ==> !Distinct(images)
  {
  }

  lemma {:induction false} DetectedGrows(engine: Engine, images: seq<Image>, n: nat, wide: map<Alias, Detection>,
                                         own: map<Alias, Detection>, wideNow: Detection, ownNow: Detection)
    requires n < |images| && Detected(engine, images[..n], wide, own)
    requires images[n].alias !in wide && KeepsDetection(engine, images[n], wideNow, ownNow)
    ensures Detected(engine, images[..n + 1], wide[images[n].alias := wideNow], own[images[n].alias := ownNow])
  {
    AliasesGrow(images, n);
    var wideNext, ownNext := wide[images[n].alias := wideNow], own[images[n].alias := ownNow];
    var done := images[..n + 1];
    forall k | 0 <= k < |done| ensures DetectionKept(engine, done[k], wideNext, ownNext) {
      if k < n { assert DetectionKept(engine, images[..n][k], wide, own); }
    }
  }

  lemma {:induction false} DescribedGrows(engine: Engine, images: seq<Image>, n: nat, wide: map<Alias, Description>,
                                          own: map<Alias, Description>, wideNow: Description, ownNow: Description)
    requires n < |images| && Described(engine, images[..n], wide, own)
    requires images[n].alias !in wide && KeepsDescription(engine, images[n], wideNow, ownNow)
    ensures Described(engine, images[..n + 1], wide[images[n].alias := wideNow], own[images[n].alias := ownNow])
  {
    AliasesGrow(images, n);
    var wideNext, ownNext := wide[images[n].alias := wideNow], own[images[n].alias := ownNow];
    var done := images[..n + 1];
    forall k | 0 <= k < |done| ensures DescriptionKept(engine, done[k], wideNext, ownNext) {
      if k < n { assert DescriptionKept(engine, images[..n][k], wide, own); }
    }
  }

  /** `verify_results` on one image of the narrower policy, re-deriving its eligibility from the estimate. */
  predicate AcceptsImage(i: Image, declared: Declared, d: Detection) {
    && Scale(i.estimate, declared) == Ok(i.primary)
    && d.scale == i.primary
    && (!i.primary.Eligible() ==> d.outcome.Err? && d.outcome.error.cause == Scaling(i.primary.reason.value))
  }

  /** `verify_results` on one pair of the narrower policy, given its sides' templates there and under the wide one. */
  predicate AcceptsPair(pair: Pair, result: PairResult, left: Description, right: Description, wideLeft: Description,
                        wideRight: Description, wide: PairResult)
  {
    if left.outcome.Err? || right.outcome.Err? then AcceptsFailure(pair, result, left, right)
    else AcceptsShare(pair, result, left, right, wideLeft, wideRight, wide)
  }

  predicate AcceptsFailure(pair: Pair, result: PairResult, left: Description, right: Description) {
    && result.pair == pair && result.score.None?
    && result.failures == Failures(left, right) && !result.shared
  }

  /** A failure kept: no score, nothing shared, and each side listed exactly when its own description failed. */
  ghost predicate FailureKept(pair: Pair, result: PairResult, left: Description, right: Description) {
    && result.pair == pair && result.score.None? && !result.shared
    && SideListed(result, Left, left) && SideListed(result, Right, right)
  }

  lemma {:induction false} AcceptsKeptFailures(pair: Pair, result: PairResult, left: Description, right: Description)
    ensures AcceptsFailure(pair, result, left, right) <==> FailureKept(pair, result, left, right)
  {
    FailuresListed(left, right, result);
  }

  /** All four records of an image: its detection and description under each policy. */
  ghost predicate ImageRecorded(engine: Engine, i: Image, wideDetection: Detection, detection: Detection,
                                wideDescription: Description, description: Description)
  {
    && DetectionFits(engine, i.alias, i.wide, wideDetection)
    && DetectionFits(engine, i.alias, i.primary, detection)
    && DescriptionFits(engine, wideDetection, wideDescription)
    && DescriptionFits(engine, detection, description)
    && (detection.shared <==> i.primary.Eligible()) && (description.shared <==> detection.outcome.Ok?)
  }

  lemma {:induction false} RecordsFit(engine: Engine, i: Image, wideDetection: Detection, detection: Detection,
                                      wideDescription: Description, description: Description)
    requires KeepsDetection(engine, i, wideDetection, detection)
    requires KeepsDescription(engine, i, wideDescription, description)
    ensures ImageRecorded(engine, i, wideDetection, detection, wideDescription, description)
  {
    DetectFits(engine, i.alias, i.wide);
    DetectFits(engine, i.alias, i.primary);
    DescribeFits(engine, Detect(engine, i.alias, i.wide));
    DescribeFits(engine, Detect(engine, i.alias, i.primary));
    DetectionIsOwn(engine, i.alias, i.primary, i.wide);
    DescriptionIsOwn(engine, i.alias, i.primary, i.wide);
  }

  /** Both results of a pair, by the descriptions of its sides; the narrower policy's is shared when neither failed. */
  ghost predicate PairRecorded(engine: Engine, examples: set<PairId>, p: Pair, wideLeft: Description,
                               wideRight: Description, left: Description, right: Description, wide: PairResult,
                               own: PairResult)
  {
    && ResultFits(engine, examples, p, wideLeft, wideRight, wide)
    && ResultFits(engine, examples, p, left, right, own)
    && (own.shared <==> left.outcome.Ok? && right.outcome.Ok?)
  }

  lemma {:induction false} ResultsFit(engine: Engine, examples: set<PairId>, images: seq<Image>, pair: Pair,
                                      wide: PairResult, own: PairResult)
    requires Settled(engine, examples, images, pair, wide, own)
    ensures var l, r := images[IndexOf(images, pair.left)], images[IndexOf(images, pair.right)];
      PairRecorded(engine, examples, pair, Wide(engine, l), Wide(engine, r), Shared(engine, l), Shared(engine, r),
                   wide, own)
  {
    var l, r := images[IndexOf(images, pair.left)], images[IndexOf(images, pair.right)];
    MatchExactly(engine, examples, pair, Wide(engine, l), Wide(engine, r), wide);
    MatchExactly(engine, examples, pair, Own(engine, l), Own(engine, r), own);
    SharedDescribesAlike(engine, l);
    SharedDescribesAlike(engine, r);
    SameOutcomes(engine, examples, pair, Own(engine, l), Own(engine, r), Shared(engine, l), Shared(engine, r), own);
  }

  lemma {:induction false} SharedDescribesAlike(engine: Engine, i: Image)
    requires Shareable(i.primary, i.wide)
    ensures Shared(engine, i).outcome == Own(engine, i).outcome
  {
    DescriptionIsOwn(engine, i.alias, i.primary, i.wide);
  }

  lemma {:induction false} SameOutcomes(engine: Engine, examples: set<PairId>, pair: Pair, left: Description,
                                        right: Description, l: Description, r: Description, result: PairResult)
    requires ResultFits(engine, examples, pair, left, right, result)
    requires l.outcome == left.outcome && r.outcome == right.outcome
    ensures ResultFits(engine, examples, pair, l, r, result)
  {
  }

  predicate AcceptsShare(pair: Pair, result: PairResult, left: Description, right: Description, wideLeft: Description,
                         wideRight: Description, wide: PairResult)
  {
    && result.pair == pair && result.shared
    && result.score == wide.score && result.reason == wide.reason
    && left.outcome == wideLeft.outcome && right.outcome == wideRight.outcome
  }

  /** Both sides' intermediates lead to a shared result that is the policy's own, and that the check accepts. */
  lemma {:induction false} PairSettled(engine: Engine, examples: set<PairId>, images: seq<Image>, pair: Pair)
    requires {pair.left, pair.right} <= Aliases(images) && AllShareable(images)
    ensures var l, r := images[IndexOf(images, pair.left)], images[IndexOf(images, pair.right)];
      var a, b, c, d := Wide(engine, l), Wide(engine, r), Shared(engine, l), Shared(engine, r);
      var wide := Match(engine, examples, pair, a, b);
      var s := SharePair(pair, c, d, a, b, wide);
      s.Ok? && Settled(engine, examples, images, pair, wide, s.value)
  {
    var l, r := IndexOf(images, pair.left), IndexOf(images, pair.right);
    PairIsOwn(engine, examples, pair, images[l], images[r]);
  }

  /** The results of a pair once it is settled: the policy's own, and one that the check accepts beside the wide one. */
  ghost predicate Settled(engine: Engine, examples: set<PairId>, images: seq<Image>, pair: Pair, wide: PairResult,
                          own: PairResult)
  {
    && AllShareable(images) && IsOwnResult(engine, examples, images, pair, own)
    && var l, r := images[IndexOf(images, pair.left)], images[IndexOf(images, pair.right)];
      && wide == Match(engine, examples, pair, Wide(engine, l), Wide(engine, r))
      && AcceptsPair(pair, own, Shared(engine, l), Shared(engine, r), Wide(engine, l), Wide(engine, r), wide)
  }

  /** `Settled` with the run fixed. */
  ghost function Settling(engine: Engine, examples: set<PairId>, images: seq<Image>)
    : (Pair, PairResult, PairResult) -> bool
  {
    (pair, wide, own) => Settled(engine, examples, images, pair, wide, own)
  }

  ghost predicate PairKept(settled: (Pair, PairResult, PairResult) -> bool, pair: Pair, wide: map<PairId, PairResult>,
                           own: map<PairId, PairResult>)
  {
    pair.id in wide && pair.id in own && settled(pair, wide[pair.id], own[pair.id])
  }

  function PairIds(pairs: seq<Pair>): set<PairId> {
    set p <- pairs :: p.id
  }

  ghost predicate Matched(settled: (Pair, PairResult, PairResult) -> bool, pairs: seq<Pair>,
                          wide: map<PairId, PairResult>, own: map<PairId, PairResult>)
  {
    && wide.Keys == own.Keys == PairIds(pairs)
    && forall k :: 0 <= k < |pairs| ==> PairKept(settled, pairs[k], wide, own)
  }

  lemma {:induction false} PairSeen(pairs: seq<Pair>, n: nat)
    requires n < |pairs|
    ensures PairIds(pairs[..n + 1]) == PairIds(pairs[..n]) + {pairs[n].id}
    ensures pairs[n].id in PairIds(pairs[..n]) ==> !DistinctPairs(pairs)
  {
  }

  lemma {:induction false} MatchedGrows(settled: (Pair, PairResult, PairResult) -> bool, pairs: seq<Pair>, n: nat,
                                        wide: map<PairId, PairResult>, own: map<PairId, PairResult>,
                                        wideNow: PairResult, ownNow: PairResult)
    requires n < |pairs| && Matched(settled, pairs[..n], wide, own)
    requires pairs[n].id !in wide && settled(pairs[n], wideNow, ownNow)
    ensures Matched(settled, pairs[..n + 1], wide[pairs[n].id := wideNow], own[pairs[n].id := ownNow])
  {
    PairSeen(pairs, n);
    var wideNext, ownNext := wide[pairs[n].id := wideNow], own[pairs[n].id := ownNow];
    var done := pairs[..n + 1];
    forall k | 0 <= k < |done| ensures PairKept(settled, done[k], wideNext, ownNext) {
      if k < n { assert PairKept(settled, pairs[..n][k], wide, own); }
    }
  }

  /** The two policies' output directories; a file is created once and never replaced. */
  class Outputs {
    var wideDetections: map<Alias, Detection>
    var detections: map<Alias, Detection>
    var wideDescriptions: map<Alias, Description>
    var descriptions: map<Alias, Description>
    var widePairs: map<PairId, PairResult>
    var pairs: map<PairId, PairResult>

    constructor ()
      ensures wideDetections == detections == map[]
      ensures wideDescriptions == descriptions == map[]
      ensures widePairs == pairs == map[]
    {
      wideDetections, detections := map[], map[];
      wideDescriptions, descriptions := map[], map[];
      widePairs, pairs := map[], map[];
    }

    /** The worker's loop over the images: detection under the wide policy, shared with the narrower one. */
    method DetectAll(engine: Engine, images: seq<Image>) returns (refusal: Option<Refusal>)
      requires wideDetections == detections == map[]
      modifies this`wideDetections, this`detections
      ensures refusal.None? <==> Distinct(images) && AllShareable(images)
      ensures refusal.None? ==> Detected(engine, images, wideDetections, detections)
      ensures refusal.Some? ==> refusal.value == FileExists || refusal.value == ScalesDiffer
      ensures refusal == Some(FileExists) ==> !Distinct(images)
      ensures refusal == Some(ScalesDiffer) ==> !AllShareable(images)
    {
      for n := 0 to |images|
        invariant Detected(engine, images[..n], wideDetections, detections)
        invariant Distinct(images[..n]) && AllShareable(images[..n])
      {
        var i := images[n];
        Seen(images, n);
        var wide := Detect(engine, i.alias, i.wide);
        if i.alias in wideDetections { return Some(FileExists); }
        DetectionIsOwn(engine, i.alias, i.primary, i.wide);
        var own := ShareDetection(wide, i.primary);
        if own.Err? {
          wideDetections := wideDetections[i.alias := wide];
          return Some(own.error);
        }
        DetectedGrows(engine, images, n, wideDetections, detections, wide, own.value);
        Unseen(images, n);
        wideDetections := wideDetections[i.alias := wide];
        detections := detections[i.alias := own.value];
      }
      assert images[..|images|] == images;
      refusal := None;
    }

    /** The description of every image under the wide policy, then the narrower policy's share of it. */
    method DescribeAll(engine: Engine, images: seq<Image>)
      requires Distinct(images) && AllShareable(images)
      requires Detected(engine, images, wideDetections, detections)
      requires wideDescriptions == descriptions == map[]
      modifies this`wideDescriptions, this`descriptions
      ensures Described(engine, images, wideDescriptions, descriptions)
    {
      for n := 0 to |images|
        invariant Described(engine, images[..n], wideDescriptions, descriptions)
      {
        var i := images[n];
        Seen(images, n);
        assert DetectionKept(engine, i, wideDetections, detections);
        var wide := Describe(engine, wideDetections[i.alias]);
        var own := ShareDescription(detections[i.alias], wide);
        DescribedGrows(engine, images, n, wideDescriptions, descriptions, wide, own);
        wideDescriptions := wideDescriptions[i.alias := wide];
        descriptions := descriptions[i.alias := own];
      }
      assert images[..|images|] == images;
    }

    /** One pair under the wide policy, then the narrower one's share of it; the templates are never found to differ. */
    method MatchOne(engine: Engine, examples: set<PairId>, images: seq<Image>, p: Pair)
      returns (refusal: Option<Refusal>)
      requires AllShareable(images) && Described(engine, images, wideDescriptions, descriptions)
      modifies this`widePairs, this`pairs
      ensures refusal ==
        if p.id in old(widePairs) then Some(FileExists)
        else if !KnownSides(images, p) then Some(MissingFile)
        else None
      ensures refusal.None? ==> p.id in widePairs && widePairs == old(widePairs)[p.id := widePairs[p.id]]
      ensures refusal.None? ==> p.id in pairs && pairs == old(pairs)[p.id := pairs[p.id]]
      ensures refusal.None? ==> Settled(engine, examples, images, p, widePairs[p.id], pairs[p.id])
    {
      if p.id in widePairs { return Some(FileExists); }
      if p.left !in descriptions || p.right !in descriptions { return Some(MissingFile); }
      ghost var l, r := IndexOf(images, p.left), IndexOf(images, p.right);
      assert DescriptionKept(engine, images[l], wideDescriptions, descriptions);
      assert DescriptionKept(engine, images[r], wideDescriptions, descriptions);
      PairSettled(engine, examples, images, p);
      var result := Match(engine, examples, p, wideDescriptions[p.left], wideDescriptions[p.right]);
      var shared := SharePair(p, descriptions[p.left], descriptions[p.right],
                              wideDescriptions[p.left], wideDescriptions[p.right], result);
      if shared.Err? { assert false; }
      widePairs := widePairs[p.id := result];
      pairs := pairs[p.id := shared.value];
      refusal := None;
    }

    method MatchNext(engine: Engine, examples: set<PairId>, images: seq<Image>, plan: seq<Pair>, n: nat)
      returns (refusal: Option<Refusal>)
      requires AllShareable(images) && Described(engine, images, wideDescriptions, descriptions)
      requires n < |plan| && AllMatched(engine, examples, images, plan[..n], widePairs, pairs)
      modifies this`widePairs, this`pairs
      ensures refusal.None? ==> AllMatched(engine, examples, images, plan[..n + 1], widePairs, pairs)
      ensures refusal.Some? ==> !PlanIsSound(images, plan)
      ensures refusal != Some(ScalesDiffer) && refusal != Some(TemplatesDiffer)
    {
      refusal := MatchOne(engine, examples, images, plan[n]);
      if refusal.Some? {
        PlanFails(engine, examples, images, plan, n, old(widePairs), old(pairs));
      } else {
        var id := plan[n].id;
        AllMatchedGrows(engine, examples, images, plan, n, old(widePairs), old(pairs), widePairs[id], pairs[id]);
      }
    }

    /** Every pair in turn. */
    method MatchAll(engine: Engine, examples: set<PairId>, images: seq<Image>, plan: seq<Pair>)
      returns (refusal: Option<Refusal>)
      requires AllShareable(images) && Described(engine, images, wideDescriptions, descriptions)
      requires widePairs == pairs == map[]
      modifies this`widePairs, this`pairs
      ensures refusal.None? ==> AllMatched(engine, examples, images, plan, widePairs, pairs)
      ensures refusal.Some? ==> !PlanIsSound(images, plan)
      ensures refusal != Some(ScalesDiffer) && refusal != Some(TemplatesDiffer)
    {
      for n := 0 to |plan|
        invariant wideDescriptions == old(wideDescriptions) && descriptions == old(descriptions)
        invariant AllMatched(engine, examples, images, plan[..n], widePairs, pairs)
      {
        refusal := MatchNext(engine, examples, images, plan, n);
        if refusal.Some? { return; }
      }
      assert plan[..|plan|] == plan;
      refusal := None;
    }

    ghost predicate ImageAccepted(declared: Declared, i: Image)
      reads this
    {
      i.alias in detections && AcceptsImage(i, declared, detections[i.alias])
    }

    ghost predicate PairAccepted(p: Pair)
      reads this
    {
      && p.id in pairs && p.id in widePairs && p.left in descriptions && p.right in descriptions
      && if descriptions[p.left].outcome.Err? || descriptions[p.right].outcome.Err? then
           FailureKept(p, pairs[p.id], descriptions[p.left], descriptions[p.right])
         else
           && p.left in wideDescriptions && p.right in wideDescriptions
           && AcceptsShare(p, pairs[p.id], descriptions[p.left], descriptions[p.right],
                           wideDescriptions[p.left], wideDescriptions[p.right], widePairs[p.id])
    }

    ghost predicate Accepted(declared: Declared, images: seq<Image>, plan: seq<Pair>)
      reads this
    {
      && pairs.Keys == PairIds(plan)
      && (forall k :: 0 <= k < |images| ==> ImageAccepted(declared, images[k]))
      && (forall k :: 0 <= k < |plan| ==> PairAccepted(plan[k]))
    }

    /** The check of the narrower policy's route, from the saved estimates and files. */
    method VerifyResults(declared: Declared, images: seq<Image>, plan: seq<Pair>) returns (ok: bool)
      ensures ok <==> Accepted(declared, images, plan)
    {
      if pairs.Keys != PairIds(plan) { return false; }
      for k := 0 to |images|
        invariant forall m :: 0 <= m < k ==> ImageAccepted(declared, images[m])
      {
        var i := images[k];
        if i.alias !in detections || !AcceptsImage(i, declared, detections[i.alias]) { return false; }
      }
      for k := 0 to |plan|
        invariant forall m :: 0 <= m < k ==> PairAccepted(plan[m])
      {
        var good := VerifyPair(plan[k]);
        if !good { return false; }
      }
      ok := true;
    }

    method VerifyPair(p: Pair) returns (ok: bool)
      ensures ok <==> PairAccepted(p)
    {
      if p.id !in pairs || p.id !in widePairs || p.left !in descriptions || p.right !in descriptions { return false; }
      var left, right := descriptions[p.left], descriptions[p.right];
      if left.outcome.Err? || right.outcome.Err? {
        ok := AcceptsFailure(p, pairs[p.id], left, right);
        AcceptsKeptFailures(p, pairs[p.id], left, right);
      } else if p.left !in wideDescriptions || p.right !in wideDescriptions {
        ok := false;
      } else {
        var wideLeft, wideRight := wideDescriptions[p.left], wideDescriptions[p.right];
        ok := AcceptsShare(p, pairs[p.id], left, right, wideLeft, wideRight, widePairs[p.id]);
      }
    }

    /** The records of one image, each by the one before it. */
    ghost predicate ImageIsRecorded(engine: Engine, i: Image)
      reads this
    {
      && i.alias in wideDetections && i.alias in detections && i.alias in wideDescriptions && i.alias in descriptions
      && ImageRecorded(engine, i, wideDetections[i.alias], detections[i.alias],
                       wideDescriptions[i.alias], descriptions[i.alias])
    }

    /** The results of one pair, by the descriptions stored for its sides. */
    ghost predicate PairIsRecorded(engine: Engine, examples: set<PairId>, p: Pair)
      reads this
    {
      && p.id in widePairs && p.id in pairs && {p.left, p.right} <= wideDescriptions.Keys
      && {p.left, p.right} <= descriptions.Keys
      && PairRecorded(engine, examples, p, wideDescriptions[p.left], wideDescriptions[p.right],
                      descriptions[p.left], descriptions[p.right], widePairs[p.id], pairs[p.id])
    }

    /**
     `run`: the shared execution. It is refused for a file that exists or is missing, or when some
     image's policies cannot share, and for nothing else. Otherwise every detection, description and
     pair of the narrower policy is what a run under it alone would have recorded.
     */
    method Run(engine: Engine, examples: set<PairId>, images: seq<Image>, plan: seq<Pair>)
      returns (refusal: Option<Refusal>)
      requires wideDetections == detections == map[]
      requires wideDescriptions == descriptions == map[]
      requires widePairs == pairs == map[]
      modifies this
      ensures refusal.None? ==>
        && Detected(engine, images, wideDetections, detections)
        && Described(engine, images, wideDescriptions, descriptions)
        && AllMatched(engine, examples, images, plan, widePairs, pairs)
      ensures refusal.None? ==> forall k :: 0 <= k < |images| ==> ImageIsRecorded(engine, images[k])
      ensures refusal.None? ==> forall k :: 0 <= k < |plan| ==> PairIsRecorded(engine, examples, plan[k])
      ensures refusal.None? <==> Runnable(images, plan)
      ensures refusal == Some(ScalesDiffer) ==> !AllShareable(images)
      ensures refusal != Some(TemplatesDiffer)
    {
      refusal := DetectAll(engine, images);
      if refusal.Some? { return; }
      DescribeAll(engine, images);
      refusal := MatchAll(engine, examples, images, plan);
      if refusal.None? { EverythingRecorded(this, engine, examples, images, plan); }
    }
  }

  /** After all three stages every image and every pair has its records. */
  lemma {:induction false} EverythingRecorded(o: Outputs, engine: Engine, examples: set<PairId>, images: seq<Image>,
                                              plan: seq<Pair>)
    requires Detected(engine, images, o.wideDetections, o.detections)
    requires Described(engine, images, o.wideDescriptions, o.descriptions)
    requires AllMatched(engine, examples, images, plan, o.widePairs, o.pairs)
    ensures forall k :: 0 <= k < |images| ==> o.ImageIsRecorded(engine, images[k])
    ensures forall k :: 0 <= k < |plan| ==> o.PairIsRecorded(engine, examples, plan[k])
  {
    forall k | 0 <= k < |images| ensures o.ImageIsRecorded(engine, images[k]) {
      var i := images[k];
      assert DetectionKept(engine, i, o.wideDetections, o.detections);
      assert DescriptionKept(engine, i, o.wideDescriptions, o.descriptions);
      RecordsFit(engine, i, o.wideDetections[i.alias], o.detections[i.alias], o.wideDescriptions[i.alias],
                 o.descriptions[i.alias]);
    }
    forall k | 0 <= k < |plan| ensures o.PairIsRecorded(engine, examples, plan[k]) {
      PairRecords(o, engine, examples, images, plan, k);
    }
  }

  lemma {:induction false} PairRecords(o: Outputs, engine: Engine, examples: set<PairId>, images: seq<Image>,
                                       plan: seq<Pair>, k: nat)
    requires Described(engine, images, o.wideDescriptions, o.descriptions)
    requires AllMatched(engine, examples, images, plan, o.widePairs, o.pairs) && k < |plan|
    ensures o.PairIsRecorded(engine, examples, plan[k])
  {
    var p := plan[k];
    assert PairKept(Settling(engine, examples, images), p, o.widePairs, o.pairs);
    var l, r := images[IndexOf(images, p.left)], images[IndexOf(images, p.right)];
    assert DescriptionKept(engine, l, o.wideDescriptions, o.descriptions);
    assert DescriptionKept(engine, r, o.wideDescriptions, o.descriptions);
    ResultsFit(engine, examples, images, p, o.widePairs[p.id], o.pairs[p.id]);
  }

  /** No image or pair is named twice, every pair is of known images, and the policies can share on every image. */
  ghost predicate Runnable(images: seq<Image>, plan: seq<Pair>) {
    Distinct(images) && AllShareable(images) && PlanIsSound(images, plan)
  }

  ghost predicate PlanIsSound(images: seq<Image>, plan: seq<Pair>) {
    DistinctPairs(plan) && forall k :: 0 <= k < |plan| ==> KnownSides(images, plan[k])
  }

  ghost predicate AllMatched(engine: Engine, examples: set<PairId>, images: seq<Image>, plan: seq<Pair>,
                             wide: map<PairId, PairResult>, own: map<PairId, PairResult>)
  {
    Matched(Settling(engine, examples, images), plan, wide, own) && PlanIsSound(images, plan)
  }

  lemma {:induction false} NestedPoliciesShare(images: seq<Image>, primary: Declared, wide: Declared)
    requires Prepared(images, primary, wide) && Within(primary, wide)
    ensures AllShareable(images)
  {
  }

  lemma {:induction false} PlanFails(engine: Engine, examples: set<PairId>, images: seq<Image>, plan: seq<Pair>,
                                     n: nat, wide: map<PairId, PairResult>, own: map<PairId, PairResult>)
    requires n < |plan| && AllMatched(engine, examples, images, plan[..n], wide, own)
    requires plan[n].id in wide || !KnownSides(images, plan[n])
    ensures !PlanIsSound(images, plan)
  {
    PairSeen(plan, n);
  }

  lemma {:induction false} AllMatchedGrows(engine: Engine, examples: set<PairId>, images: seq<Image>, plan: seq<Pair>,
                                           n: nat, wide: map<PairId, PairResult>, own: map<PairId, PairResult>,
                                           wideNow: PairResult, ownNow: PairResult)
    requires n < |plan| && AllMatched(engine, examples, images, plan[..n], wide, own)
    requires plan[n].id !in wide && KnownSides(images, plan[n])
    requires Settled(engine, examples, images, plan[n], wideNow, ownNow)
    ensures AllMatched(engine, examples, images, plan[..n + 1], wide[plan[n].id := wideNow], own[plan[n].id := ownNow])
  {
    MatchedGrows(Settling(engine, examples, images), plan, n, wide, own, wideNow, ownNow);
    PairUnseen(plan, n);
    var done := plan[..n + 1];
    forall k | 0 <= k < |done| ensures KnownSides(images, done[k]) {
      if k < n { assert KnownSides(images, plan[..n][k]); }
    }
  }

  predicate KnownSides(images: seq<Image>, p: Pair) {
    p.left in Aliases(images) && p.right in Aliases(images)
  }

  lemma {:induction false} Unseen(images: seq<Image>, n: nat)
    requires n < |images| && images[n].alias !in Aliases(images[..n])
    ensures Distinct(images[..n]) ==> Distinct(images[..n + 1])
  {
  }

  lemma {:induction false} PairUnseen(pairs: seq<Pair>, n: nat)
    requires n < |pairs| && pairs[n].id !in PairIds(pairs[..n])
    ensures DistinctPairs(pairs[..n]) ==> DistinctPairs(pairs[..n + 1])
  {
  }

  /** The check accepts whatever a finished run left behind. */
  lemma {:induction false} FinishedRunIsAccepted(o: Outputs, engine: Engine, examples: set<PairId>,
                                                 images: seq<Image>, plan: seq<Pair>, primary: Declared,
                                                 wide: Declared)
    requires Prepared(images, primary, wide)
    requires Detected(engine, images, o.wideDetections, o.detections)
    requires Described(engine, images, o.wideDescriptions, o.descriptions)
    requires AllMatched(engine, examples, images, plan, o.widePairs, o.pairs)
    ensures o.Accepted(primary, images, plan)
  {
    forall k | 0 <= k < |images| ensures o.ImageAccepted(primary, images[k]) {
      assert DetectionKept(engine, images[k], o.wideDetections, o.detections);
      DetectionIsOwn(engine, images[k].alias, images[k].primary, images[k].wide);
    }
    forall k | 0 <= k < |plan| ensures o.PairAccepted(plan[k]) {
      PairIsAccepted(o, engine, examples, images, plan, k);
    }
  }

  lemma {:induction false} SettledIsAccepted(engine: Engine, examples: set<PairId>, images: seq<Image>, p: Pair,
                                             wide: PairResult, own: PairResult)
    requires Settled(engine, examples, images, p, wide, own)
    ensures var l, r := images[IndexOf(images, p.left)], images[IndexOf(images, p.right)];
      var left, right := Shared(engine, l), Shared(engine, r);
      if left.outcome.Err? || right.outcome.Err? then FailureKept(p, own, left, right)
      else AcceptsShare(p, own, left, right, Wide(engine, l), Wide(engine, r), wide)
  {
    var l, r := images[IndexOf(images, p.left)], images[IndexOf(images, p.right)];
    AcceptsKeptFailures(p, own, Shared(engine, l), Shared(engine, r));
  }

  lemma {:induction false} PairIsAccepted(o: Outputs, engine: Engine, examples: set<PairId>, images: seq<Image>,
                                          plan: seq<Pair>, k: nat)
    requires Described(engine, images, o.wideDescriptions, o.descriptions)
    requires AllMatched(engine, examples, images, plan, o.widePairs, o.pairs) && k < |plan|
    ensures o.PairAccepted(plan[k])
  {
    var p := plan[k];
    assert PairKept(Settling(engine, examples, images), p, o.widePairs, o.pairs);
    var l, r := images[IndexOf(images, p.left)], images[IndexOf(images, p.right)];
    assert DescriptionKept(engine, l, o.wideDescriptions, o.descriptions);
    assert DescriptionKept(engine, r, o.wideDescriptions, o.descriptions);
    SettledIsAccepted(engine, examples, images, p, o.widePairs[p.id], o.pairs[p.id]);
  }

  /** Beside a genuine result of the wide policy, a result the check accepts is what its own descriptions make. */
  lemma {:induction false} AcceptedIsDerived(o: Outputs, engine: Engine, examples: set<PairId>, p: Pair)
    requires o.PairAccepted(p) && {p.left, p.right} <= o.wideDescriptions.Keys
    requires var wide := o.wideDescriptions;
      ResultFits(engine, examples, p, wide[p.left], wide[p.right], o.widePairs[p.id])
    ensures var left, right, result := o.descriptions[p.left], o.descriptions[p.right], o.pairs[p.id];
      && result.pair == p && (result.shared <==> left.outcome.Ok? && right.outcome.Ok?)
      && (left.outcome.Err? || right.outcome.Err? ==> FailureKept(p, result, left, right))
      && (left.outcome.Ok? && right.outcome.Ok? ==>
            ScoreFits(engine, p.id in examples, left.outcome.value, right.outcome.value, result))
  {
  }

  /**
   Prepared under one target with the narrower band inside the wider one, a sound plan always
   finishes: every pair of the narrower policy gets the status, score and reasons that a run under
   it alone would give, and the check accepts the lot.
   */
  method SharedRunIsOwnRun(engine: Engine, examples: set<PairId>, images: seq<Image>, plan: seq<Pair>,
                           primary: Declared, wide: Declared)
    returns (o: Outputs, refusal: Option<Refusal>, accepted: bool)
    requires Prepared(images, primary, wide) && Within(primary, wide)
    requires Distinct(images) && PlanIsSound(images, plan)
    ensures refusal.None? && accepted
    ensures forall k :: 0 <= k < |plan| ==>
      plan[k].id in o.pairs && IsOwnResult(engine, examples, images, plan[k], o.pairs[plan[k].id])
  {
    NestedPoliciesShare(images, primary, wide);
    o := new Outputs();
    refusal := o.Run(engine, examples, images, plan);
    FinishedRunIsAccepted(o, engine, examples, images, plan, primary, wide);
    accepted := o.VerifyResults(primary, images, plan);
    forall k | 0 <= k < |plan|
      ensures plan[k].id in o.pairs && IsOwnResult(engine, examples, images, plan[k], o.pairs[plan[k].id])
    {
      assert PairKept(Settling(engine, examples, images), plan[k], o.widePairs, o.pairs);
    }
  }
}
