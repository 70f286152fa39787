/**
 Sealing a selected boundary with its counts, and re-deriving it later. A fingerprint is an
 injective function of the fields it covers, so it is modelled by those fields.
 */
module OperatingPoints {
  import opened Results
  import opened Rates
  import opened Scores
  import opened Calibration
  import opened SelectionTheorems

  // --------------------------------------------------------- labelled results

  /** One body of labelled comparisons; its content hash covers the direction and the rows. */
  datatype Labeled = Labeled(direction: Direction, rows: seq<Row>)

  predicate Sorted(rows: seq<Row>) {
    forall i, j :: 0 <= i < j < |rows| ==> rows[i].pair < rows[j].pair
  }

  function InsertRow(rows: seq<Row>, row: Row): seq<Row> {
    if rows == [] || row.pair <= rows[0].pair then [row] + rows
    else [rows[0]] + InsertRow(rows[1..], row)
  }

  function SortRows(rows: seq<Row>): seq<Row> {
    if rows == [] then [] else InsertRow(SortRows(rows[1..]), rows[0])
  }

  predicate Distinct(rows: seq<Row>) {
    forall i, j :: 0 <= i < j < |rows| ==> rows[i].pair != rows[j].pair
  }

  /** The constructor of `LabeledResults`: a repeated pair is refused, the rest is sorted. */
  function Label(direction: Direction, rows: seq<Row>): Option<Labeled> {
    if Distinct(rows) then Some(Labeled(direction, SortRows(rows))) else None
  }

  function PairsOf(rows: seq<Row>): (r: seq<nat>)
    ensures |r| == |rows| && forall i :: 0 <= i < |rows| ==> r[i] == rows[i].pair
  {
    seq(|rows|, i requires 0 <= i < |rows| => rows[i].pair)
  }

  function TruthOf(rows: seq<Row>): (r: seq<Truth>)
    ensures |r| == |rows| && forall i :: 0 <= i < |rows| ==> r[i] == rows[i].truth
  {
    seq(|rows|, i requires 0 <= i < |rows| => rows[i].truth)
  }

  function Attempts(rows: seq<Row>, truth: Truth): nat {
    if rows == [] then 0 else (if rows[0].truth == truth then 1 else 0) + Attempts(rows[1..], truth)
  }

  function Failures(rows: seq<Row>, truth: Truth): nat {
    if rows == [] then 0
    else (if rows[0].truth == truth && rows[0].attempt.Failed? then 1 else 0) + Failures(rows[1..], truth)
  }

  // ---------------------------------------------------------------- artifacts

  datatype Protocol = Protocol(rate: Rate, policy: string)

  predicate ValidProtocol(p: Protocol) {
    ExactRate(p.rate.numerator, p.rate.denominator) == Ok(p.rate)
  }

  datatype Binding = Binding(
    identities: set<string>, development: bool, direction: Direction,
    results: Labeled, pairs: seq<nat>, truth: seq<Truth>, algorithm: string)

  /** Everything the operating-point fingerprint covers. */
  datatype Body = Body(
    protocol: Protocol, binding: Binding, results: Labeled, pairs: seq<nat>, truth: seq<Truth>, algorithm: string,
    threshold: real, comparator: Comparator, direction: Direction,
    rateNumerator: int, rateDenominator: int,
    impostorMatches: int, impostorScored: int, impostorAttempts: int, impostorFailures: int,
    matedMatches: int, matedNonMatches: int, matedScored: int, matedAttempts: int, matedFailures: int,
    commit: string, clean: bool)

  datatype Point = Point(body: Body, fingerprint: Body, created: string)

  datatype PointError =
    | NoPairs | RepeatedPair | UnorderedPairs | TruthLength | WrongComparator | BadRate | NegativeCount
    | ImpostorArithmetic | MatedArithmetic | TooManyMatches | MatchArithmetic
    | AttemptTotal | MatedLabels | ImpostorLabels | EmptyImpostors | AboveCeiling | NoTimestamp | WrongFingerprint

  predicate AllDifferent(pairs: seq<nat>) { forall i, j :: 0 <= i < j < |pairs| ==> pairs[i] != pairs[j] }

  predicate Ascending(pairs: seq<nat>) { forall i, j :: 0 <= i < j < |pairs| ==> pairs[i] <= pairs[j] }

  function Labels(truth: seq<Truth>, t: Truth): nat {
    if truth == [] then 0 else (if truth[0] == t then 1 else 0) + Labels(truth[1..], t)
  }

  predicate AnyNegative(b: Body) {
    || b.matedMatches < 0 || b.matedNonMatches < 0 || b.matedScored < 0 || b.matedAttempts < 0 || b.matedFailures < 0
    || b.impostorMatches < 0 || b.impostorScored < 0 || b.impostorAttempts < 0 || b.impostorFailures < 0
  }

  /** The constructor of `CalibrationOperatingPoint`, check by check. */
  function Construct(b: Body, fingerprint: Body, created: string): Result<Point, PointError> {
    if b.pairs == [] then Err(NoPairs)
    else if !AllDifferent(b.pairs) then Err(RepeatedPair)
    else if !Ascending(b.pairs) then Err(UnorderedPairs)
    else if |b.truth| != |b.pairs| then Err(TruthLength)
    else if !Admits(b.direction, b.comparator) then Err(WrongComparator)
    else match ExactRate(b.rateNumerator, b.rateDenominator)
      case Err(_) => Err(BadRate)
      case Ok(rate) =>
        if AnyNegative(b) then Err(NegativeCount)
        else if b.impostorScored + b.impostorFailures != b.impostorAttempts then Err(ImpostorArithmetic)
        else if b.matedScored + b.matedFailures != b.matedAttempts then Err(MatedArithmetic)
        else if b.impostorMatches > b.impostorScored then Err(TooManyMatches)
        else if b.matedMatches + b.matedNonMatches != b.matedScored then Err(MatchArithmetic)
        else if b.matedAttempts + b.impostorAttempts != |b.pairs| then Err(AttemptTotal)
        else if Labels(b.truth, Mated) != b.matedAttempts then Err(MatedLabels)
        else if Labels(b.truth, Impostor) != b.impostorAttempts then Err(ImpostorLabels)
        else if b.impostorScored <= 0 then Err(EmptyImpostors)
        else if RateAtMost(b.impostorMatches, b.impostorScored, rate.numerator, rate.denominator) != Some(true) then
          Err(AboveCeiling)
        else if created == "" then Err(NoTimestamp)
        else
          var stored := b.(rateNumerator := rate.numerator, rateDenominator := rate.denominator);
          if fingerprint != stored then Err(WrongFingerprint) else Ok(Point(stored, fingerprint, created))
  }

  // ------------------------------------------------------------- select, seal

  datatype Refusal =
    | NotDevelopment | NoRegistry | Protected | DirectionMismatch | HashMismatch | PairMismatch | TruthMismatch
    | NoImpostors | NoMated
    | Selection(selection: SelectionError)
    | Sealing(point: PointError)
    | OtherProtocol | OtherBinding

  /** `validate_calibration_inputs`, refusals in their order. */
  function Validate(binding: Binding, results: Labeled, registry: Option<set<string>>): Option<Refusal> {
    if !binding.development then Some(NotDevelopment)
    else if registry.None? then Some(NoRegistry)
    else if binding.identities * registry.value != {} then Some(Protected)
    else if binding.direction != results.direction then Some(DirectionMismatch)
    else if binding.results != results then Some(HashMismatch)
    else if binding.pairs != PairsOf(results.rows) then Some(PairMismatch)
    else if binding.truth != TruthOf(results.rows) then Some(TruthMismatch)
    else if Attempts(results.rows, Impostor) == 0 then Some(NoImpostors)
    else if Attempts(results.rows, Mated) == 0 then Some(NoMated)
    else None
  }

  /** The fields `select_operating_point` seals around the chosen boundary. */
  function BodyOf(protocol: Protocol, binding: Binding, results: Labeled, o: Outcome, commit: string, clean: bool): Body
  {
    var rows := results.rows;
    Body(protocol, binding, binding.results, binding.pairs, binding.truth, binding.algorithm,
         o.boundary.threshold, o.boundary.comparator, results.direction,
         protocol.rate.numerator, protocol.rate.denominator,
         o.impostorMatches, o.impostorScored, Attempts(rows, Impostor), Failures(rows, Impostor),
         o.matedMatches, o.matedScored - o.matedMatches, o.matedScored, Attempts(rows, Mated), Failures(rows, Mated),
         commit, clean)
  }

  /** `select_operating_point`. */
  function Seal(protocol: Protocol, binding: Binding, results: Labeled, registry: Option<set<string>>, commit: string,
                clean: bool, created: string): Result<Point, Refusal>
  {
    var refusal := Validate(binding, results, registry);
    if refusal.Some? then Err(refusal.value) else
      match Select(protocol.rate, results.direction, results.rows)
      case Err(e) => Err(Selection(e))
      case Ok(o) =>
        var body := BodyOf(protocol, binding, results, o, commit, clean);
        match Construct(body, body, created)
        case Err(e) => Err(Sealing(e))
        case Ok(point) => Ok(point)
  }

  // -------------------------------------------------------------------- verify

  datatype Report = Report(boundary: bool, counts: bool, fingerprint: bool, findings: seq<string>)

  predicate Verified(r: Report) { r.boundary && r.counts && r.fingerprint && r.findings == [] }

  /** The counts a re-derivation must reproduce, in the order they are compared. */
  function ComparedCounts(b: Body): (r: seq<int>)
    ensures |r| == 11
  {
    [b.impostorMatches, b.impostorScored, b.impostorAttempts, b.impostorFailures,
     b.matedMatches, b.matedNonMatches, b.matedScored, b.matedAttempts, b.matedFailures,
     b.rateNumerator, b.rateDenominator]
  }

  /** What must hold before a re-derivation is attempted. */
  function Belongs(point: Point, protocol: Protocol, binding: Binding, results: Labeled): Option<Refusal> {
    if point.body.protocol != protocol then Some(OtherProtocol)
    else if point.body.binding != binding then Some(OtherBinding)
    else if binding.results != results || point.body.results != results then Some(HashMismatch)
    else if binding.pairs != PairsOf(results.rows) || point.body.pairs != PairsOf(results.rows) then Some(PairMismatch)
    else if binding.truth != TruthOf(results.rows) || point.body.truth != TruthOf(results.rows) then Some(TruthMismatch)
    else None
  }

  function Rederive(point: Point, protocol: Protocol, binding: Binding, results: Labeled,
                    registry: Option<set<string>>): Result<Point, Refusal>
  {
    Seal(protocol, binding, results, registry, point.body.commit, point.body.clean, point.created)
  }

  /** One finding for every count that differs. */
  method CompareCounts(stored: seq<int>, recomputed: seq<int>) returns (counts: bool, findings: seq<string>)
    requires |stored| == |recomputed|
    ensures counts <==> stored == recomputed
    ensures findings == [] <==> counts
  {
    counts, findings := true, [];
    for i := 0 to |stored|
      invariant counts <==> forall k :: 0 <= k < i ==> stored[k] == recomputed[k]
      invariant findings == [] <==> counts
    {
      if stored[i] != recomputed[i] {
        counts := false;
        findings := findings + ["count"];
      }
    }
  }

  /** `verify_operating_point`: refuse what does not belong together, report what disagrees. */
  method VerifyOperatingPoint(point: Point, protocol: Protocol, binding: Binding, results: Labeled,
                              registry: Option<set<string>>)
    returns (r: Result<Report, Refusal>)
    ensures Belongs(point, protocol, binding, results).Some? ==>
      r == Err(Belongs(point, protocol, binding, results).value)
    ensures Belongs(point, protocol, binding, results).None? ==>
      match Rederive(point, protocol, binding, results, registry)
      case Err(e) => r == Err(e)
      case Ok(again) => r.Ok? && Reports(point, again, r.value)
  {
    var refusal := Belongs(point, protocol, binding, results);
    if refusal.Some? { return Err(refusal.value); }
    var again := Rederive(point, protocol, binding, results, registry);
    if again.Err? { return Err(again.error); }
    var stored, recomputed := point.body, again.value.body;
    var findings: seq<string> := [];
    var boundary := SameBoundary(stored, recomputed);
    if !boundary { findings := findings + ["boundary"]; }
    var counts, disagreements := CompareCounts(ComparedCounts(stored), ComparedCounts(recomputed));
    ComparedIsSame(stored, recomputed);
    findings := findings + disagreements;
    var fingerprint := again.value.fingerprint == point.fingerprint;
    if !fingerprint { findings := findings + ["identity"]; }
    r := Ok(Report(boundary, counts, fingerprint, findings));
  }

  predicate SameBoundary(a: Body, b: Body) {
    a.threshold == b.threshold && a.comparator == b.comparator && a.direction == b.direction
  }

  /** Each count of a re-derivation and each part of its ceiling is the stored one. */
  predicate SameCounts(a: Body, b: Body) {
    && a.impostorMatches == b.impostorMatches && a.impostorScored == b.impostorScored
    && a.impostorAttempts == b.impostorAttempts && a.impostorFailures == b.impostorFailures
    && a.matedMatches == b.matedMatches && a.matedNonMatches == b.matedNonMatches && a.matedScored == b.matedScored
    && a.matedAttempts == b.matedAttempts && a.matedFailures == b.matedFailures
    && a.rateNumerator == b.rateNumerator && a.rateDenominator == b.rateDenominator
  }

  lemma {:induction false} ComparedIsSame(a: Body, b: Body)
    ensures ComparedCounts(a) == ComparedCounts(b) <==> SameCounts(a, b)
  {
    var s, t := ComparedCounts(a), ComparedCounts(b);
    if s == t {
      assert s[0] == t[0] && s[1] == t[1] && s[2] == t[2] && s[3] == t[3] && s[4] == t[4] && s[5] == t[5];
      assert s[6] == t[6] && s[7] == t[7] && s[8] == t[8] && s[9] == t[9] && s[10] == t[10];
    }
  }

  /** What a report says about the stored point and the re-derived one. */
  predicate Reports(stored: Point, recomputed: Point, r: Report) {
    && (r.boundary <==>
         && stored.body.threshold == recomputed.body.threshold
         && stored.body.comparator == recomputed.body.comparator
         && stored.body.direction == recomputed.body.direction)
    && (r.counts <==> SameCounts(stored.body, recomputed.body))
    && (r.fingerprint <==> recomputed.fingerprint == stored.fingerprint)
    && (r.findings == [] <==> r.boundary && r.counts && r.fingerprint)
  }

  // ------------------------------------------------------------------- theorems

  lemma {:induction false} AttemptsSplit(rows: seq<Row>, truth: Truth)
    ensures |ScoresOf(rows, truth)| + Failures(rows, truth) == Attempts(rows, truth)
    ensures Labels(TruthOf(rows), truth) == Attempts(rows, truth)
  {
    if rows != [] {
      AttemptsSplit(rows[1..], truth);
      assert TruthOf(rows)[1..] == TruthOf(rows[1..]);
    }
  }

  lemma {:induction false} TruthsSplit(rows: seq<Row>)
    ensures Attempts(rows, Mated) + Attempts(rows, Impostor) == |rows|
  {
    if rows != [] { TruthsSplit(rows[1..]); }
  }

  /** The nine counts around a chosen boundary are consistent with each other and with the labels. */
  predicate Consistent(b: Body) {
    && 0 <= b.impostorMatches && 0 <= b.impostorFailures && 0 <= b.impostorAttempts
    && 0 <= b.matedMatches && 0 <= b.matedNonMatches && 0 <= b.matedScored
    && 0 <= b.matedFailures && 0 <= b.matedAttempts
    && b.impostorScored + b.impostorFailures == b.impostorAttempts
    && b.matedScored + b.matedFailures == b.matedAttempts
    && b.impostorMatches <= b.impostorScored
    && b.matedMatches + b.matedNonMatches == b.matedScored
    && b.matedAttempts + b.impostorAttempts == |b.pairs|
    && Labels(b.truth, Mated) == b.matedAttempts && Labels(b.truth, Impostor) == b.impostorAttempts
    && b.impostorScored > 0
  }

  lemma {:induction false} CountsAreConsistent(protocol: Protocol, binding: Binding, results: Labeled,
                                               boundary: Boundary, commit: string, clean: bool)
    requires binding.pairs == PairsOf(results.rows) && binding.truth == TruthOf(results.rows)
    requires ScoresOf(results.rows, Impostor) != []
    ensures Consistent(BodyOf(protocol, binding, results, Evaluate(boundary, results.rows), commit, clean))
  {
    AttemptsSplit(results.rows, Mated);
    AttemptsSplit(results.rows, Impostor);
    TruthsSplit(results.rows);
  }

  lemma {:induction false} ConsistentConstructs(b: Body, created: string)
    requires Consistent(b) && created != "" && AllDifferent(b.pairs) && Ascending(b.pairs) && |b.truth| == |b.pairs|
    requires Admits(b.direction, b.comparator)
    requires b.rateNumerator >= 0 && b.rateDenominator > 0
    requires ExactRate(b.rateNumerator, b.rateDenominator) == Ok(Rate(b.rateNumerator, b.rateDenominator))
    requires RateAtMost(b.impostorMatches, b.impostorScored, b.rateNumerator, b.rateDenominator) == Some(true)
    ensures Construct(b, b, created) == Ok(Point(b, b, created))
  {
  }

  /** What the constructor admits, all its checks together. */
  ghost predicate Constructible(b: Body, fingerprint: Body, created: string) {
    && |b.truth| == |b.pairs| > 0 && (forall i, j :: 0 <= i < j < |b.pairs| ==> b.pairs[i] < b.pairs[j])
    && Admits(b.direction, b.comparator)
    && b.rateDenominator > 0 && 0.0 <= b.rateNumerator as real / b.rateDenominator as real <= 1.0
    && Consistent(b)
    && b.impostorMatches as real / b.impostorScored as real <= b.rateNumerator as real / b.rateDenominator as real
    && created != "" && fingerprint == Canonised(b)
  }

  /** The body with its ceiling in lowest terms. */
  ghost function Canonised(b: Body): Body
    requires b.rateDenominator > 0 && 0.0 <= b.rateNumerator as real / b.rateDenominator as real <= 1.0
  {
    ExactRateExactly(b.rateNumerator, b.rateDenominator);
    var rate := ExactRate(b.rateNumerator, b.rateDenominator).value;
    b.(rateNumerator := rate.numerator, rateDenominator := rate.denominator)
  }

  /** A point exists exactly for a consistent body within its ceiling, and it carries that body. */
  lemma {:induction false} ConstructsExactly(b: Body, fingerprint: Body, created: string)
    ensures Construct(b, fingerprint, created).Ok? <==> Constructible(b, fingerprint, created)
    ensures Construct(b, fingerprint, created).Ok? ==>
      Construct(b, fingerprint, created) == Ok(Point(Canonised(b), fingerprint, created))
  {
    ExactRateExactly(b.rateNumerator, b.rateDenominator);
    var rate := ExactRate(b.rateNumerator, b.rateDenominator);
    if rate.Ok? && b.impostorScored > 0 && b.impostorMatches >= 0 {
      PermitsIsExact(rate.value, b.impostorMatches, b.impostorScored);
    }
  }

  /** The inputs a selection takes: development material off the registry, one direction, one body, both populations. */
  lemma {:induction false} ValidExactly(binding: Binding, results: Labeled, registry: Option<set<string>>)
    ensures Validate(binding, results, registry).None? <==>
      && binding.development && registry.Some? && (forall id :: id in binding.identities ==> id !in registry.value)
      && binding.direction == results.direction && binding.results == results
      && binding.pairs == PairsOf(results.rows) && binding.truth == TruthOf(results.rows)
      && (exists r :: r in results.rows && r.truth == Impostor) && exists r :: r in results.rows && r.truth == Mated
  {
    SomeAttempt(results.rows, Impostor);
    SomeAttempt(results.rows, Mated);
    if registry.Some? {
      var both := binding.identities * registry.value;
      assert both == {} <==> forall id :: id in binding.identities ==> id !in registry.value by {
        if both == {} { assert forall id :: id in binding.identities && id in registry.value ==> id in both; }
      }
    }
  }

  /** Leakage is refused first, whatever the results are: by the declared role, then by the protected identities. */
  lemma {:induction false} LeakageComesFirst(binding: Binding, results: Labeled, registry: Option<set<string>>)
    ensures Validate(binding, results, registry) == Some(NotDevelopment) <==> !binding.development
    ensures Validate(binding, results, registry) == Some(NoRegistry) <==> binding.development && registry.None?
    ensures Validate(binding, results, registry) == Some(Protected) <==>
      binding.development && registry.Some? && exists id :: id in binding.identities && id in registry.value
  {
    if registry.Some? {
      var both := binding.identities * registry.value;
      assert both != {} <==> exists id :: id in binding.identities && id in registry.value by {
        if id :| id in both { assert id in binding.identities && id in registry.value; }
        if id :| id in binding.identities && id in registry.value { assert id in both; }
      }
    }
  }

  /** A point belongs to its inputs when it names that protocol and binding, and both of them that very body of rows. */
  lemma {:induction false} BelongsExactly(point: Point, protocol: Protocol, binding: Binding, results: Labeled)
    ensures Belongs(point, protocol, binding, results).None? <==>
      && point.body.protocol == protocol && point.body.binding == binding
      && binding.results == results && point.body.results == results
      && binding.pairs == PairsOf(results.rows) && point.body.pairs == PairsOf(results.rows)
      && binding.truth == TruthOf(results.rows) && point.body.truth == TruthOf(results.rows)
  {
  }

  lemma {:induction false} SomeAttempt(rows: seq<Row>, truth: Truth)
    ensures Attempts(rows, truth) > 0 <==> exists r :: r in rows && r.truth == truth
  {
    if rows != [] {
      SomeAttempt(rows[1..], truth);
      assert forall r :: r in rows <==> r == rows[0] || r in rows[1..];
    }
  }

  /** The sealed counts pass every check of the constructor. */
  lemma {:induction false} SealedCountsAreConsistent(protocol: Protocol, binding: Binding, results: Labeled,
                                                     commit: string, clean: bool, created: string)
    requires ValidProtocol(protocol) && Sorted(results.rows) && created != ""
    requires binding.pairs == PairsOf(results.rows) && binding.truth == TruthOf(results.rows)
    requires ScoresOf(results.rows, Impostor) != []
    ensures Select(protocol.rate, results.direction, results.rows).Ok?
    ensures var o := Select(protocol.rate, results.direction, results.rows).value;
      var body := BodyOf(protocol, binding, results, o, commit, clean);
      Construct(body, body, created) == Ok(Point(body, body, created))
  {
    var rows := results.rows;
    SelectionIsOptimal(protocol.rate, results.direction, rows);
    var o := Select(protocol.rate, results.direction, rows).value;
    CountsAreConsistent(protocol, binding, results, o.boundary, commit, clean);
    ConsistentConstructs(BodyOf(protocol, binding, results, o, commit, clean), created);
  }

  /** Selection and sealing succeed exactly when the inputs are valid and some impostor comparison has a score. */
  lemma {:induction false} SealsExactlyWhenValid(protocol: Protocol, binding: Binding, results: Labeled,
                                                 registry: Option<set<string>>, commit: string, clean: bool,
                                                 created: string)
    requires ValidProtocol(protocol) && Sorted(results.rows) && created != ""
    ensures Seal(protocol, binding, results, registry, commit, clean, created).Ok? <==>
      Validate(binding, results, registry).None? && ScoresOf(results.rows, Impostor) != []
  {
    if Validate(binding, results, registry).None? && ScoresOf(results.rows, Impostor) != [] {
      SealedCountsAreConsistent(protocol, binding, results, commit, clean, created);
    }
    SelectionIsOptimal(protocol.rate, results.direction, results.rows);
  }

  /** The places of one population's rows, failures among them. */
  ghost function PopulationIn(rows: seq<Row>, truth: Truth): set<nat> {
    set i: nat | i < |rows| && rows[i].truth == truth
  }

  lemma {:induction false} OneMoreAttempt(before: seq<Row>, row: Row, truth: Truth)
    ensures |PopulationIn(before + [row], truth)| ==
      |PopulationIn(before, truth)| + if row.truth == truth then 1 else 0
    ensures Attempts(before + [row], truth) == Attempts(before, truth) + if row.truth == truth then 1 else 0
  {
    assert forall i :: 0 <= i < |before| ==> (before + [row])[i] == before[i];
    OneMorePlace(PopulationIn(before, truth), PopulationIn(before + [row], truth), |before|);
    AttemptAdded(before, row, truth);
  }

  lemma {:induction false} AttemptAdded(before: seq<Row>, row: Row, truth: Truth)
    ensures Attempts(before + [row], truth) == Attempts(before, truth) + if row.truth == truth then 1 else 0
  {
    if before == [] {
      assert (before + [row])[1..] == [];
    } else {
      assert (before + [row])[1..] == before[1..] + [row];
      AttemptAdded(before[1..], row, truth);
    }
  }

  lemma {:induction false} AttemptsAreRows(rows: seq<Row>, truth: Truth)
    ensures Attempts(rows, truth) == |PopulationIn(rows, truth)|
  {
    if rows != [] {
      var before, row := rows[..|rows| - 1], rows[|rows| - 1];
      assert rows == before + [row];
      AttemptsAreRows(before, truth);
      OneMoreAttempt(before, row, truth);
    }
  }

  /** What a sealed body says of one population, by counting rows. */
  ghost predicate CountedRows(b: Body, rows: seq<Row>) {
    var boundary := Boundary(b.threshold, b.comparator);
    && b.impostorMatches == |MatchedIn(boundary, rows, Impostor)|
    && b.impostorScored == |ScoredIn(rows, Impostor)|
    && b.impostorAttempts == |PopulationIn(rows, Impostor)|
    && b.impostorFailures == |PopulationIn(rows, Impostor)| - |ScoredIn(rows, Impostor)|
    && b.matedMatches == |MatchedIn(boundary, rows, Mated)|
    && b.matedNonMatches == |ScoredIn(rows, Mated)| - |MatchedIn(boundary, rows, Mated)|
    && b.matedScored == |ScoredIn(rows, Mated)|
    && b.matedAttempts == |PopulationIn(rows, Mated)|
    && b.matedFailures == |PopulationIn(rows, Mated)| - |ScoredIn(rows, Mated)|
  }

  lemma {:induction false} SealedPopulation(boundary: Boundary, rows: seq<Row>, truth: Truth)
    ensures Count(boundary, ScoresOf(rows, truth)) == |MatchedIn(boundary, rows, truth)|
    ensures |ScoresOf(rows, truth)| == |ScoredIn(rows, truth)|
    ensures Attempts(rows, truth) == |PopulationIn(rows, truth)|
    ensures Failures(rows, truth) == |PopulationIn(rows, truth)| - |ScoredIn(rows, truth)|
  {
    CountsAreRows(boundary, rows, truth);
    AttemptsAreRows(rows, truth);
    AttemptsSplit(rows, truth);
  }

  /** The ceiling as a number. */
  ghost function Ceiling(protocol: Protocol): real
    requires protocol.rate.denominator > 0
  {
    protocol.rate.numerator as real / protocol.rate.denominator as real
  }

  /** Every field of a sealed point, by what it was sealed from: the artifacts, the boundary and the nine counts. */
  ghost predicate SealedFrom(b: Body, protocol: Protocol, binding: Binding, results: Labeled, commit: string,
                             clean: bool)
    requires protocol.rate.denominator > 0
  {
    && b.protocol == protocol && b.binding == binding && b.results == results && b.algorithm == binding.algorithm
    && b.pairs == PairsOf(results.rows) && b.truth == TruthOf(results.rows) && b.direction == results.direction
    && b.rateNumerator == protocol.rate.numerator && b.rateDenominator == protocol.rate.denominator
    && MostPermissive(Ceiling(protocol), results.direction, results.rows, Boundary(b.threshold, b.comparator))
    && CountedRows(b, results.rows) && b.commit == commit && b.clean == clean
  }

  lemma {:induction false} BodyIsSealedFrom(protocol: Protocol, binding: Binding, results: Labeled,
                                            registry: Option<set<string>>, commit: string, clean: bool)
    requires protocol.rate.denominator > 0
    requires Validate(binding, results, registry).None? && Select(protocol.rate, results.direction, results.rows).Ok?
    ensures var o := Select(protocol.rate, results.direction, results.rows).value;
      SealedFrom(BodyOf(protocol, binding, results, o, commit, clean), protocol, binding, results, commit, clean)
  {
    SelectionIsMostPermissive(protocol.rate, results.direction, results.rows);
    var o := Select(protocol.rate, results.direction, results.rows).value;
    SealedPopulation(o.boundary, results.rows, Impostor);
    SealedPopulation(o.boundary, results.rows, Mated);
  }

  /** `select_operating_point` seals the most permissive boundary within the ceiling, with its rows counted. */
  lemma {:induction false} SealsTheMostPermissive(protocol: Protocol, binding: Binding, results: Labeled,
                                                  registry: Option<set<string>>, commit: string, clean: bool,
                                                  created: string)
    requires ValidProtocol(protocol) && Sorted(results.rows) && created != ""
    requires Validate(binding, results, registry).None? && ScoresOf(results.rows, Impostor) != []
    ensures var sealed := Seal(protocol, binding, results, registry, commit, clean, created);
      && sealed.Ok? && sealed.value.fingerprint == sealed.value.body && sealed.value.created == created
      && SealedFrom(sealed.value.body, protocol, binding, results, commit, clean)
  {
    SealedCountsAreConsistent(protocol, binding, results, commit, clean, created);
    BodyIsSealedFrom(protocol, binding, results, registry, commit, clean);
  }

  /** A constructed point's fingerprint covers its body. */
  predicate Constructed(point: Point) {
    Construct(point.body, point.fingerprint, point.created) == Ok(point)
  }

  lemma {:induction false} SealIsConstructed(protocol: Protocol, binding: Binding, results: Labeled,
                                             registry: Option<set<string>>, commit: string, clean: bool,
                                             created: string)
    requires ValidProtocol(protocol) && Sorted(results.rows) && created != ""
    requires Seal(protocol, binding, results, registry, commit, clean, created).Ok?
    ensures var point := Seal(protocol, binding, results, registry, commit, clean, created).value;
      && Constructed(point) && point.fingerprint == point.body
      && point.body.commit == commit && point.body.clean == clean && point.created == created
      && Belongs(point, protocol, binding, results).None?
  {
    SealsExactlyWhenValid(protocol, binding, results, registry, commit, clean, created);
    SealedCountsAreConsistent(protocol, binding, results, commit, clean, created);
  }

  /**
   Round trip and its converse. A stored point verifies exactly when it is, field by field, the
   point that selecting and sealing again produces; the three flags then say the same thing.
   */
  lemma {:induction false} VerifiesExactlyWhatReseals(point: Point, protocol: Protocol, binding: Binding,
                                                      results: Labeled, registry: Option<set<string>>, report: Report)
    requires ValidProtocol(protocol) && Sorted(results.rows) && Constructed(point)
    requires Belongs(point, protocol, binding, results).None?
    requires Rederive(point, protocol, binding, results, registry).Ok?
    requires Reports(point, Rederive(point, protocol, binding, results, registry).value, report)
    ensures Verified(report) <==> Rederive(point, protocol, binding, results, registry) == Ok(point)
    ensures Verified(report) <==> report.fingerprint
  {
    var again := Rederive(point, protocol, binding, results, registry).value;
    SealIsConstructed(protocol, binding, results, registry, point.body.commit, point.body.clean, point.created);
    CoveredByFingerprint(point);
    FingerprintDecides(point, again, report);
  }

  lemma {:induction false} CoveredByFingerprint(point: Point)
    requires Constructed(point)
    ensures point.fingerprint == point.body
  {
  }

  /** Equal fingerprints leave no room for a difference in boundary or counts. */
  lemma {:induction false} FingerprintDecides(stored: Point, again: Point, report: Report)
    requires stored.fingerprint == stored.body && again.fingerprint == again.body && again.created == stored.created
    requires Reports(stored, again, report)
    ensures Verified(report) <==> report.fingerprint
    ensures report.fingerprint <==> again == stored
  {
  }

  /** A sealed point, verified against what it was sealed from, is reported verified. */
  method SealThenVerify(protocol: Protocol, binding: Binding, results: Labeled, registry: Option<set<string>>,
                        commit: string, clean: bool, created: string)
    returns (r: Result<Report, Refusal>)
    requires ValidProtocol(protocol) && Sorted(results.rows) && created != ""
    ensures r.Ok? <==> Validate(binding, results, registry).None? && ScoresOf(results.rows, Impostor) != []
    ensures r.Ok? ==> Verified(r.value)
  {
    SealsExactlyWhenValid(protocol, binding, results, registry, commit, clean, created);
    var sealed := Seal(protocol, binding, results, registry, commit, clean, created);
    if sealed.Err? { return Err(sealed.error); }
    SealIsConstructed(protocol, binding, results, registry, commit, clean, created);
    r := VerifyOperatingPoint(sealed.value, protocol, binding, results, registry);
    FingerprintDecides(sealed.value, sealed.value, r.value);
  }

  /** The fingerprint covers the commit and the state of the tree, and not the clock. */
  lemma {:induction false} FingerprintCoversTheCommit(protocol: Protocol, binding: Binding, results: Labeled,
                                                      registry: Option<set<string>>, commit: string, clean: bool,
                                                      created: string, commit': string, clean': bool,
                                                      created': string)
    requires ValidProtocol(protocol) && Sorted(results.rows) && created != "" && created' != ""
    requires Validate(binding, results, registry).None? && ScoresOf(results.rows, Impostor) != []
    ensures var p := Seal(protocol, binding, results, registry, commit, clean, created);
      var q := Seal(protocol, binding, results, registry, commit', clean', created');
      && p.Ok? && q.Ok?
      && (p.value.fingerprint == q.value.fingerprint <==> commit == commit' && clean == clean')
  {
    SealedCountsAreConsistent(protocol, binding, results, commit, clean, created);
    SealedCountsAreConsistent(protocol, binding, results, commit', clean', created');
  }

  /** A verified point is the one its inputs seal: the most permissive boundary, and its rows counted. */
  lemma {:induction false} VerifiedIsOptimal(point: Point, protocol: Protocol, binding: Binding, results: Labeled,
                                             registry: Option<set<string>>, report: Report)
    requires ValidProtocol(protocol) && Sorted(results.rows) && Constructed(point)
    requires Belongs(point, protocol, binding, results).None?
    requires Rederive(point, protocol, binding, results, registry).Ok?
    requires Reports(point, Rederive(point, protocol, binding, results, registry).value, report)
    requires Verified(report)
    ensures IsOptimal(protocol.rate, results.direction, ScoresOf(results.rows, Impostor),
                      Boundary(point.body.threshold, point.body.comparator))
    ensures SealedFrom(point.body, protocol, binding, results, point.body.commit, point.body.clean)
  {
    VerifiesExactlyWhatReseals(point, protocol, binding, results, registry, report);
    SealsExactlyWhenValid(protocol, binding, results, registry, point.body.commit, point.body.clean, point.created);
    SealedCountsAreConsistent(protocol, binding, results, point.body.commit, point.body.clean, point.created);
    BodyIsSealedFrom(protocol, binding, results, registry, point.body.commit, point.body.clean);
    SelectionIsOptimal(protocol.rate, results.direction, results.rows);
  }

  // -------------------------------------------------- the order rows arrive in

  lemma {:induction false} InsertRowKeeps(rows: seq<Row>, row: Row)
    ensures multiset(InsertRow(rows, row)) == multiset(rows) + multiset{row}
  {
    if rows != [] && row.pair > rows[0].pair {
      InsertRowKeeps(rows[1..], row);
      assert rows == [rows[0]] + rows[1..];
    }
  }

  lemma {:induction false} InsertRowSorted(rows: seq<Row>, row: Row)
    requires Sorted(rows) && forall i :: 0 <= i < |rows| ==> rows[i].pair != row.pair
    ensures Sorted(InsertRow(rows, row))
  {
    if rows != [] && row.pair > rows[0].pair {
      var r := InsertRow(rows[1..], row);
      InsertRowSorted(rows[1..], row);
      InsertRowKeeps(rows[1..], row);
      forall i | 0 <= i < |r| ensures rows[0].pair < r[i].pair {
        assert r[i] in multiset(r);
        assert r[i] == row || r[i] in rows[1..];
      }
    }
  }

  lemma {:induction false} SortRowsSorted(rows: seq<Row>)
    requires Distinct(rows)
    ensures Sorted(SortRows(rows)) && multiset(SortRows(rows)) == multiset(rows)
  {
    if rows != [] {
      var r := SortRows(rows[1..]);
      SortRowsSorted(rows[1..]);
      assert rows == [rows[0]] + rows[1..];
      forall i | 0 <= i < |r| ensures r[i].pair != rows[0].pair {
        assert r[i] in multiset(r);
      }
      InsertRowSorted(r, rows[0]);
      InsertRowKeeps(r, rows[0]);
    }
  }

  lemma {:induction false} TailOf(s: seq<Row>)
    requires s != []
    ensures multiset(s[1..]) == multiset(s) - multiset{s[0]}
  {
    assert s == [s[0]] + s[1..];
  }

  lemma {:induction false} FirstIsLeast(s: seq<Row>, row: Row)
    requires Sorted(s) && row in multiset(s)
    ensures s != [] && (row == s[0] || s[0].pair < row.pair)
  {
  }

  lemma {:induction false} SortedUnique(s: seq<Row>, t: seq<Row>)
    requires Sorted(s) && Sorted(t) && multiset(s) == multiset(t)
    ensures s == t
  {
    if s != [] && t != [] {
      assert s[0] in multiset(s) && t[0] in multiset(t);
      FirstIsLeast(s, t[0]);
      FirstIsLeast(t, s[0]);
      TailOf(s);
      TailOf(t);
      SortedUnique(s[1..], t[1..]);
    } else {
      assert |multiset(s)| == |s| && |multiset(t)| == |t|;
    }
  }

  /** The same comparisons in any order make one labelled body, hash and all: that direction, those rows, sorted. */
  lemma {:induction false} LabelIgnoresOrder(dir: Direction, rows: seq<Row>, others: seq<Row>)
    requires multiset(rows) == multiset(others) && Distinct(rows) && Distinct(others)
    ensures Label(dir, rows) == Label(dir, others)
    ensures Label(dir, rows).value.direction == dir
    ensures Sorted(Label(dir, rows).value.rows) && multiset(Label(dir, rows).value.rows) == multiset(rows)
  {
    SortRowsSorted(rows);
    SortRowsSorted(others);
    SortedUnique(SortRows(rows), SortRows(others));
  }
}
