/**
 The only way into a calibration: a sealed result set, its raw records and the ground truth, joined
 exactly. A digest is modelled by the content it covers, so an entry holds the record it was sealed
 over, and the manifest the entries and counts its fingerprints cover.
 */
module CalibrationSource {
  import opened Results
  import opened Scores
  import opened Calibration
  import opened SelectionTheorems
  import opened OperatingPoints

  type Job = string

  datatype Record = Record(job: Job, run: string, pair: nat, attempt: Attempt, algorithm: string,
                           cohort: string, pairManifest: string, direction: Direction, timings: string)

  datatype Entry = Entry(ordinal: int, job: Job, sealed: Record)

  /** What the result-set fingerprint covers besides the identities of run, plan and runtime. */
  datatype Covered = Covered(provenance: string, entries: seq<Entry>, successes: nat, failures: nat)

  datatype Manifest = Manifest(run: string, provenance: string, total: nat, successes: nat, failures: nat,
                               ordered: seq<Entry>, fingerprint: Covered)

  datatype Verified = Verified(results: Labeled, algorithm: string, cohort: string, pairManifest: string)

  datatype SourceError =
    | WrongTotal | WrongOrdinals | RepeatedJob | WrongOrderedHash | WrongFingerprint
    | RepeatedRecord | WrongCover | WrongRun | WrongHash | Unlabelled
    | RepeatedPair | StrayTruth | WrongCounts | MixedIdentities | Refused

  // ---- what an exact join is ----

  predicate DistinctJobs(jobs: seq<Job>) {
    forall i, j :: 0 <= i < j < |jobs| ==> jobs[i] != jobs[j]
  }

  function EntryJobs(entries: seq<Entry>): (r: seq<Job>)
    ensures |r| == |entries| && forall i :: 0 <= i < |r| ==> r[i] == entries[i].job
  {
    seq(|entries|, i requires 0 <= i < |entries| => entries[i].job)
  }

  function RecordJobs(records: seq<Record>): (r: seq<Job>)
    ensures |r| == |records| && forall i :: 0 <= i < |r| ==> r[i] == records[i].job
  {
    seq(|records|, i requires 0 <= i < |records| => records[i].job)
  }

  predicate Numbered(entries: seq<Entry>) {
    forall i :: 0 <= i < |entries| ==> entries[i].ordinal == i
  }

  /** One record for each entry, its own, of this run, with a label; and nothing over. */
  ghost predicate Corresponds(m: Manifest, entries: seq<Entry>, records: seq<Record>, truths: map<nat, Truth>) {
    && DistinctJobs(EntryJobs(entries)) && DistinctJobs(RecordJobs(records))
    && (forall r :: r in records <==> exists i :: 0 <= i < |entries| && entries[i].sealed == r)
    && forall i :: 0 <= i < |entries| ==> Fits(m, entries[i], truths)
  }

  predicate Fits(m: Manifest, e: Entry, truths: map<nat, Truth>) {
    e.sealed.job == e.job && e.sealed.run == m.run && e.sealed.pair in truths
  }

  function RowsOf(entries: seq<Entry>, truths: map<nat, Truth>): (r: seq<Row>)
    requires forall i :: 0 <= i < |entries| ==> entries[i].sealed.pair in truths
    ensures |r| == |entries|
    ensures forall i :: 0 <= i < |r| ==>
      r[i] == Row(entries[i].sealed.pair, truths[entries[i].sealed.pair], entries[i].sealed.attempt)
  {
    seq(|entries|, i requires 0 <= i < |entries| =>
      Row(entries[i].sealed.pair, truths[entries[i].sealed.pair], entries[i].sealed.attempt))
  }

  function PairSet(entries: seq<Entry>): set<nat> {
    set e <- entries :: e.sealed.pair
  }

  ghost predicate DistinctPairs(entries: seq<Entry>) {
    forall i, j :: 0 <= i < j < |entries| ==> entries[i].sealed.pair != entries[j].sealed.pair
  }

  /** How many entries were sealed over a score. */
  ghost function Successes(entries: seq<Entry>): nat {
    |ScoredAt(entries)|
  }

  ghost function ScoredAt(entries: seq<Entry>): set<nat> {
    set i: nat | i < |entries| && entries[i].sealed.attempt.Scored?
  }

  lemma {:induction false} SuccessesGrow(before: seq<Entry>, e: Entry)
    ensures Successes(before + [e]) == Successes(before) + if e.sealed.attempt.Scored? then 1 else 0
  {
    assert forall i :: 0 <= i < |before| ==> (before + [e])[i] == before[i];
    OneMorePlace(ScoredAt(before), ScoredAt(before + [e]), |before|);
  }

  ghost predicate Uniform(entries: seq<Entry>) {
    forall i :: 0 <= i < |entries| ==> Kin(entries[i].sealed, entries[0].sealed)
  }

  predicate Kin(a: Record, b: Record) {
    a.algorithm == b.algorithm && a.cohort == b.cohort && a.pairManifest == b.pairManifest && a.direction == b.direction
  }

  /** The set is the one its manifest was sealed over, numbered from nought. */
  ghost predicate SealedInOrder(m: Manifest, entries: seq<Entry>) {
    && |entries| == m.total && m.ordered == entries
    && m.fingerprint == Covered(m.provenance, entries, m.successes, m.failures)
    && forall i :: 0 <= i < |entries| ==> entries[i].ordinal == i
  }

  ghost predicate Joins(m: Manifest, entries: seq<Entry>, records: seq<Record>, truths: map<nat, Truth>) {
    && SealedInOrder(m, entries) && entries != []
    && Corresponds(m, entries, records, truths)
    && Balances(m, entries, truths)
  }

  /** Each pair once, all of them labelled and no other, the counts the manifest's, one identity throughout. */
  ghost predicate Balances(m: Manifest, entries: seq<Entry>, truths: map<nat, Truth>) {
    && DistinctPairs(entries) && truths.Keys == PairSet(entries) && Uniform(entries)
    && m.successes == Successes(entries) && m.failures == |entries| - Successes(entries)
  }

  // ---- the algorithm ----

  /** `records_by_job`. */
  method IndexRecords(records: seq<Record>) returns (byJob: Option<map<Job, Record>>)
    ensures byJob.Some? <==> DistinctJobs(RecordJobs(records))
    ensures byJob.Some? ==> Indexes(byJob.value, records)
  {
    var index: map<Job, Record> := map[];
    for n := 0 to |records|
      invariant DistinctJobs(RecordJobs(records[..n]))
      invariant Indexes(index, records[..n])
    {
      var r := records[n];
      assert records[..n + 1] == records[..n] + [r];
      if r.job in index {
        RepeatedJobFound(index, records, n);
        return None;
      }
      IndexGrows(index, records, n);
      index := index[r.job := r];
    }
    assert records[..|records|] == records;
    byJob := Some(index);
  }

  ghost predicate Indexes(index: map<Job, Record>, records: seq<Record>) {
    && (forall job :: job in index ==> index[job] in records && index[job].job == job)
    && (forall r :: r in records ==> r.job in index && index[r.job] == r)
  }

  lemma {:induction false} RepeatedJobFound(index: map<Job, Record>, records: seq<Record>, n: nat)
    requires n < |records| && Indexes(index, records[..n]) && records[n].job in index
    ensures !DistinctJobs(RecordJobs(records))
  {
  }

  lemma {:induction false} IndexGrows(index: map<Job, Record>, records: seq<Record>, n: nat)
    requires n < |records| && Indexes(index, records[..n]) && records[n].job !in index
    requires DistinctJobs(RecordJobs(records[..n]))
    ensures Indexes(index[records[n].job := records[n]], records[..n + 1])
    ensures DistinctJobs(RecordJobs(records[..n + 1]))
  {
    var r, before, done := records[n], records[..n], records[..n + 1];
    assert done == before + [r];
    var jobs := RecordJobs(done);
    forall i, j | 0 <= i < j < |jobs| ensures jobs[i] != jobs[j] {
      assert before[i] in before;
      if j < n {
        assert RecordJobs(before)[i] != RecordJobs(before)[j];
      }
    }
  }

  /** The identities met so far and the rows built from them. */
  datatype Tally = Tally(rows: seq<Row>, pairs: set<nat>, repeated: bool, successes: nat, failures: nat,
                         identities: set<(string, string, string, Direction)>)

  ghost predicate Tallies(t: Tally, entries: seq<Entry>, truths: map<nat, Truth>) {
    TalliesRows(t, entries, truths) && TalliesCounts(t, entries)
  }

  ghost predicate TalliesRows(t: Tally, entries: seq<Entry>, truths: map<nat, Truth>) {
    && (forall i :: 0 <= i < |entries| ==> entries[i].sealed.pair in truths)
    && t.rows == RowsOf(entries, truths)
  }

  ghost predicate TalliesCounts(t: Tally, entries: seq<Entry>) {
    && t.pairs == PairSet(entries) && (t.repeated <==> !DistinctPairs(entries))
    && t.successes == Successes(entries) && t.failures == |entries| - Successes(entries)
    && t.identities == Identities(entries)
  }

  function Identities(entries: seq<Entry>): set<(string, string, string, Direction)> {
    set e <- entries :: IdentityOf(e.sealed)
  }

  function IdentityOf(r: Record): (string, string, string, Direction) {
    (r.algorithm, r.cohort, r.pairManifest, r.direction)
  }

  function Add(t: Tally, r: Record, truth: Truth): Tally {
    Tally(t.rows + [Row(r.pair, truth, r.attempt)], t.pairs + {r.pair}, t.repeated || r.pair in t.pairs,
          t.successes + (if r.attempt.Scored? then 1 else 0), t.failures + (if r.attempt.Scored? then 0 else 1),
          t.identities + {IdentityOf(r)})
  }

  lemma {:induction false} TallyGrows(t: Tally, entries: seq<Entry>, truths: map<nat, Truth>, n: nat)
    requires n < |entries| && Tallies(t, entries[..n], truths) && entries[n].sealed.pair in truths
    ensures Tallies(Add(t, entries[n].sealed, truths[entries[n].sealed.pair]), entries[..n + 1], truths)
  {
    assert entries[..n + 1] == entries[..n] + [entries[n]];
    TallyOfMore(t, entries[..n], truths, entries[n]);
  }

  lemma {:induction false} TallyOfMore(t: Tally, before: seq<Entry>, truths: map<nat, Truth>, e: Entry)
    requires Tallies(t, before, truths) && e.sealed.pair in truths
    ensures Tallies(Add(t, e.sealed, truths[e.sealed.pair]), before + [e], truths)
  {
    CountsOfMore(t, before, truths[e.sealed.pair], e);
    RowsGrow(before, truths, e);
  }

  lemma {:induction false} CountsOfMore(t: Tally, before: seq<Entry>, truth: Truth, e: Entry)
    requires TalliesCounts(t, before)
    ensures TalliesCounts(Add(t, e.sealed, truth), before + [e])
  {
    RepetitionGrows(before, e);
    PairSetGrows(before, e);
    IdentitiesGrow(before, e);
    SuccessesGrow(before, e);
  }

  lemma {:induction false} RowsGrow(before: seq<Entry>, truths: map<nat, Truth>, e: Entry)
    requires (forall i :: 0 <= i < |before| ==> before[i].sealed.pair in truths) && e.sealed.pair in truths
    ensures forall i :: 0 <= i < |before + [e]| ==> (before + [e])[i].sealed.pair in truths
    ensures RowsOf(before + [e], truths) ==
      RowsOf(before, truths) + [Row(e.sealed.pair, truths[e.sealed.pair], e.sealed.attempt)]
  {
  }

  lemma {:induction false} IdentitiesGrow(before: seq<Entry>, e: Entry)
    ensures Identities(before + [e]) == Identities(before) + {IdentityOf(e.sealed)}
  {
  }

  lemma {:induction false} PairSetGrows(before: seq<Entry>, e: Entry)
    ensures PairSet(before + [e]) == PairSet(before) + {e.sealed.pair}
  {
  }

  lemma {:induction false} RepetitionGrows(before: seq<Entry>, e: Entry)
    ensures DistinctPairs(before + [e]) <==> DistinctPairs(before) && e.sealed.pair !in PairSet(before)
  {
    var done, n := before + [e], |before|;
    assert forall i :: 0 <= i < n ==> done[i] == before[i];
    if DistinctPairs(before) && e.sealed.pair !in PairSet(before) {
      forall i, j | 0 <= i < j < |done| ensures done[i].sealed.pair != done[j].sealed.pair {
        assert before[i] in before;
        if j < n { assert before[i].sealed.pair != before[j].sealed.pair; }
      }
    }
    if e.sealed.pair in PairSet(before) {
      var i :| 0 <= i < n && before[i].sealed.pair == e.sealed.pair;
      assert done[i].sealed.pair == done[n].sealed.pair;
    }
    if !DistinctPairs(before) {
      var i, j :| 0 <= i < j < n && before[i].sealed.pair == before[j].sealed.pair;
      assert done[i].sealed.pair == done[j].sealed.pair;
    }
  }

  ghost predicate Joined(m: Manifest, entries: seq<Entry>, byJob: map<Job, Record>, truths: map<nat, Truth>, t: Tally) {
    AllAccept(m, entries, byJob, truths) && Tallies(t, entries, truths)
  }

  lemma {:induction false} JoinedGrows(m: Manifest, entries: seq<Entry>, byJob: map<Job, Record>,
                                       truths: map<nat, Truth>, t: Tally, n: nat)
    requires n < |entries| && Joined(m, entries[..n], byJob, truths, t) && Accepts(m, entries[n], byJob, truths)
    ensures Joined(m, entries[..n + 1], byJob, truths, Add(t, entries[n].sealed, truths[entries[n].sealed.pair]))
  {
    TallyGrows(t, entries, truths, n);
    var done := entries[..n + 1];
    forall i | 0 <= i < |done| ensures Accepts(m, done[i], byJob, truths) {
      if i < n { assert Accepts(m, entries[..n][i], byJob, truths); }
    }
  }

  /** One entry against the record of its job. */
  function CheckEntry(m: Manifest, e: Entry, record: Record, truths: map<nat, Truth>): (r: Option<SourceError>)
    ensures r.None? <==> record == e.sealed && e.sealed.run == m.run && e.sealed.pair in truths
    ensures r != Some(Refused)
  {
    if record.run != m.run then Some(WrongRun)
    else if record != e.sealed then Some(WrongHash)
    else if record.pair !in truths then Some(Unlabelled)
    else None
  }

  /** The loop over the entries. */
  method JoinEntries(m: Manifest, entries: seq<Entry>, byJob: map<Job, Record>, truths: map<nat, Truth>)
    returns (r: Result<Tally, SourceError>)
    requires byJob.Keys == set e <- entries :: e.job
    ensures r.Ok? <==> AllAccept(m, entries, byJob, truths)
    ensures r != Err(Refused)
    ensures r.Ok? ==> Tallies(r.value, entries, truths)
  {
    var t := Tally([], {}, false, 0, 0, {});
    for n := 0 to |entries|
      invariant Joined(m, entries[..n], byJob, truths, t)
    {
      var e := entries[n];
      assert e in entries;
      var record := byJob[e.job];
      var wrong := CheckEntry(m, e, record, truths);
      if wrong.Some? { return Err(wrong.value); }
      JoinedGrows(m, entries, byJob, truths, t, n);
      t := Add(t, record, truths[record.pair]);
    }
    assert entries[..|entries|] == entries;
    r := Ok(t);
  }

  predicate Accepts(m: Manifest, e: Entry, byJob: map<Job, Record>, truths: map<nat, Truth>) {
    e.job in byJob && byJob[e.job] == e.sealed && e.sealed.run == m.run && e.sealed.pair in truths
  }

  ghost predicate AllAccept(m: Manifest, entries: seq<Entry>, byJob: map<Job, Record>, truths: map<nat, Truth>) {
    forall i :: 0 <= i < |entries| ==> Accepts(m, entries[i], byJob, truths)
  }

  /** Over distinct jobs that cover one another, reading each entry's own record is a one-to-one correspondence. */
  lemma {:induction false} CoverIsCorrespondence(m: Manifest, entries: seq<Entry>, records: seq<Record>,
                                                 byJob: map<Job, Record>, truths: map<nat, Truth>)
    requires DistinctJobs(EntryJobs(entries)) && DistinctJobs(RecordJobs(records)) && Indexes(byJob, records)
    ensures Corresponds(m, entries, records, truths) <==>
      (byJob.Keys == (set e <- entries :: e.job) && AllAccept(m, entries, byJob, truths))
  {
    if Corresponds(m, entries, records, truths) {
      forall i | 0 <= i < |entries| ensures Accepts(m, entries[i], byJob, truths) {
        assert Fits(m, entries[i], truths) && entries[i].sealed in records;
      }
      forall job ensures job in byJob <==> job in set e <- entries :: e.job {
        if job in byJob {
          var i :| 0 <= i < |entries| && entries[i].sealed == byJob[job];
          assert Fits(m, entries[i], truths) && entries[i] in entries;
        }
      }
    } else if byJob.Keys == (set e <- entries :: e.job) && AllAccept(m, entries, byJob, truths) {
      forall r ensures r in records <==> exists i :: 0 <= i < |entries| && entries[i].sealed == r {
        if r in records {
          assert r.job in byJob.Keys;
          var i :| 0 <= i < |entries| && entries[i].job == r.job;
          assert Accepts(m, entries[i], byJob, truths);
        }
        if exists i :: 0 <= i < |entries| && entries[i].sealed == r {
          var i :| 0 <= i < |entries| && entries[i].sealed == r;
          assert Accepts(m, entries[i], byJob, truths);
        }
      }
      forall i | 0 <= i < |entries| ensures Fits(m, entries[i], truths) {
        assert Accepts(m, entries[i], byJob, truths);
      }
    }
  }

  lemma {:induction false} OneIdentityIffUniform(entries: seq<Entry>)
    requires entries != []
    ensures |Identities(entries)| == 1 <==> Uniform(entries)
  {
    var all := Identities(entries);
    var first := IdentityOf(entries[0].sealed);
    assert entries[0] in entries && first in all;
    assert forall e :: e in entries ==> IdentityOf(e.sealed) in all;
    if |all| == 1 {
      assert |all - {first}| == 0;
      forall i | 0 <= i < |entries| ensures Kin(entries[i].sealed, entries[0].sealed) {
        assert IdentityOf(entries[i].sealed) in all;
      }
    }
    if Uniform(entries) {
      forall identity | identity in all ensures identity == first {
        var i :| 0 <= i < |entries| && IdentityOf(entries[i].sealed) == identity;
        assert Kin(entries[i].sealed, entries[0].sealed);
      }
      assert all == {first};
    }
  }

  lemma {:induction false} RowsDistinct(entries: seq<Entry>, truths: map<nat, Truth>)
    requires forall i :: 0 <= i < |entries| ==> entries[i].sealed.pair in truths
    ensures DistinctPairs(entries) ==> Distinct(RowsOf(entries, truths))
  {
  }

  predicate Settles(m: Manifest, t: Tally, truths: map<nat, Truth>) {
    && !t.repeated && truths.Keys == t.pairs && |t.identities| == 1
    && t.successes == m.successes && t.failures == m.failures
  }

  /** The counters and sets compared after the loop, in order. */
  function CheckTally(m: Manifest, t: Tally, truths: map<nat, Truth>): (r: Option<SourceError>)
    ensures r.None? <==> Settles(m, t, truths)
    ensures r != Some(Refused)
  {
    if t.repeated then Some(SourceError.RepeatedPair)
    else if truths.Keys != t.pairs then Some(StrayTruth)
    else if (t.successes, t.failures) != (m.successes, m.failures) then Some(WrongCounts)
    else if |t.identities| != 1 then Some(MixedIdentities)
    else None
  }

  lemma {:induction false} TallyBalances(m: Manifest, entries: seq<Entry>, t: Tally, truths: map<nat, Truth>)
    requires entries != [] && Tallies(t, entries, truths)
    ensures CheckTally(m, t, truths).None? <==> Balances(m, entries, truths)
  {
    OneIdentityIffUniform(entries);
  }

  function Conclude(t: Tally, first: Record): Result<Verified, SourceError> {
    match Label(first.direction, t.rows)
    case None => Err(Refused)
    case Some(results) => Ok(Verified(results, first.algorithm, first.cohort, first.pairManifest))
  }

  lemma {:induction false} ConcludeCarries(entries: seq<Entry>, t: Tally, truths: map<nat, Truth>)
    requires entries != [] && Tallies(t, entries, truths) && DistinctPairs(entries)
    ensures Conclude(t, entries[0].sealed).Ok? && Carries(Conclude(t, entries[0].sealed).value, entries, truths)
  {
    RowsDistinct(entries, truths);
    SortRowsSorted(t.rows);
  }

  /** Row for row the entries' own records with their own labels, under the identities they share. */
  ghost predicate Carries(v: Verified, entries: seq<Entry>, truths: map<nat, Truth>) {
    && entries != [] && (forall i :: 0 <= i < |entries| ==> entries[i].sealed.pair in truths)
    && v.results.direction == entries[0].sealed.direction
    && Sorted(v.results.rows) && multiset(v.results.rows) == multiset(RowsOf(entries, truths))
    && v.algorithm == entries[0].sealed.algorithm && v.cohort == entries[0].sealed.cohort
    && v.pairManifest == entries[0].sealed.pairManifest
  }

  /** The checks on the set itself, in order. */
  function CheckSet(m: Manifest, entries: seq<Entry>): (r: Option<SourceError>)
    ensures r.None? <==> SealedInOrder(m, entries) && DistinctJobs(EntryJobs(entries))
    ensures r != Some(Refused)
  {
    if |entries| != m.total then Some(WrongTotal)
    else if !Numbered(entries) then Some(WrongOrdinals)
    else if !DistinctJobs(EntryJobs(entries)) then Some(RepeatedJob)
    else if m.ordered != entries then Some(WrongOrderedHash)
    else if m.fingerprint != Covered(m.provenance, entries, m.successes, m.failures) then
      Some(SourceError.WrongFingerprint)
    else None
  }

  /** The join proper: every entry against its record, then the tally against the manifest. */
  method JoinRecords(m: Manifest, entries: seq<Entry>, byJob: map<Job, Record>, truths: map<nat, Truth>)
    returns (r: Result<Verified, SourceError>)
    requires entries != [] && byJob.Keys == set e <- entries :: e.job
    ensures r.Ok? <==> AllAccept(m, entries, byJob, truths) && Balances(m, entries, truths)
    ensures r.Ok? ==> Carries(r.value, entries, truths)
    ensures r != Err(Refused)
  {
    var t := JoinEntries(m, entries, byJob, truths);
    if t.Err? { return Err(t.error); }
    TallyBalances(m, entries, t.value, truths);
    var wrong := CheckTally(m, t.value, truths);
    if wrong.Some? { return Err(wrong.value); }
    ConcludeCarries(entries, t.value, truths);
    r := Conclude(t.value, entries[0].sealed);
  }

  /** `verify_result_set_for_calibration`: it accepts exactly the exact joins. A manifest is never of nothing. */
  method VerifyResultSet(m: Manifest, entries: seq<Entry>, records: seq<Record>, truths: map<nat, Truth>)
    returns (r: Result<Verified, SourceError>)
    requires m.total > 0
    ensures r.Ok? <==> Joins(m, entries, records, truths)
    ensures r.Ok? ==> Carries(r.value, entries, truths)
    ensures r != Err(Refused)
  {
    var wrong := CheckSet(m, entries);
    if wrong.Some? { return Err(wrong.value); }
    var byJob := IndexRecords(records);
    if byJob.None? { return Err(RepeatedRecord); }
    CoverIsCorrespondence(m, entries, records, byJob.value, truths);
    if byJob.value.Keys != (set e <- entries :: e.job) { return Err(WrongCover); }
    r := JoinRecords(m, entries, byJob.value, truths);
  }

  // ---- what a join gives ----

  /** Distinct jobs, said of the records whatever their order. */
  lemma {:induction false} DistinctJobsByMultiset(s: seq<Record>)
    ensures DistinctJobs(RecordJobs(s)) <==>
      && (forall r :: r in s ==> multiset(s)[r] <= 1)
      && (forall a, b :: a in s && b in s && a.job == b.job ==> a == b)
  {
    var jobs := RecordJobs(s);
    if DistinctJobs(jobs) {
      forall r | r in s ensures multiset(s)[r] <= 1 { OnceIn(s, r); }
      forall a, b | a in s && b in s && a.job == b.job ensures a == b {
        var i :| 0 <= i < |s| && s[i] == a;
        var j :| 0 <= j < |s| && s[j] == b;
        assert jobs[i] == jobs[j];
      }
    }
    if (forall r :: r in s ==> multiset(s)[r] <= 1) && (forall a, b :: a in s && b in s && a.job == b.job ==> a == b) {
      forall i, j | 0 <= i < j < |jobs| ensures jobs[i] != jobs[j] {
        assert s[i] in s && s[j] in s;
        if s[i] == s[j] { TwiceIn(s, i, j); }
      }
    }
  }

  /** The order in which raw records are handed over does not matter. */
  lemma {:induction false} RecordOrderIsInvisible(m: Manifest, entries: seq<Entry>, a: seq<Record>, b: seq<Record>,
                                                  truths: map<nat, Truth>)
    requires multiset(a) == multiset(b)
    ensures Joins(m, entries, a, truths) <==> Joins(m, entries, b, truths)
  {
    assert forall r :: r in a <==> r in b by {
      forall r ensures r in a <==> r in b { assert r in a <==> r in multiset(a); }
    }
    DistinctJobsByMultiset(a);
    DistinctJobsByMultiset(b);
  }

  lemma {:induction false} TwiceIn(s: seq<Record>, i: nat, j: nat)
    requires i < j < |s| && s[i] == s[j]
    ensures multiset(s)[s[i]] >= 2
  {
    assert s == s[..j] + s[j..] && s[..j][i] == s[i] && s[j..][0] == s[j];
    assert s[i] in multiset(s[..j]) && s[i] in multiset(s[j..]);
  }

  lemma {:induction false} OnceIn(s: seq<Record>, r: Record)
    requires DistinctJobs(RecordJobs(s))
    ensures multiset(s)[r] <= 1
  {
    if s != [] {
      var n := |s| - 1;
      assert s == s[..n] + [s[n]];
      assert forall i :: 0 <= i < n ==> RecordJobs(s[..n])[i] == RecordJobs(s)[i];
      OnceIn(s[..n], r);
      if r in s[..n] {
        var i :| 0 <= i < n && s[..n][i] == r;
        assert RecordJobs(s)[i] != RecordJobs(s)[n];
      } else {
        assert r !in multiset(s[..n]);
      }
    }
  }

  /** Every label finds exactly one entry and one raw record, every record one label: the join is one to one. */
  lemma {:induction false} JoinIsOneToOne(m: Manifest, entries: seq<Entry>, records: seq<Record>,
                                          truths: map<nat, Truth>)
    requires Joins(m, entries, records, truths)
    ensures forall pair :: pair in truths ==> exists i :: 0 <= i < |entries| && entries[i].sealed.pair == pair
    ensures forall a, b :: a in records && b in records && (a.pair == b.pair || a.job == b.job) ==> a == b
    ensures forall a :: a in records ==> a.pair in truths
    ensures |records| == |entries| == |truths| == m.successes + m.failures
  {
    forall pair | pair in truths ensures exists i :: 0 <= i < |entries| && entries[i].sealed.pair == pair {
      assert pair in PairSet(entries);
    }
    forall a, b | a in records && b in records && (a.pair == b.pair || a.job == b.job) ensures a == b {
      RecordsDiffer(m, entries, records, truths, a, b);
    }
    forall a | a in records ensures a.pair in truths {
      var i :| 0 <= i < |entries| && entries[i].sealed == a;
      assert Fits(m, entries[i], truths);
    }
    SizesAgree(m, entries, records, truths);
  }

  lemma {:induction false} RecordsDiffer(m: Manifest, entries: seq<Entry>, records: seq<Record>,
                                         truths: map<nat, Truth>, a: Record, b: Record)
    requires Corresponds(m, entries, records, truths) && DistinctPairs(entries)
    requires a in records && b in records && (a.pair == b.pair || a.job == b.job)
    ensures a == b
  {
  }

  function SetOf(jobs: seq<Job>): set<Job> {
    set j <- jobs :: j
  }

  lemma {:induction false} SizesAgree(m: Manifest, entries: seq<Entry>, records: seq<Record>, truths: map<nat, Truth>)
    requires Joins(m, entries, records, truths)
    ensures |records| == |entries| == |truths|
  {
    PairSetSize(entries);
    assert |truths.Keys| == |truths|;
    JobSetSize(EntryJobs(entries));
    JobSetSize(RecordJobs(records));
    SameJobs(m, entries, records, truths);
  }

  lemma {:induction false} SameJobs(m: Manifest, entries: seq<Entry>, records: seq<Record>, truths: map<nat, Truth>)
    requires Corresponds(m, entries, records, truths)
    ensures SetOf(EntryJobs(entries)) == SetOf(RecordJobs(records))
  {
    var a, b := EntryJobs(entries), RecordJobs(records);
    forall j | j in a ensures j in b {
      var i :| 0 <= i < |entries| && entries[i].job == j;
      assert Fits(m, entries[i], truths) && entries[i].sealed in records;
      var k :| 0 <= k < |records| && records[k] == entries[i].sealed;
      assert b[k] == j;
    }
    forall j | j in b ensures j in a {
      var k :| 0 <= k < |records| && records[k].job == j;
      assert records[k] in records;
      var i :| 0 <= i < |entries| && entries[i].sealed == records[k];
      assert Fits(m, entries[i], truths) && a[i] == j;
    }
  }

  lemma {:induction false} SetOfGrows(before: seq<Job>, j: Job)
    ensures SetOf(before + [j]) == SetOf(before) + {j}
  {
    var a, b := SetOf(before + [j]), SetOf(before) + {j};
    forall x ensures x in a <==> x in b {
      assert x in before + [j] <==> x in before || x == j;
    }
  }

  lemma {:induction false} JobSetSize(jobs: seq<Job>)
    requires DistinctJobs(jobs)
    ensures |SetOf(jobs)| == |jobs|
  {
    if jobs != [] {
      var n := |jobs| - 1;
      var before, last := jobs[..n], jobs[n];
      JobSetSize(before);
      SetOfGrows(before, last);
      assert jobs == before + [last];
      assert last !in SetOf(before);
      assert SetOf(jobs) == SetOf(before) + {last};
    }
  }

  lemma {:induction false} PairSetSize(entries: seq<Entry>)
    requires DistinctPairs(entries)
    ensures |PairSet(entries)| == |entries|
  {
    if entries != [] {
      var n := |entries| - 1;
      var before, e := entries[..n], entries[n];
      assert entries == before + [e];
      RepetitionGrows(before, e);
      PairSetSize(before);
      PairSetGrows(before, e);
    }
  }
}
