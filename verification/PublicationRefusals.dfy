/**
 What a refusal says about the bytes on disk. A conflict between digests means that they differ; a wait
 that timed out and a loop that ran out of attempts mean nothing of the kind, and both are reached only
 by writers that publish by claim.
 */
module PublicationRefusals {
  import opened Publication
  import opened PublicationSafety
  import opened PublicationRuns

  /** Two writers on a file system without hard links. */
  predicate Rivals(jobs: seq<Job>, i: nat, j: nat) {
    i < |jobs| && j < |jobs| && i != j && !jobs[i].links && !jobs[j].links
  }

  /** Rivals with one payload. */
  predicate Twins(jobs: seq<Job>, i: nat, j: nat) {
    Rivals(jobs, i, j) && jobs[i].payload == jobs[j].payload
  }

  function Tried(s: State, j: nat, tries: nat): State
    requires j < |s.writers|
  {
    s.(writers := s.writers[j := s.writers[j].(tries := tries)])
  }

  function Spin(j: nat): seq<Label> {
    [Act(j, ClaimDenied)] + [Act(j, PollTarget)] + [Act(j, PollClaim)]
  }

  function Spins(j: nat, n: nat): seq<Label> {
    if n == 0 then [] else Spins(j, n - 1) + Spin(j)
  }

  /** A refused claim, no target and no claim to be seen: back to the head of the loop. */
  lemma {:induction false} SpinOnce(jobs: seq<Job>, s: State, j: nat) returns (t: State)
    requires Matches(jobs, s) && j < |jobs| && s.writers[j].pc.Claiming? && s.writers[j].tries < CLAIM_ATTEMPTS
    requires Target !in s.names && Claim !in s.names
    ensures Possible(jobs, s, Spin(j)) && SpacedRun(jobs, s, Spin(j), TICKETS)
    ensures t == Exec(jobs, s, Spin(j)) == Tried(s, j, s.writers[j].tries + 1)
  {
    t := Extend(jobs, s, [], Act(j, ClaimDenied), TICKETS);
    assert [] + [Act(j, ClaimDenied)] == [Act(j, ClaimDenied)];
    t := Extend(jobs, s, [Act(j, ClaimDenied)], Act(j, PollTarget), TICKETS);
    t := Extend(jobs, s, [Act(j, ClaimDenied)] + [Act(j, PollTarget)], Act(j, PollClaim), TICKETS);
    assert t.writers == Tried(s, j, s.writers[j].tries + 1).writers;
  }

  /** One refusal more after a run that spent `n` attempts. */
  lemma {:induction false} SpinFurther(jobs: seq<Job>, s: State, j: nat, n: nat, run: seq<Label>) returns (t: State)
    requires Matches(jobs, s) && j < |jobs| && n < CLAIM_ATTEMPTS && s.writers[j].pc.Claiming?
    requires Target !in s.names && Claim !in s.names
    requires Possible(jobs, s, run) && SpacedRun(jobs, s, run, TICKETS) && Exec(jobs, s, run) == Tried(s, j, n)
    ensures Possible(jobs, s, run + Spin(j)) && SpacedRun(jobs, s, run + Spin(j), TICKETS)
    ensures t == Exec(jobs, s, run + Spin(j)) == Tried(s, j, n + 1)
  {
    t := SpinOnce(jobs, Tried(s, j, n), j);
    assert t.writers == Tried(s, j, n + 1).writers;
    ExecAppend(jobs, s, run, Spin(j), TICKETS);
  }

  lemma {:induction false} SpinMany(jobs: seq<Job>, s: State, j: nat, n: nat) returns (t: State)
    requires Matches(jobs, s) && j < |jobs| && n <= CLAIM_ATTEMPTS
    requires s.writers[j].pc.Claiming? && s.writers[j].tries == 0
    requires Target !in s.names && Claim !in s.names
    ensures Possible(jobs, s, Spins(j, n)) && SpacedRun(jobs, s, Spins(j, n), TICKETS)
    ensures t == Exec(jobs, s, Spins(j, n)) == Tried(s, j, n)
  {
    if n == 0 {
      t := s;
      assert s.writers == Tried(s, j, 0).writers;
    } else {
      var u := SpinMany(jobs, s, j, n - 1);
      t := SpinFurther(jobs, s, j, n - 1, Spins(j, n - 1));
    }
  }

  /** Writer `i` takes the claim; writer `j` finds it taken. */
  function Blocked(i: nat, j: nat): seq<Label> {
    [Act(i, NoLink)] + [Act(i, CreateClaim)] + [Act(j, CreateClaim)]
  }

  lemma {:induction false} ClaimBlocked(jobs: seq<Job>, s: State, i: nat, j: nat) returns (t: State)
    requires Matches(jobs, s) && Rivals(jobs, i, j) && Target !in s.names && Claim !in s.names
    requires s.writers[i].pc.Hashed? && s.writers[i].tries == 0
    requires s.writers[j].pc.Claiming? && s.writers[j].tries < CLAIM_ATTEMPTS
    ensures Possible(jobs, s, Blocked(i, j)) && SpacedRun(jobs, s, Blocked(i, j), TICKETS)
    ensures t == Exec(jobs, s, Blocked(i, j))
    ensures t.names == s.names[Claim := |s.data|] && t.data == s.data + [[]]
    ensures t.writers[i] == s.writers[i].(pc := Holding, tries := 1)
    ensures t.writers[j] == s.writers[j].(pc := Polling, tries := s.writers[j].tries + 1)
  {
    t := Extend(jobs, s, [], Act(i, NoLink), TICKETS);
    assert [] + [Act(i, NoLink)] == [Act(i, NoLink)];
    t := Extend(jobs, s, [Act(i, NoLink)], Act(i, CreateClaim), TICKETS);
    t := Extend(jobs, s, [Act(i, NoLink)] + [Act(i, CreateClaim)], Act(j, CreateClaim), TICKETS);
  }

  function HandBack(i: nat): seq<Label> {
    [Act(i, TestTarget)] + [Act(i, Replace)] + [Act(i, Release(true))]
  }

  lemma {:induction false} HolderPublishes(jobs: seq<Job>, s: State, i: nat) returns (t: State)
    requires Matches(jobs, s) && i < |jobs| && s.writers[i].pc.Holding? && Target !in s.names
    requires ScratchOf(jobs[i], s.writers[i]) in s.names
    ensures Possible(jobs, s, HandBack(i)) && SpacedRun(jobs, s, HandBack(i), TICKETS)
    ensures t == Exec(jobs, s, HandBack(i))
    ensures Target in t.names && t.names[Target] == s.names[ScratchOf(jobs[i], s.writers[i])] && Claim !in t.names
    ensures t.data == s.data
    ensures forall v :: 0 <= v < |jobs| && v != i ==> t.writers[v] == s.writers[v]
  {
    t := Extend(jobs, s, [], Act(i, TestTarget), TICKETS);
    assert [] + [Act(i, TestTarget)] == [Act(i, TestTarget)];
    t := Extend(jobs, s, [Act(i, TestTarget)], Act(i, Replace), TICKETS);
    t := Extend(jobs, s, [Act(i, TestTarget)] + [Act(i, Replace)], Act(i, Release(true)), TICKETS);
  }

  /** Writer `j` looks for the target, `i` publishes and lets go, and `j` looks for the claim. */
  function BetweenLooks(i: nat, j: nat): seq<Label> {
    Blocked(i, j) + [Act(j, PollTarget)] + HandBack(i) + [Act(j, PollClaim)]
  }

  lemma {:induction false} PassedBetweenLooks(jobs: seq<Job>, s: State, i: nat, j: nat) returns (t: State)
    requires Matches(jobs, s) && Rivals(jobs, i, j) && Target !in s.names && Claim !in s.names
    requires AtReserve(jobs, s, i)
    requires s.writers[j].pc.Claiming? && s.writers[j].tries < CLAIM_ATTEMPTS
    ensures Possible(jobs, s, BetweenLooks(i, j)) && SpacedRun(jobs, s, BetweenLooks(i, j), TICKETS)
    ensures t == Exec(jobs, s, BetweenLooks(i, j))
    ensures t.writers[j].pc.Claiming? && t.writers[j].tries == s.writers[j].tries + 1 && Holds(t, jobs[i].payload)
  {
    t := ClaimBlocked(jobs, s, i, j);
    var run := Blocked(i, j) + [Act(j, PollTarget)];
    t := Extend(jobs, s, Blocked(i, j), Act(j, PollTarget), TICKETS);
    t := HolderPublishes(jobs, t, i);
    ExecAppend(jobs, s, run, HandBack(i), TICKETS);
    t := Extend(jobs, s, run + HandBack(i), Act(j, PollClaim), TICKETS);
  }

  /** A writer that has digested its scratch file and turned to the claim, others being as they were. */
  lemma {:induction false} RivalsReady(jobs: seq<Job>, i: nat, j: nat) returns (run: seq<Label>, s: State)
    requires Rivals(jobs, i, j)
    ensures Admissible(jobs, run, TICKETS) && s == Final(jobs, run)
    ensures Matches(jobs, s) && Target !in s.names && Claim !in s.names && AtReserve(jobs, s, i)
    ensures s.writers[j].pc.Claiming? && s.writers[j].tries == 0
  {
    var both, t := BothPrepared(jobs, i, j);
    s := Extend(jobs, Init(jobs), both, Act(j, NoLink), TICKETS);
    run := both + [Act(j, NoLink)];
  }

  // ------------------------------------------- the wait's "handed back"

  /** At the end of the run the wait has just answered that the name was handed back, and the target is there. */
  predicate HandedBackWithATarget(jobs: seq<Job>, run: seq<Label>, j: nat)
    requires j < |jobs|
  {
    && run != [] && run[|run| - 1] == Act(j, PollClaim) && Admissible(jobs, run, TICKETS)
    && Final(jobs, run).writers[j].pc.Claiming? && Target in Final(jobs, run).names
  }

  /** The wait can be wrong about the target exactly when the writer has a rival. */
  lemma {:induction false} HandedBackWithATargetIffRivalled(jobs: seq<Job>, j: nat)
    requires Uniform(jobs) && j < |jobs|
    ensures (exists run :: HandedBackWithATarget(jobs, run, j)) <==> (exists i :: Rivals(jobs, i, j))
  {
    if i :| Rivals(jobs, i, j) {
      var ready, s := RivalsReady(jobs, i, j);
      var t := PassedBetweenLooks(jobs, s, i, j);
      ExecAppend(jobs, Init(jobs), ready, BetweenLooks(i, j), TICKETS);
      assert HandedBackWithATarget(jobs, ready + BetweenLooks(i, j), j);
    }
    forall run | HandedBackWithATarget(jobs, run, j) ensures exists i :: Rivals(jobs, i, j) {
      var i := TheWinner(jobs, run, j);
    }
  }

  /** Whoever published, when this writer publishes by claim and did not. */
  lemma {:induction false} TheWinner(jobs: seq<Job>, run: seq<Label>, j: nat) returns (i: nat)
    requires Uniform(jobs) && j < |jobs| && Admissible(jobs, run, TICKETS) && Target in Final(jobs, run).names
    requires var p := Final(jobs, run).writers[j]; p.pc.Claiming? || Ended(p, TimedOut) || Ended(p, Exhausted)
    ensures Rivals(jobs, i, j) && Holds(Final(jobs, run), jobs[i].payload)
  {
    InitInv(jobs);
    RunInv(jobs, Init(jobs), run);
    var s := Final(jobs, run);
    assert Fits(jobs, s, j) && Owned(jobs, s, Target);
    i :| 0 <= i < |jobs| && s.writers[i].won;
    assert Fits(jobs, s, i);
  }

  // --------------------------------- refusals that are not about the bytes

  predicate Spent(o: Outcome) { o.TimedOut? || o.Exhausted? }

  predicate RefusedWithNothing(jobs: seq<Job>, run: seq<Label>, j: nat, o: Outcome)
    requires j < |jobs|
  {
    && Admissible(jobs, run, TICKETS)
    && Final(jobs, run).writers[j].pc == Closing(o) && Target !in Final(jobs, run).names
  }

  /** Refused, while the file on disk holds exactly its own bytes. */
  predicate RefusedItsOwnBytes(jobs: seq<Job>, run: seq<Label>, j: nat, o: Outcome)
    requires j < |jobs|
  {
    && Admissible(jobs, run, TICKETS)
    && Final(jobs, run).writers[j].pc == Closing(o) && Holds(Final(jobs, run), jobs[j].payload)
  }

  lemma {:induction false} OneReady(jobs: seq<Job>, j: nat) returns (run: seq<Label>, s: State)
    requires j < |jobs| && !jobs[j].links
    ensures Admissible(jobs, run, TICKETS) && s == Final(jobs, run) && Matches(jobs, s)
    ensures Target !in s.names && Claim !in s.names && s.writers[j].pc.Claiming? && s.writers[j].tries == 0
  {
    var prepare := Prepare(j, |jobs[j].payload|);
    s := Prepared(jobs, Init(jobs), j, TICKETS);
    s := Extend(jobs, Init(jobs), prepare, Act(j, NoLink), TICKETS);
    run := prepare + [Act(j, NoLink)];
  }

  /** Denied the claim and out of time, or denied it eight times, with nobody else about. */
  lemma {:induction false} RefusedAlone(jobs: seq<Job>, j: nat, o: Outcome) returns (run: seq<Label>)
    requires j < |jobs| && !jobs[j].links && Spent(o)
    ensures RefusedWithNothing(jobs, run, j, o)
  {
    var ready, s := OneReady(jobs, j);
    if o.TimedOut? {
      var t := Extend(jobs, Init(jobs), ready, Act(j, ClaimDenied), TICKETS);
      t := Extend(jobs, Init(jobs), ready + [Act(j, ClaimDenied)], Act(j, Expire), TICKETS);
      run := ready + [Act(j, ClaimDenied)] + [Act(j, Expire)];
    } else {
      var t := SpinMany(jobs, s, j, CLAIM_ATTEMPTS);
      ExecAppend(jobs, Init(jobs), ready, Spins(j, CLAIM_ATTEMPTS), TICKETS);
      t := Extend(jobs, Init(jobs), ready + Spins(j, CLAIM_ATTEMPTS), Act(j, GiveUp), TICKETS);
      run := ready + Spins(j, CLAIM_ATTEMPTS) + [Act(j, GiveUp)];
    }
  }

  /** The holder publishes and lets go just before the waiting writer's time is up. */
  lemma {:induction false} TwinTimesOut(jobs: seq<Job>, i: nat, j: nat) returns (run: seq<Label>)
    requires Twins(jobs, i, j)
    ensures RefusedItsOwnBytes(jobs, run, j, TimedOut)
  {
    var ready, s := RivalsReady(jobs, i, j);
    var t := PassedTooLate(jobs, s, i, j);
    ExecAppend(jobs, Init(jobs), ready, TooLate(i, j), TICKETS);
    run := ready + TooLate(i, j);
  }

  /** Writer `i` publishes and lets go, and `j`, which never looked again, is out of time. */
  function TooLate(i: nat, j: nat): seq<Label> {
    Blocked(i, j) + HandBack(i) + [Act(j, Expire)]
  }

  lemma {:induction false} PassedTooLate(jobs: seq<Job>, s: State, i: nat, j: nat) returns (t: State)
    requires Matches(jobs, s) && Rivals(jobs, i, j) && Target !in s.names && Claim !in s.names
    requires AtReserve(jobs, s, i)
    requires s.writers[j].pc.Claiming? && s.writers[j].tries < CLAIM_ATTEMPTS
    ensures Possible(jobs, s, TooLate(i, j)) && SpacedRun(jobs, s, TooLate(i, j), TICKETS)
    ensures t == Exec(jobs, s, TooLate(i, j))
    ensures t.writers[j].pc == Closing(TimedOut) && Holds(t, jobs[i].payload)
  {
    t := ClaimBlocked(jobs, s, i, j);
    t := HolderPublishes(jobs, t, i);
    ExecAppend(jobs, s, Blocked(i, j), HandBack(i), TICKETS);
    t := Extend(jobs, s, Blocked(i, j) + HandBack(i), Act(j, Expire), TICKETS);
  }

  /** Seven claims denied, and the holder passes between the two looks of the eighth wait. */
  lemma {:induction false} TwinExhausted(jobs: seq<Job>, i: nat, j: nat) returns (run: seq<Label>)
    requires Twins(jobs, i, j)
    ensures RefusedItsOwnBytes(jobs, run, j, Exhausted)
  {
    var ready, s := RivalsReady(jobs, i, j);
    var spins := Spins(j, CLAIM_ATTEMPTS - 1);
    var t := SpinMany(jobs, s, j, CLAIM_ATTEMPTS - 1);
    t := PassedBetweenLooks(jobs, t, i, j);
    ExecAppend(jobs, s, spins, BetweenLooks(i, j), TICKETS);
    t := Extend(jobs, s, spins + BetweenLooks(i, j), Act(j, GiveUp), TICKETS);
    var rest := spins + BetweenLooks(i, j) + [Act(j, GiveUp)];
    ExecAppend(jobs, Init(jobs), ready, rest, TICKETS);
    run := ready + rest;
  }

  /** What the invariant says of a writer once it has been refused. */
  lemma {:induction false} RefusalFits(jobs: seq<Job>, run: seq<Label>, j: nat)
    requires Uniform(jobs) && j < |jobs| && Admissible(jobs, run, TICKETS)
    ensures OutcomeFits(jobs[j], Final(jobs, run), Final(jobs, run).writers[j])
    ensures ClaimFits(jobs[j], Final(jobs, run), Final(jobs, run).writers[j])
  {
    InitInv(jobs);
    RunInv(jobs, Init(jobs), run);
    assert Fits(jobs, Final(jobs, run), j);
  }

  /** A writer can time out, or run out of attempts, with no file published at all, exactly when it uses the claim. */
  lemma {:induction false} RefusedWithNothingIffByClaim(jobs: seq<Job>, j: nat, o: Outcome)
    requires Uniform(jobs) && j < |jobs| && Spent(o)
    ensures (exists run :: RefusedWithNothing(jobs, run, j, o)) <==> !jobs[j].links
  {
    if !jobs[j].links {
      var run := RefusedAlone(jobs, j, o);
    }
    forall run | RefusedWithNothing(jobs, run, j, o) ensures !jobs[j].links {
      RefusalFits(jobs, run, j);
    }
  }

  /** It can time out, or run out of attempts, over its own bytes exactly when another claiming writer has them too. */
  lemma {:induction false} RefusedIffTwinned(jobs: seq<Job>, j: nat, o: Outcome)
    requires Uniform(jobs) && j < |jobs| && Spent(o)
    ensures (exists run :: RefusedItsOwnBytes(jobs, run, j, o)) <==> (exists i :: Twins(jobs, i, j))
  {
    if i :| Twins(jobs, i, j) {
      var run;
      if o.TimedOut? { run := TwinTimesOut(jobs, i, j); } else { run := TwinExhausted(jobs, i, j); }
      assert RefusedItsOwnBytes(jobs, run, j, o);
    }
    forall run | RefusedItsOwnBytes(jobs, run, j, o) ensures exists i :: Twins(jobs, i, j) {
      var i := TheWinner(jobs, run, j);
      assert Twins(jobs, i, j);
    }
  }

  /** `PublishConflictError` raised by this writer, for whichever reason. */
  predicate Conflict(p: Writer) { Ended(p, DigestConflict) || Ended(p, TimedOut) || Ended(p, Exhausted) }

  /** Different bytes have been published. */
  predicate HoldsOther(s: State, payload: Payload) { Target in s.names && !Holds(s, payload) }

  predicate ConflictWithoutDifference(jobs: seq<Job>, run: seq<Label>, j: nat)
    requires j < |jobs|
  {
    && Admissible(jobs, run, TICKETS)
    && Conflict(Final(jobs, run).writers[j]) && !HoldsOther(Final(jobs, run), jobs[j].payload)
  }

  /** A conflict can be raised although no different bytes were published, exactly for a writer that uses the claim. */
  lemma {:induction false} ConflictWithoutDifferenceIffByClaim(jobs: seq<Job>, j: nat)
    requires Uniform(jobs) && j < |jobs|
    ensures (exists run :: ConflictWithoutDifference(jobs, run, j)) <==> !jobs[j].links
  {
    if !jobs[j].links {
      var run := RefusedAlone(jobs, j, TimedOut);
      assert ConflictWithoutDifference(jobs, run, j);
    }
    forall run | ConflictWithoutDifference(jobs, run, j) ensures !jobs[j].links {
      RefusalFits(jobs, run, j);
    }
  }
}
