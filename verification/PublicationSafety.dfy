/**
 What every step of the publication protocol keeps, and what follows for whole runs.
 */
module PublicationSafety {
  import opened Publication

  // ---------------------------------------------------------------- runs

  /** The labels can be taken one after the other from `s`. */
  predicate Possible(jobs: seq<Job>, s: State, run: seq<Label>)
    decreases |run|
  {
    Matches(jobs, s) &&
    (run == [] || (Enabled(jobs, s, run[0]) && Possible(jobs, Next(jobs, s, run[0]), run[1..])))
  }

  function Exec(jobs: seq<Job>, s: State, run: seq<Label>): (t: State)
    requires Possible(jobs, s, run)
    ensures Matches(jobs, t)
    decreases |run|
  {
    if run == [] then s else Exec(jobs, Next(jobs, s, run[0]), run[1..])
  }

  /** A writer whose scratch file may still be on disk. A crashed writer never cleans up. */
  predicate Live(p: Writer) { !p.pc.Idle? && !p.pc.Done? }

  /**
   A new scratch name is handed out while fewer than `window` allocations of its process
   separate it from the name of any live writer of that process.
   */
  predicate Spaced(jobs: seq<Job>, s: State, l: Label, window: nat)
    requires Matches(jobs, s) && Enabled(jobs, s, l)
  {
    l.Act? && l.a.Begin? ==>
      forall v :: 0 <= v < |s.writers| ==>
        Live(s.writers[v]) && jobs[v].token == jobs[l.w].token ==>
          Issued(s, jobs[l.w].token) + 1 - s.writers[v].ticket < window
  }

  predicate SpacedRun(jobs: seq<Job>, s: State, run: seq<Label>, window: nat)
    requires Possible(jobs, s, run)
    decreases |run|
  {
    run == [] || (Spaced(jobs, s, run[0], window) && SpacedRun(jobs, Next(jobs, s, run[0]), run[1..], window))
  }

  /** The directory supports hard links for every writer or for none. */
  predicate Uniform(jobs: seq<Job>) {
    forall u, v :: 0 <= u < |jobs| && 0 <= v < |jobs| ==> jobs[u].links == jobs[v].links
  }

  // ----------------------------------------------------------- the invariant

  predicate InSection(p: Writer) { p.pc.Holding? || p.pc.Replacing? || p.pc.Releasing? }

  predicate ByClaim(p: Writer) { p.pc.Claiming? || p.pc.Polling? || p.pc.PollingClaim? || InSection(p) }

  /** Between digesting the scratch file and moving it away. */
  predicate Ready(p: Writer) {
    p.pc.Hashed? || p.pc.Claiming? || p.pc.Polling? || p.pc.PollingClaim? || p.pc.Holding? || p.pc.Replacing?
  }

  predicate Losing(p: Writer) { p.pc == Releasing(Lost) || p.pc.Comparing? || p.pc.Reading? }

  predicate Winning(p: Writer) { p.pc == Releasing(Won) || p.pc == Closing(Published) || p.pc == Done(Published) }

  predicate Ended(p: Writer, o: Outcome) { p.pc == Closing(o) || p.pc == Done(o) }

  predicate Holds(s: State, payload: Payload) {
    Target in s.names && s.names[Target] < |s.data| && s.data[s.names[Target]] == payload
  }

  /** The scratch file: whose inode it is and what it holds. */
  predicate ScratchFits(job: Job, s: State, p: Writer) {
    var name := ScratchOf(job, p);
    && (Live(p) && name in s.names ==> s.names[name] == p.file)
    && (Live(p) && name in s.names && !p.won && Target in s.names ==> s.names[Target] != p.file)
    && (p.pc.Producing? ==> name !in s.names)
    && (p.pc.Writing? ==> name in s.names && p.file < |s.data| && p.sent <= |job.payload|
                          && s.data[p.file] == job.payload[..p.sent])
    && (p.pc.Written? && name in s.names ==> p.file < |s.data| && s.data[p.file] == job.payload)
    && (Ready(p) ==> name in s.names && p.file < |s.data| && s.data[p.file] == job.payload)
  }

  /** Which side of the race a writer is on, and what the target then holds. */
  predicate OutcomeFits(job: Job, s: State, p: Writer) {
    && (p.won ==> Winning(p) || p.pc.Crashed?)
    && (Winning(p) ==> p.won)
    && (p.won ==> Holds(s, job.payload) && s.names[Target] == p.file)
    && (Ready(p) || Losing(p) ==> p.mine == job.payload)
    && (Losing(p) ==> Target in s.names)
    && (p.pc.Reading? ==> p.source == s.names[Target] && p.source < |s.data| && p.got <= s.data[p.source])
    && (Ended(p, AlreadyIdentical) ==> Holds(s, job.payload))
    && (Ended(p, DigestConflict) ==> Target in s.names && !Holds(s, job.payload))
  }

  predicate ClaimFits(job: Job, s: State, p: Writer) {
    && p.tries <= CLAIM_ATTEMPTS
    && (ByClaim(p) || Ended(p, Exhausted) || Ended(p, TimedOut) ==> !job.links)
    && (InSection(p) ==> Claim in s.names)
    && (p.pc.Replacing? ==> Target !in s.names)
  }

  predicate Fits(jobs: seq<Job>, s: State, v: nat)
    requires |s.writers| == |jobs| && v < |jobs|
  {
    && (Live(s.writers[v]) ==> s.writers[v].ticket <= Issued(s, jobs[v].token))
    && ScratchFits(jobs[v], s, s.writers[v])
    && OutcomeFits(jobs[v], s, s.writers[v])
    && ClaimFits(jobs[v], s, s.writers[v])
  }

  predicate Apart(jobs: seq<Job>, s: State, u: nat, v: nat)
    requires |s.writers| == |jobs| && u < |jobs| && v < |jobs|
  {
    var p, q := s.writers[u], s.writers[v];
    && (Live(p) && Live(q) ==> ScratchOf(jobs[u], p) != ScratchOf(jobs[v], q))
    && (Live(p) && Live(q) && ScratchOf(jobs[u], p) in s.names && ScratchOf(jobs[v], q) in s.names ==> p.file != q.file)
    && !(InSection(p) && InSection(q))
    && !(p.won && q.won)
  }

  ghost predicate Owned(jobs: seq<Job>, s: State, name: Name)
    requires |s.writers| == |jobs|
  {
    match name
    case Target => exists v :: 0 <= v < |jobs| && s.writers[v].won
    case Claim => true
    case Scratch(_, _) => exists v :: 0 <= v < |jobs| && Live(s.writers[v]) && ScratchOf(jobs[v], s.writers[v]) == name
  }

  ghost predicate Inv(jobs: seq<Job>, s: State) {
    && Matches(jobs, s)
    && (forall v :: 0 <= v < |jobs| ==> Fits(jobs, s, v))
    && (forall u, v :: 0 <= u < |jobs| && 0 <= v < |jobs| && u != v ==> Apart(jobs, s, u, v))
    && (forall name :: name in s.names ==> Owned(jobs, s, name))
  }

  lemma {:induction false} InitInv(jobs: seq<Job>)
    ensures Inv(jobs, Init(jobs))
  {
  }

  /** Tickets fewer than 65536 apart never share their low sixteen bits; exactly 65536 apart they do. */
  lemma {:induction false} TicketsCollide(a: nat, b: nat)
    requires a < b
    ensures b - a < TICKETS ==> a % TICKETS != b % TICKETS
    ensures b - a == TICKETS ==> a % TICKETS == b % TICKETS
  {
  }

  // ------------------------------------------------- one step of one writer

  /** What the acting writer's step can do to the directory, as every other writer sees it. */
  ghost predicate Effect(jobs: seq<Job>, s: State, t: State, w: nat)
    requires |s.writers| == |jobs| && w < |jobs|
  {
    var p := s.writers[w];
    && |t.writers| == |jobs| && |s.data| <= |t.data|
    && (forall v :: 0 <= v < |jobs| && v != w ==> t.writers[v] == s.writers[v])
    && (forall token :: Issued(s, token) <= Issued(t, token))
    // Only the inode of its own open scratch file can change.
    && (forall i :: 0 <= i < |s.data| && !(p.pc.Writing? && i == p.file) ==> t.data[i] == s.data[i])
    // Only its own scratch name can appear or go.
    && (forall n: Name :: n.Scratch? && !(Live(p) && n == ScratchOf(jobs[w], p)) ==>
          (n in t.names <==> n in s.names) && (n in s.names ==> t.names[n] == s.names[n]))
    && (Target in s.names ==> Target in t.names && t.names[Target] == s.names[Target])
    && (Target !in s.names && Target in t.names ==>
          && Live(p) && ScratchOf(jobs[w], p) in s.names && t.names[Target] == p.file
          && (jobs[w].links || p.pc.Replacing?))
    && (Claim in s.names && Claim !in t.names ==> InSection(p))
    && (t.writers[w].won && !p.won ==> Target !in s.names)
  }

  lemma {:induction false} StepEffect(jobs: seq<Job>, s: State, w: nat, a: Action)
    requires Matches(jobs, s) && Enabled(jobs, s, Act(w, a)) && Fits(jobs, s, w)
    ensures Effect(jobs, s, Next(jobs, s, Act(w, a)), w)
  {
  }

  /** A writer that does not move keeps its invariant. */
  lemma {:induction false} OtherFits(jobs: seq<Job>, s: State, t: State, w: nat, v: nat)
    requires Matches(jobs, s)
    requires w < |jobs| && v < |jobs| && v != w && jobs[v].links == jobs[w].links
    requires Fits(jobs, s, v) && Fits(jobs, s, w) && Apart(jobs, s, w, v)
    requires Effect(jobs, s, t, w)
    ensures Fits(jobs, t, v)
  {
  }

  lemma {:induction false} OthersApart(jobs: seq<Job>, s: State, t: State, w: nat, u: nat, v: nat)
    requires |s.writers| == |jobs| && w < |jobs| && u < |jobs| && v < |jobs|
    requires u != v && u != w && v != w
    requires Apart(jobs, s, u, v) && Apart(jobs, s, w, u) && Apart(jobs, s, w, v)
    requires Effect(jobs, s, t, w)
    ensures Apart(jobs, t, u, v)
  {
  }

  /** A spaced allocation hands out a name that no file and no live writer has. */
  lemma {:induction false} FreshScratch(jobs: seq<Job>, s: State, w: nat)
    requires Inv(jobs, s) && Enabled(jobs, s, Act(w, Begin))
    requires Spaced(jobs, s, Act(w, Begin), TICKETS)
    ensures Scratch(jobs[w].token, (Issued(s, jobs[w].token) + 1) % TICKETS) !in s.names
    ensures forall v :: 0 <= v < |jobs| && Live(s.writers[v]) ==>
      ScratchOf(jobs[v], s.writers[v]) != Scratch(jobs[w].token, (Issued(s, jobs[w].token) + 1) % TICKETS)
  {
    var ticket := Issued(s, jobs[w].token) + 1;
    forall v | 0 <= v < |jobs| && Live(s.writers[v])
      ensures ScratchOf(jobs[v], s.writers[v]) != Scratch(jobs[w].token, ticket % TICKETS)
    {
      assert Fits(jobs, s, v);
      if jobs[v].token == jobs[w].token {
        TicketsCollide(s.writers[v].ticket, ticket);
      }
    }
    var next := Scratch(jobs[w].token, ticket % TICKETS);
    assert next in s.names ==> Owned(jobs, s, next);
  }

  /** The writer that starts satisfies its invariant and shares nothing with the others. */
  lemma {:induction false} BeginFits(jobs: seq<Job>, s: State, w: nat)
    requires Inv(jobs, s) && Enabled(jobs, s, Act(w, Begin))
    requires Spaced(jobs, s, Act(w, Begin), TICKETS)
    ensures Fits(jobs, Next(jobs, s, Act(w, Begin)), w)
    ensures forall v :: 0 <= v < |jobs| && v != w ==>
      Apart(jobs, Next(jobs, s, Act(w, Begin)), w, v) && Apart(jobs, Next(jobs, s, Act(w, Begin)), v, w)
  {
    assert Fits(jobs, s, w);
    FreshScratch(jobs, s, w);
    forall v | 0 <= v < |jobs| && v != w
      ensures Apart(jobs, Next(jobs, s, Act(w, Begin)), w, v) && Apart(jobs, Next(jobs, s, Act(w, Begin)), v, w)
    {
      assert Fits(jobs, s, v) && Apart(jobs, s, w, v);
    }
  }

  // The moving writer, one phase of `publish_file` at a time.

  predicate Filling(a: Action) { a.Open? || a.Write? }

  predicate Finishing(a: Action) { a.SkipFile? || a.Return? || a.Hash? }

  predicate Turning(a: Action) { a.NoLink? || a.ClaimDenied? || a.GiveUp? }

  predicate Waiting(a: Action) { a.PollTarget? || a.PollClaim? || a.Expire? }

  predicate Entering(a: Action) { a.Link? || a.CreateClaim? || a.TestTarget? }

  predicate Leaving(a: Action) { a.Replace? || a.Release? }

  predicate Judging(a: Action) { a.OpenWinner? || a.ReadWinner? || a.Decide? }

  predicate Failing(a: Action) { a.Fault? }

  predicate Stopping(a: Action) { a.Close? || a.Crash? }

  lemma {:induction false} FillingFits(jobs: seq<Job>, s: State, w: nat, a: Action)
    requires Matches(jobs, s) && Enabled(jobs, s, Act(w, a)) && Filling(a) && Fits(jobs, s, w)
    ensures Fits(jobs, Next(jobs, s, Act(w, a)), w)
  {
  }

  lemma {:induction false} FinishingFits(jobs: seq<Job>, s: State, w: nat, a: Action)
    requires Matches(jobs, s) && Enabled(jobs, s, Act(w, a)) && Finishing(a) && Fits(jobs, s, w)
    ensures Fits(jobs, Next(jobs, s, Act(w, a)), w)
  {
  }

  lemma {:induction false} TurningFits(jobs: seq<Job>, s: State, w: nat, a: Action)
    requires Matches(jobs, s) && Enabled(jobs, s, Act(w, a)) && Turning(a) && Fits(jobs, s, w)
    ensures Fits(jobs, Next(jobs, s, Act(w, a)), w)
  {
  }

  lemma {:induction false} WaitingFits(jobs: seq<Job>, s: State, w: nat, a: Action)
    requires Matches(jobs, s) && Enabled(jobs, s, Act(w, a)) && Waiting(a) && Fits(jobs, s, w)
    ensures Fits(jobs, Next(jobs, s, Act(w, a)), w)
  {
  }

  lemma {:induction false} EnteringFits(jobs: seq<Job>, s: State, w: nat, a: Action)
    requires Matches(jobs, s) && Enabled(jobs, s, Act(w, a)) && Entering(a) && Fits(jobs, s, w)
    ensures Fits(jobs, Next(jobs, s, Act(w, a)), w)
  {
  }

  lemma {:induction false} LeavingFits(jobs: seq<Job>, s: State, w: nat, a: Action)
    requires Matches(jobs, s) && Enabled(jobs, s, Act(w, a)) && Leaving(a) && Fits(jobs, s, w)
    ensures Fits(jobs, Next(jobs, s, Act(w, a)), w)
  {
  }

  lemma {:induction false} JudgingFits(jobs: seq<Job>, s: State, w: nat, a: Action)
    requires Matches(jobs, s) && Enabled(jobs, s, Act(w, a)) && Judging(a) && Fits(jobs, s, w)
    ensures Fits(jobs, Next(jobs, s, Act(w, a)), w)
  {
  }

  lemma {:induction false} FailingFits(jobs: seq<Job>, s: State, w: nat, a: Action)
    requires Matches(jobs, s) && Enabled(jobs, s, Act(w, a)) && Failing(a) && Fits(jobs, s, w)
    ensures Fits(jobs, Next(jobs, s, Act(w, a)), w)
  {
  }

  lemma {:induction false} StoppingFits(jobs: seq<Job>, s: State, w: nat, a: Action)
    requires Matches(jobs, s) && Enabled(jobs, s, Act(w, a)) && Stopping(a) && Fits(jobs, s, w)
    ensures Fits(jobs, Next(jobs, s, Act(w, a)), w)
  {
  }

  lemma {:induction false} OwnFits(jobs: seq<Job>, s: State, w: nat, a: Action)
    requires Inv(jobs, s) && Enabled(jobs, s, Act(w, a)) && Spaced(jobs, s, Act(w, a), TICKETS)
    ensures Fits(jobs, Next(jobs, s, Act(w, a)), w)
  {
    assert Fits(jobs, s, w);
    if a.Begin? { BeginFits(jobs, s, w); }
    else if Filling(a) { FillingFits(jobs, s, w, a); }
    else if Finishing(a) { FinishingFits(jobs, s, w, a); }
    else if Turning(a) { TurningFits(jobs, s, w, a); }
    else if Waiting(a) { WaitingFits(jobs, s, w, a); }
    else if Entering(a) { EnteringFits(jobs, s, w, a); }
    else if Leaving(a) { LeavingFits(jobs, s, w, a); }
    else if Judging(a) { JudgingFits(jobs, s, w, a); }
    else if Failing(a) { FailingFits(jobs, s, w, a); }
    else { StoppingFits(jobs, s, w, a); }
  }

  /** Another writer of the same directory, which the moving one has so far kept clear of. */
  predicate Neighbours(jobs: seq<Job>, s: State, w: nat, v: nat)
    requires Matches(jobs, s) && w < |jobs|
  {
    && v < |jobs| && v != w && jobs[v].links == jobs[w].links
    && Fits(jobs, s, w) && Fits(jobs, s, v) && Apart(jobs, s, w, v)
  }

  lemma {:induction false} FillingApart(jobs: seq<Job>, s: State, w: nat, a: Action, v: nat)
    requires Matches(jobs, s) && Enabled(jobs, s, Act(w, a)) && Filling(a)
    requires Neighbours(jobs, s, w, v)
    ensures Apart(jobs, Next(jobs, s, Act(w, a)), w, v)
  {
  }

  lemma {:induction false} FinishingApart(jobs: seq<Job>, s: State, w: nat, a: Action, v: nat)
    requires Matches(jobs, s) && Enabled(jobs, s, Act(w, a)) && Finishing(a)
    requires Neighbours(jobs, s, w, v)
    ensures Apart(jobs, Next(jobs, s, Act(w, a)), w, v)
  {
  }

  lemma {:induction false} TurningApart(jobs: seq<Job>, s: State, w: nat, a: Action, v: nat)
    requires Matches(jobs, s) && Enabled(jobs, s, Act(w, a)) && Turning(a)
    requires Neighbours(jobs, s, w, v)
    ensures Apart(jobs, Next(jobs, s, Act(w, a)), w, v)
  {
  }

  lemma {:induction false} WaitingApart(jobs: seq<Job>, s: State, w: nat, a: Action, v: nat)
    requires Matches(jobs, s) && Enabled(jobs, s, Act(w, a)) && Waiting(a)
    requires Neighbours(jobs, s, w, v)
    ensures Apart(jobs, Next(jobs, s, Act(w, a)), w, v)
  {
  }

  lemma {:induction false} EnteringApart(jobs: seq<Job>, s: State, w: nat, a: Action, v: nat)
    requires Matches(jobs, s) && Enabled(jobs, s, Act(w, a)) && Entering(a)
    requires Neighbours(jobs, s, w, v)
    ensures Apart(jobs, Next(jobs, s, Act(w, a)), w, v)
  {
  }

  lemma {:induction false} LeavingApart(jobs: seq<Job>, s: State, w: nat, a: Action, v: nat)
    requires Matches(jobs, s) && Enabled(jobs, s, Act(w, a)) && Leaving(a)
    requires Neighbours(jobs, s, w, v)
    ensures Apart(jobs, Next(jobs, s, Act(w, a)), w, v)
  {
  }

  lemma {:induction false} JudgingApart(jobs: seq<Job>, s: State, w: nat, a: Action, v: nat)
    requires Matches(jobs, s) && Enabled(jobs, s, Act(w, a)) && Judging(a)
    requires Neighbours(jobs, s, w, v)
    ensures Apart(jobs, Next(jobs, s, Act(w, a)), w, v)
  {
  }

  lemma {:induction false} FailingApart(jobs: seq<Job>, s: State, w: nat, a: Action, v: nat)
    requires Matches(jobs, s) && Enabled(jobs, s, Act(w, a)) && Failing(a)
    requires Neighbours(jobs, s, w, v)
    ensures Apart(jobs, Next(jobs, s, Act(w, a)), w, v)
  {
  }

  lemma {:induction false} StoppingApart(jobs: seq<Job>, s: State, w: nat, a: Action, v: nat)
    requires Matches(jobs, s) && Enabled(jobs, s, Act(w, a)) && Stopping(a)
    requires Neighbours(jobs, s, w, v)
    ensures Apart(jobs, Next(jobs, s, Act(w, a)), w, v)
  {
  }

  lemma {:induction false} OwnApart(jobs: seq<Job>, s: State, w: nat, a: Action, v: nat)
    requires Uniform(jobs) && Inv(jobs, s) && Enabled(jobs, s, Act(w, a)) && Spaced(jobs, s, Act(w, a), TICKETS)
    requires v < |jobs| && v != w
    ensures Apart(jobs, Next(jobs, s, Act(w, a)), w, v) && Apart(jobs, Next(jobs, s, Act(w, a)), v, w)
  {
    assert Fits(jobs, s, w) && Fits(jobs, s, v) && Apart(jobs, s, w, v);
    if a.Begin? { BeginFits(jobs, s, w); }
    else if Filling(a) { FillingApart(jobs, s, w, a, v); }
    else if Finishing(a) { FinishingApart(jobs, s, w, a, v); }
    else if Turning(a) { TurningApart(jobs, s, w, a, v); }
    else if Waiting(a) { WaitingApart(jobs, s, w, a, v); }
    else if Entering(a) { EnteringApart(jobs, s, w, a, v); }
    else if Leaving(a) { LeavingApart(jobs, s, w, a, v); }
    else if Judging(a) { JudgingApart(jobs, s, w, a, v); }
    else if Failing(a) { FailingApart(jobs, s, w, a, v); }
    else { StoppingApart(jobs, s, w, a, v); }
  }

  lemma {:induction false} TargetOwned(jobs: seq<Job>, s: State, w: nat, a: Action)
    requires Matches(jobs, s) && Enabled(jobs, s, Act(w, a)) && Fits(jobs, s, w)
    requires Target in s.names ==> Owned(jobs, s, Target)
    requires Target in Next(jobs, s, Act(w, a)).names
    ensures Owned(jobs, Next(jobs, s, Act(w, a)), Target)
  {
    var t := Next(jobs, s, Act(w, a));
    if Target in s.names {
      var v :| 0 <= v < |jobs| && s.writers[v].won;
      assert t.writers[v].won;
    } else {
      assert t.writers[w].won;
    }
  }

  lemma {:induction false} ScratchOwned(jobs: seq<Job>, s: State, w: nat, a: Action, name: Name)
    requires Matches(jobs, s) && Enabled(jobs, s, Act(w, a)) && Fits(jobs, s, w) && name.Scratch?
    requires name in s.names ==> Owned(jobs, s, name)
    requires name in Next(jobs, s, Act(w, a)).names
    ensures Owned(jobs, Next(jobs, s, Act(w, a)), name)
  {
    var t := Next(jobs, s, Act(w, a));
    if name in s.names {
      var v :| 0 <= v < |jobs| && Live(s.writers[v]) && ScratchOf(jobs[v], s.writers[v]) == name;
      assert Live(t.writers[v]) && ScratchOf(jobs[v], t.writers[v]) == name;
    } else {
      assert Live(t.writers[w]) && ScratchOf(jobs[w], t.writers[w]) == name;
    }
  }

  lemma {:induction false} StillOwned(jobs: seq<Job>, s: State, w: nat, a: Action, name: Name)
    requires Inv(jobs, s) && Enabled(jobs, s, Act(w, a))
    requires name in Next(jobs, s, Act(w, a)).names
    ensures Owned(jobs, Next(jobs, s, Act(w, a)), name)
  {
    assert Fits(jobs, s, w);
    match name
    case Target => TargetOwned(jobs, s, w, a);
    case Claim =>
    case Scratch(_, _) => ScratchOwned(jobs, s, w, a, name);
  }

  lemma {:induction false} AllFit(jobs: seq<Job>, s: State, w: nat, a: Action)
    requires Uniform(jobs) && Inv(jobs, s) && Enabled(jobs, s, Act(w, a)) && Spaced(jobs, s, Act(w, a), TICKETS)
    ensures forall v :: 0 <= v < |jobs| ==> Fits(jobs, Next(jobs, s, Act(w, a)), v)
  {
    var t := Next(jobs, s, Act(w, a));
    forall v | 0 <= v < |jobs| ensures Fits(jobs, t, v) {
      if v == w {
        OwnFits(jobs, s, w, a);
      } else {
        assert Fits(jobs, s, w) && Fits(jobs, s, v) && Apart(jobs, s, w, v);
        StepEffect(jobs, s, w, a);
        OtherFits(jobs, s, t, w, v);
      }
    }
  }

  lemma {:induction false} AllApart(jobs: seq<Job>, s: State, w: nat, a: Action)
    requires Uniform(jobs) && Inv(jobs, s) && Enabled(jobs, s, Act(w, a)) && Spaced(jobs, s, Act(w, a), TICKETS)
    ensures forall u, v :: 0 <= u < |jobs| && 0 <= v < |jobs| && u != v ==> Apart(jobs, Next(jobs, s, Act(w, a)), u, v)
  {
    var t := Next(jobs, s, Act(w, a));
    forall u, v | 0 <= u < |jobs| && 0 <= v < |jobs| && u != v ensures Apart(jobs, t, u, v) {
      if u == w {
        OwnApart(jobs, s, w, a, v);
      } else if v == w {
        OwnApart(jobs, s, w, a, u);
      } else {
        assert Fits(jobs, s, w) && Apart(jobs, s, u, v) && Apart(jobs, s, w, u) && Apart(jobs, s, w, v);
        StepEffect(jobs, s, w, a);
        OthersApart(jobs, s, t, w, u, v);
      }
    }
  }

  /** No step of any writer touches a published file, by any of its names. */
  lemma {:induction false} TargetKept(jobs: seq<Job>, s: State, l: Label)
    requires Inv(jobs, s) && Enabled(jobs, s, l) && Spaced(jobs, s, l, TICKETS)
    ensures Target in s.names ==> Kept(s, Next(jobs, s, l))
  {
    if l.Act? {
      assert Fits(jobs, s, l.w);
      StepEffect(jobs, s, l.w, l.a);
    }
  }

  /** The target still names the same inode, and the inode holds the same bytes. */
  predicate Kept(s: State, t: State) {
    && Target in s.names && Target in t.names && s.names[Target] == t.names[Target]
    && s.names[Target] < |s.data| && s.names[Target] < |t.data|
    && s.data[s.names[Target]] == t.data[t.names[Target]]
  }

  /** Every step of every writer keeps the invariant. */
  lemma {:induction false} StepInv(jobs: seq<Job>, s: State, l: Label)
    requires Uniform(jobs) && Inv(jobs, s) && Enabled(jobs, s, l) && Spaced(jobs, s, l, TICKETS)
    ensures Inv(jobs, Next(jobs, s, l))
  {
    match l
    case Elsewhere(token, n) => ElsewhereInv(jobs, s, token, n);
    case Act(w, a) =>
      StepMatches(jobs, s, w, a);
      AllFit(jobs, s, w, a);
      AllApart(jobs, s, w, a);
      forall name | name in Next(jobs, s, l).names ensures Owned(jobs, Next(jobs, s, l), name) {
        StillOwned(jobs, s, w, a, name);
      }
  }

  lemma {:induction false} ElsewhereInv(jobs: seq<Job>, s: State, token: nat, n: nat)
    requires Inv(jobs, s)
    ensures Inv(jobs, Next(jobs, s, Elsewhere(token, n)))
  {
    var t := Next(jobs, s, Elsewhere(token, n));
    assert forall v :: 0 <= v < |jobs| ==> Fits(jobs, s, v) ==> Fits(jobs, t, v);
    assert forall u, v :: 0 <= u < |jobs| && 0 <= v < |jobs| && u != v ==>
      Apart(jobs, s, u, v) ==> Apart(jobs, t, u, v);
    assert forall name :: name in s.names ==> Owned(jobs, s, name) ==> Owned(jobs, t, name);
  }

  lemma {:induction false} StepMatches(jobs: seq<Job>, s: State, w: nat, a: Action)
    requires Matches(jobs, s) && Enabled(jobs, s, Act(w, a))
    ensures Matches(jobs, Next(jobs, s, Act(w, a)))
  {
    var t := Next(jobs, s, Act(w, a));
    assert |s.data| <= |t.data|;
  }
}
