/**
 `publish_file` itself: its loops, its `try` and its `finally`, run by one writer while every
 other writer takes any number of steps between any two of its calls. Which of its own calls fail,
 and how long each wait lasts, is given and not chosen.
 */
module Publisher {
  import opened Publication
  import opened PublicationSafety
  import opened PublicationRuns

  /** What becomes of one call: it works, it raises, or it is refused in the way its caller expects. */
  datatype Fate = Works | Raises | Refused

  /** How often this writer has looked for the target since it last tried for the claim. */
  function Looks(run: seq<Label>, me: nat): nat {
    if run == [] then 0 else
      var last, before := run[|run| - 1], Looks(run[..|run| - 1], me);
      if last.Act? && last.w == me then LooksAfter(before, last.a) else before
  }

  function LooksAfter(looks: nat, a: Action): nat {
    if a.CreateClaim? || a.ClaimDenied? then 0 else if a.PollTarget? then looks + 1 else looks
  }

  /** This writer neither crashed nor failed to remove a sentinel of its own. */
  predicate TidyIn(run: seq<Label>, me: nat) {
    run == [] ||
    var last := run[|run| - 1];
    TidyIn(run[..|run| - 1], me) && last != Act(me, Release(false)) && last != Act(me, Crash)
  }

  class Site {
    const jobs: seq<Job>
    const me: nat
    const fates: seq<Fate>          // what becomes of this writer's calls, in order; later ones work
    const patience: nat -> nat      // how many looks the wait after each claim attempt has time for
    var calls: nat                  // how many of its calls have met their fate
    var state: State
    var pending: seq<Label>         // what the other writers are going to do, in order
    ghost var run: seq<Label>       // everything that has happened

    ghost predicate Valid()
      reads this
    {
      && me < |jobs| && Uniform(jobs)
      && Admissible(jobs, run, TICKETS) && state == Final(jobs, run)
    }

    function Self(): Writer
      reads this
      requires me < |state.writers|
    {
      state.writers[me]
    }

    function FateAt(k: nat): Fate {
      if k < |fates| then fates[k] else Works
    }

    predicate AllWork(n: nat) {
      n == 0 || (AllWork(n - 1) && FateAt(n - 1).Works?)
    }

    /** None of this writer's calls has failed so far. */
    predicate Clean()
      reads this
    {
      AllWork(calls)
    }

    ghost predicate Tidy()
      reads this
    {
      TidyIn(run, me)
    }

    /** Without a failing call, nothing of this writer's is left lying about. */
    twostate predicate StillClean()
      reads this
    {
      Clean() ==> old(Clean()) && (old(Tidy()) ==> Tidy())
    }

    ghost predicate ScratchThere()
      reads this
      requires me < |state.writers| && me < |jobs|
    {
      ScratchOf(jobs[me], Self()) in state.names
    }

    constructor (jobs: seq<Job>, me: nat, pending: seq<Label>, fates: seq<Fate>, patience: nat -> nat)
      requires me < |jobs| && Uniform(jobs)
      ensures Valid() && this.jobs == jobs && this.me == me && run == [] && state == Init(jobs)
      ensures this.fates == fates && this.patience == patience && this.pending == pending && calls == 0
    {
      this.jobs, this.me, this.pending, this.fates, this.patience := jobs, me, pending, fates, patience;
      state, run, calls := Init(jobs), [], 0;
    }

    lemma {:induction false} InvHolds()
      requires Valid()
      ensures Inv(jobs, state)
    {
      InitInv(jobs);
      RunInv(jobs, Init(jobs), run);
    }

    lemma {:induction false} Mine()
      requires Valid()
      ensures OutcomeFits(jobs[me], state, Self()) && ClaimFits(jobs[me], state, Self())
      ensures Ready(Self()) || Self().pc.Writing? ==> ScratchThere()
      ensures Self().pc.Writing? ==> Self().sent <= |jobs[me].payload|
    {
      InvHolds();
      assert Fits(jobs, state, me);
    }

    /** Nobody else's step takes away the scratch name of a writer at work. */
    lemma {:induction false} OthersLeaveScratch(l: Label)
      requires Valid() && Enabled(jobs, state, l) && !(l.Act? && l.w == me) && Live(Self()) && ScratchThere()
      ensures ScratchOf(jobs[me], Self()) in Next(jobs, state, l).names
    {
      if l.Act? {
        InvHolds();
        assert Fits(jobs, state, l.w) && Apart(jobs, state, l.w, me);
        StepEffect(jobs, state, l.w, l.a);
      }
    }

    /** What becomes of the next call. */
    method Meet() returns (fate: Fate)
      modifies this`calls
      ensures fate == FateAt(old(calls)) && calls == old(calls) + 1
      ensures Clean() <==> old(Clean()) && fate.Works?
    {
      fate := FateAt(calls);
      calls := calls + 1;
    }

    /** One step of anybody, appended to the history. */
    method Take(l: Label)
      requires Valid() && Enabled(jobs, state, l) && Spaced(jobs, state, l, TICKETS)
      modifies this`state, this`run
      ensures Valid() && run == old(run) + [l] && state == Next(jobs, old(state), l)
      ensures Target in old(state).names ==> Kept(old(state), state)
      ensures Looks(run, me) ==
        if l.Act? && l.w == me then LooksAfter(Looks(old(run), me), l.a) else Looks(old(run), me)
      ensures Tidy() <==> old(Tidy()) && l != Act(me, Release(false)) && l != Act(me, Crash)
    {
      InvHolds();
      TargetKept(jobs, state, l);
      ghost var t := Extend(jobs, Init(jobs), run, l, TICKETS);
      assert (run + [l])[..|run|] == run;
      state := Next(jobs, state, l);
      run := run + [l];
    }

    /** The other writers move; a label they cannot take is passed over. */
    method Interfere()
      requires Valid()
      modifies this`state, this`run, this`pending
      ensures Valid() && old(run) <= run && Self() == old(Self())
      ensures Looks(run, me) == Looks(old(run), me) && (Tidy() <==> old(Tidy()))
      ensures Target in old(state).names ==> Kept(old(state), state)
      ensures Live(Self()) && old(ScratchThere()) ==> ScratchThere()
      ensures old(pending) == [] ==> pending == [] && state == old(state)
    {
      var moves: nat := *;
      while moves > 0 && pending != []
        invariant Valid() && old(run) <= run && Self() == old(Self())
        invariant Looks(run, me) == Looks(old(run), me) && (Tidy() <==> old(Tidy()))
        invariant Target in old(state).names ==> Kept(old(state), state)
        invariant Live(Self()) && old(ScratchThere()) ==> ScratchThere()
        invariant old(pending) == [] ==> pending == [] && state == old(state)
      {
        var l := pending[0];
        pending := pending[1..];
        if !(l.Act? && l.w == me) && Enabled(jobs, state, l) && Spaced(jobs, state, l, TICKETS) { OtherMoves(l); }
        moves := moves - 1;
      }
    }

    /** One step of another writer. */
    method OtherMoves(l: Label)
      requires Valid() && !(l.Act? && l.w == me) && Enabled(jobs, state, l) && Spaced(jobs, state, l, TICKETS)
      modifies this`state, this`run
      ensures Valid() && old(run) <= run && Self() == old(Self())
      ensures Looks(run, me) == Looks(old(run), me) && (Tidy() <==> old(Tidy()))
      ensures Target in old(state).names ==> Kept(old(state), state)
      ensures Live(Self()) && old(ScratchThere()) ==> ScratchThere()
    {
      if Live(Self()) && ScratchThere() { OthersLeaveScratch(l); }
      Take(l);
    }

    /** One call of this writer, after the others have moved. */
    method Call(a: Action) returns (ghost at: State)
      requires Valid() && !a.Begin? && !a.OpenWinner? && !a.ReadWinner? && !a.Decide?
      requires CanAct(jobs[me], state, Self(), a)
      modifies this`state, this`run, this`pending
      ensures Valid() && old(run) <= run && Looks(run, me) == LooksAfter(Looks(old(run), me), a)
      ensures Tidy() <==> old(Tidy()) && a != Release(false) && a != Crash
      ensures forall n :: n in at.names ==> at.names[n] < |at.data|
      ensures CanAct(jobs[me], at, old(Self()), a) && Self() == After(jobs[me], at, old(Self()), a)
      ensures Ready(old(Self())) || (Live(old(Self())) && old(ScratchThere())) ==>
        ScratchOf(jobs[me], old(Self())) in at.names
      ensures state.names == NamesAfter(jobs[me], at, old(Self()), a)
      ensures old(pending) == [] ==> pending == [] && at == old(state)
    {
      Interfere();
      at := state;
      Mine();
      Take(Act(me, a));
    }

    /** The two names another writer can see, unchanged. */
    twostate predicate SameView()
      reads this
    {
      (Target in state.names <==> Target in old(state).names) && (Claim in state.names <==> Claim in old(state).names)
    }

    /** The producer writes its payload in chunks, or fails and leaves what it wrote, or writes nothing. */
    method Produce() returns (ok: bool)
      requires Valid() && Self().pc.Producing?
      modifies this`state, this`run, this`pending, this`calls
      ensures Valid() && old(run) <= run && Self().tries == old(Self().tries)
      ensures Self().pc == (if ok then Written else Closing(Faulted))
      ensures StillClean() && (Clean() ==> ok && ScratchThere())
      ensures old(pending) == [] ==> pending == [] && SameView()
    {
      var fate := Meet();
      if fate.Raises? {
        var _ := Call(Fault);
        return false;
      }
      if fate.Refused? {
        var _ := Call(SkipFile);
        return true;
      }
      var _ := Call(Open);
      ok := WritePayload();
    }

    /** The chunks, each of any size. */
    method WritePayload() returns (ok: bool)
      requires Valid() && Self().pc.Writing?
      modifies this`state, this`run, this`pending, this`calls
      ensures Valid() && old(run) <= run && Self().tries == old(Self().tries)
      ensures Self().pc == (if ok then Written else Closing(Faulted))
      ensures StillClean() && (Clean() ==> ok)
      ensures ok ==> ScratchThere()
      ensures old(pending) == [] ==> pending == [] && SameView()
    {
      Mine();
      while Self().sent < |jobs[me].payload|
        invariant Valid() && old(run) <= run && Self().pc.Writing? && Self().tries == old(Self().tries)
        invariant Self().sent <= |jobs[me].payload|
        invariant StillClean() && (old(Clean()) ==> Clean())
        invariant old(pending) == [] ==> pending == [] && SameView()
        decreases |jobs[me].payload| - Self().sent
      {
        ok := WriteChunk();
        if !ok { return; }
      }
      Mine();
      var _ := Call(Return);
      ok := true;
    }

    /** One chunk, of any size. */
    method WriteChunk() returns (ok: bool)
      requires Valid() && Self().pc.Writing? && Self().sent < |jobs[me].payload|
      modifies this`state, this`run, this`pending, this`calls
      ensures Valid() && old(run) <= run && Self().tries == old(Self().tries)
      ensures if ok then Self().pc.Writing? else Self().pc == Closing(Faulted)
      ensures ok ==> old(Self().sent) < Self().sent <= |jobs[me].payload|
      ensures StillClean() && (Clean() <==> old(Clean()) && ok)
      ensures old(pending) == [] ==> pending == [] && SameView()
    {
      var fate := Meet();
      ok := fate.Works?;
      if ok {
        var n: nat :| 0 < n <= |jobs[me].payload| - Self().sent;
        var _ := Call(Write(n));
        Mine();
      } else {
        var _ := Call(Fault);
      }
    }

    /** One look for the target and one for the claim; false when the wait goes on. */
    method LookTwice() returns (over: bool)
      requires Valid() && Self().pc.Polling?
      modifies this`state, this`run, this`pending, this`calls
      ensures Valid() && old(run) <= run && Self().tries == old(Self().tries)
      ensures over <==> !Self().pc.Polling?
      ensures over ==> Self().pc.Comparing? || Self().pc.Claiming? || Self().pc == Closing(Faulted)
      ensures StillClean() && (Clean() ==> Self().pc != Closing(Faulted))
      ensures !over ==> Looks(run, me) == Looks(old(run), me) + 1
      ensures old(pending) == [] ==> pending == [] && SameView()
      ensures old(pending) == [] && Clean() && Target in old(state).names ==> Self().pc.Comparing?
      ensures old(pending) == [] && Clean() && Target !in old(state).names && Claim in old(state).names ==> !over
    {
      var fate := Meet();
      if !fate.Works? {
        var _ := Call(Fault);
        return true;
      }
      var _ := Call(PollTarget);
      if Self().pc.Comparing? { return true; }
      var _ := Call(PollClaim);
      over := Self().pc.Claiming?;
    }

    /** `_await_publication`: true when the target appeared, false when the claim went first. */
    method AwaitPublication() returns (appeared: bool)
      requires Valid() && Self().pc.Polling? && Looks(run, me) == 0
      modifies this`state, this`run, this`pending, this`calls
      ensures Valid() && old(run) <= run && Self().tries == old(Self().tries)
      ensures Self().pc in {Closing(TimedOut), Closing(Faulted)} || Self().pc.Comparing? || Self().pc.Claiming?
      ensures appeared <==> Self().pc.Comparing?
      ensures Self().pc == Closing(TimedOut) ==> Looks(run, me) == patience(Self().tries)
      ensures StillClean() && (Clean() ==> Self().pc != Closing(Faulted))
      ensures old(pending) == [] ==> pending == [] && SameView()
      ensures old(pending) == [] && Clean() && patience(Self().tries) > 0 && Target in old(state).names ==> appeared
      ensures old(pending) == [] && Clean() && Target !in old(state).names && Claim in old(state).names ==>
        Self().pc == Closing(TimedOut)
    {
      var looks := 0;
      while looks < patience(Self().tries)
        invariant Valid() && old(run) <= run && Self().pc.Polling? && Self().tries == old(Self().tries)
        invariant Looks(run, me) == looks <= patience(Self().tries)
        invariant StillClean()
        invariant old(pending) == [] ==> pending == [] && SameView()
        invariant old(pending) == [] && Clean() && Target in old(state).names ==> looks == 0
        decreases patience(Self().tries) - looks
      {
        var over := LookTwice();
        if over { return Self().pc.Comparing?; }
        looks := looks + 1;
      }
      var _ := Call(Expire);
      appeared := false;
    }

    /** The try for the sentinel: it is created, or somebody else's is there, or the creation is refused or fails. */
    method TryForClaim()
      requires Valid() && Self().pc.Claiming? && Self().tries < CLAIM_ATTEMPTS
      modifies this`state, this`run, this`pending, this`calls
      ensures Valid() && old(run) <= run
      ensures Self().pc.Holding? || Self().pc.Polling? || Self().pc == Closing(Faulted)
      ensures Self().pc != Closing(Faulted) ==> Self().tries == old(Self().tries) + 1
      ensures Self().pc.Polling? ==> Looks(run, me) == 0
      ensures StillClean() && (Clean() ==> Self().pc != Closing(Faulted))
      ensures old(pending) == [] ==> pending == [] && (Target in state.names <==> Target in old(state).names)
      ensures old(pending) == [] && Clean() ==>
        Claim in state.names && Self().pc == if Claim in old(state).names then Polling else Holding
    {
      var fate := Meet();
      match fate
      case Works => var _ := Call(CreateClaim);
      case Refused => var _ := Call(ClaimDenied);
      case Raises => var _ := Call(Fault);
    }

    /** `_reserve_by_claim`: at most eight attempts at the sentinel. */
    method ReserveByClaim()
      requires Valid() && Self().pc.Claiming? && Self().tries == 0
      modifies this`state, this`run, this`pending, this`calls
      ensures Valid() && old(run) <= run
      ensures Self().pc.Closing? || Self().pc.Comparing?
      ensures Accounted()
      ensures StillClean()
      ensures old(pending) == [] ==> pending == []
      ensures old(pending) == [] && Clean() && patience(1) > 0 ==>
        Self().pc == ByClaimAlone(Target in old(state).names, Claim in old(state).names)
    {
      var attempt := 0;
      while attempt < CLAIM_ATTEMPTS
        invariant Valid() && old(run) <= run
        invariant attempt <= CLAIM_ATTEMPTS && Self().pc.Claiming? && Self().tries == attempt
        invariant StillClean()
        invariant old(pending) == [] ==> pending == []
        invariant attempt > 0 ==> !(old(pending) == [] && Clean() && patience(1) > 0)
        invariant attempt == 0 ==> state == old(state) && calls == old(calls)
      {
        attempt := attempt + 1;
        TryForClaim();
        if Self().pc.Closing? { return; }
        if Self().pc.Polling? {
          var appeared := AwaitPublication();
          if appeared || Self().pc.Closing? { return; }
        } else {
          PublishUnderClaim();
          return;
        }
      }
      var _ := Call(GiveUp);
    }

    /** How the claim ends for a writer that nothing disturbs, whose wait has time for a look. */
    function ByClaimAlone(target: bool, claim: bool): Pc {
      if target then Comparing else if claim then Closing(TimedOut) else Closing(Published)
    }

    /** Each way to end without an answer has its cause. */
    ghost predicate Accounted()
      reads this
      requires me < |state.writers|
    {
      && (Self().pc == Closing(Faulted) ==> !Clean())
      && (Self().pc == Closing(Exhausted) ==> Self().tries == CLAIM_ATTEMPTS)
      && (Self().pc == Closing(TimedOut) ==> Looks(run, me) == patience(Self().tries))
    }

    /** The holder's half: look, replace, and remove the sentinel whatever happened. */
    method PublishUnderClaim()
      requires Valid() && Self().pc.Holding?
      modifies this`state, this`run, this`pending, this`calls
      ensures Valid() && old(run) <= run
      ensures Self().pc == Closing(Published) || Self().pc == Closing(Faulted) || Self().pc.Comparing?
      ensures StillClean() && (Clean() ==> Self().pc != Closing(Faulted))
      ensures old(pending) == [] ==> pending == []
      ensures old(pending) == [] && Clean() ==>
        Self().pc == if Target in old(state).names then Comparing else Closing(Published)
    {
      TestAndReplace();
      var fate := Meet();
      var _ := Call(Release(fate.Works?));
    }

    /** The body of the inner `try`. */
    method TestAndReplace()
      requires Valid() && Self().pc.Holding?
      modifies this`state, this`run, this`pending, this`calls
      ensures Valid() && old(run) <= run && Self().pc.Releasing?
      ensures StillClean() && (Clean() ==> Self().pc != Releasing(Broken))
      ensures old(pending) == [] ==> pending == []
      ensures old(pending) == [] && Clean() ==>
        Self().pc == Releasing(if Target in old(state).names then Lost else Won)
    {
      var fate := Meet();
      if !fate.Works? {
        var _ := Call(Fault);
        return;
      }
      var _ := Call(TestTarget);
      if Self().pc.Replacing? { ReplaceTarget(); }
    }

    /** `os.replace`. */
    method ReplaceTarget()
      requires Valid() && Self().pc.Replacing?
      modifies this`state, this`run, this`pending, this`calls
      ensures Valid() && old(run) <= run
      ensures Self().pc == Releasing(Won) || Self().pc == Releasing(Broken)
      ensures StillClean() && (Clean() ==> Self().pc == Releasing(Won))
      ensures old(pending) == [] ==> pending == []
    {
      var fate := Meet();
      if fate.Works? { var _ := Call(Replace); } else { var _ := Call(Fault); }
    }

    function Size(): nat
      reads this
      requires me < |state.writers| && Self().source < |state.data|
    {
      |state.data[Self().source]|
    }

    /** Open the winner's file, or give up when it does not open in time. */
    method OpenTheWinner()
      requires Valid() && Self().pc.Comparing?
      modifies this`state, this`run, this`pending, this`calls
      ensures Valid() && old(run) <= run
      ensures Self().pc.Reading? || Self().pc == Closing(Faulted)
      ensures StillClean() && (Clean() ==> Self().pc.Reading?)
      ensures old(pending) == [] ==> pending == []
    {
      Mine();
      Interfere();
      var fate := Meet();
      Take(Act(me, if fate.Works? then OpenWinner else Fault));
    }

    /** Read some more of it: what is there to read does not change while the others move. */
    method ReadChunk()
      requires Valid() && Self().pc.Reading? && |Self().got| < Size()
      modifies this`state, this`run, this`pending, this`calls
      ensures Valid() && old(run) <= run
      ensures Self().pc == Closing(Faulted)
        || (Self().pc.Reading? && Size() == old(Size()) && |Self().got| > |old(Self().got)|)
      ensures StillClean() && (Clean() ==> Self().pc.Reading?)
      ensures old(pending) == [] ==> pending == []
    {
      LetOthersRead();
      var fate := Meet();
      if fate.Works? {
        ReadSome();
      } else {
        Take(Act(me, Fault));
      }
    }

    method LetOthersRead()
      requires Valid() && Self().pc.Reading? && |Self().got| < Size()
      modifies this`state, this`run, this`pending
      ensures Valid() && old(run) <= run && Self() == old(Self())
      ensures Self().source < |state.data| && Size() == old(Size()) && (Tidy() <==> old(Tidy()))
      ensures old(pending) == [] ==> pending == []
    {
      Mine();
      Interfere();
    }

    /** Any positive number of bytes that are there. */
    method ReadSome()
      requires Valid() && Self().pc.Reading? && Self().source < |state.data| && |Self().got| < Size()
      modifies this`state, this`run
      ensures Valid() && old(run) <= run && Self().pc.Reading? && Self().source < |state.data|
      ensures Size() == old(Size()) && |Self().got| > |old(Self().got)| && (Tidy() <==> old(Tidy()))
    {
      var n: nat :| 0 < n <= Size() - |Self().got|;
      Take(Act(me, ReadWinner(n)));
    }

    /** `_digest_of_the_winner` and the comparison. */
    method CompareWithTheWinner()
      requires Valid() && Self().pc.Comparing?
      modifies this`state, this`run, this`pending, this`calls
      ensures Valid() && old(run) <= run
      ensures Self().pc in {Closing(AlreadyIdentical), Closing(DigestConflict), Closing(Faulted)}
      ensures StillClean() && (Clean() ==> Self().pc != Closing(Faulted))
      ensures old(pending) == [] ==> pending == []
    {
      OpenTheWinner();
      while Self().pc.Reading? && |Self().got| < Size()
        invariant Valid() && old(run) <= run
        invariant Self().pc.Reading? || Self().pc == Closing(Faulted)
        invariant StillClean() && (Clean() ==> Self().pc.Reading?)
        invariant old(pending) == [] ==> pending == []
        decreases Self().pc.Reading?, if Self().pc.Reading? then Size() - |Self().got| else 0
      {
        ReadChunk();
      }
      if Self().pc.Reading? {
        Take(Act(me, Decide));
      }
    }

    /** `_reserve`: one link, or the claim. */
    method Reserve()
      requires Valid() && Self().pc.Hashed? && Self().tries == 0
      modifies this`state, this`run, this`pending, this`calls
      ensures Valid() && old(run) <= run
      ensures Self().pc.Closing? || Self().pc.Comparing?
      ensures Accounted()
      ensures StillClean()
      ensures jobs[me].links ==> Self().pc == Closing(Published) || Self().pc.Comparing?
      ensures old(pending) == [] ==> pending == []
      ensures old(pending) == [] && Clean() && patience(1) > 0 ==>
        Self().pc == ReservedAlone(Target in old(state).names, Claim in old(state).names)
    {
      if jobs[me].links {
        var _ := Call(Link);
      } else {
        var _ := Call(NoLink);
        ReserveByClaim();
      }
    }

    /** How the reservation ends for a writer that nothing disturbs. */
    function ReservedAlone(target: bool, claim: bool): Pc
      requires me < |jobs|
    {
      if jobs[me].links then if target then Comparing else Closing(Published)
      else ByClaimAlone(target, claim)
    }

    /** `_reserve`, and for a loser the comparison. */
    method ReserveAndCompare()
      requires Valid() && Self().pc.Hashed? && Self().tries == 0
      modifies this`state, this`run, this`pending, this`calls
      ensures Valid() && old(run) <= run && Self().pc.Closing?
      ensures Accounted()
      ensures StillClean()
      ensures jobs[me].links ==> Answered(Self().pc.outcome) || Self().pc.outcome.Faulted?
      ensures old(pending) == [] ==> pending == []
      ensures old(pending) == [] && Clean() && patience(1) > 0 ==>
        Alone(Self().pc.outcome, Target in old(state).names, Claim in old(state).names)
    {
      Reserve();
      if Self().pc.Comparing? {
        CompareWithTheWinner();
      }
    }

    /** The outcomes that say who stored what. */
    predicate Answered(o: Outcome) { o.Published? || o.AlreadyIdentical? || o.DigestConflict? }

    /** How the call ends for a writer whose calls work and that nothing disturbs. */
    predicate Alone(o: Outcome, target: bool, claim: bool)
      requires me < |jobs|
    {
      if target then o.AlreadyIdentical? || o.DigestConflict?
      else if jobs[me].links || !claim then o.Published?
      else o.TimedOut?
    }

    /** The body of the `try`. */
    method Attempt()
      requires Valid() && Self().pc.Producing? && Self().tries == 0
      modifies this`state, this`run, this`pending, this`calls
      ensures Valid() && old(run) <= run && Self().pc.Closing?
      ensures Accounted()
      ensures StillClean()
      ensures jobs[me].links ==> Answered(Self().pc.outcome) || Self().pc.outcome.Faulted?
      ensures old(pending) == [] ==> pending == []
      ensures old(pending) == [] && Clean() && patience(1) > 0 ==>
        Alone(Self().pc.outcome, Target in old(state).names, Claim in old(state).names)
    {
      var produced := Produce();
      if produced {
        Digest();
        if Self().pc.Hashed? {
          ReserveAndCompare();
        }
      }
    }

    /** The scratch file is looked for and digested; it is missing when the producer wrote none. */
    method Digest()
      requires Valid() && Self().pc.Written? && Self().tries == 0
      modifies this`state, this`run, this`pending, this`calls
      ensures Valid() && old(run) <= run && Self().tries == 0
      ensures Self().pc.Hashed? || Self().pc == Closing(Faulted)
      ensures StillClean() && (Clean() ==> (old(ScratchThere()) ==> Self().pc.Hashed?))
      ensures old(pending) == [] ==> pending == [] && SameView()
    {
      var fate := Meet();
      if fate.Works? { var _ := Call(Hash); } else { var _ := Call(Fault); }
    }

    /**
     Create the target exactly once, or say who did. The scratch name must be fewer than 65536
     allocations younger than that of any writer of this process that is still at work.
     */
    method PublishFile() returns (outcome: Outcome)
      requires Valid() && Self() == START && calls == 0
      requires Spaced(jobs, state, Act(me, Begin), TICKETS)
      modifies this`state, this`run, this`pending, this`calls
      ensures Valid() && old(run) <= run && Self().pc == Done(outcome)
      // What it answers is true.
      ensures outcome == Published ==> Holds(state, jobs[me].payload)
      ensures outcome == Published ==> forall v :: 0 <= v < |jobs| && v != me ==> !Ended(state.writers[v], Published)
      ensures outcome == AlreadyIdentical ==> Holds(state, jobs[me].payload) && !Self().won
      ensures outcome == DigestConflict ==> Target in state.names && !Holds(state, jobs[me].payload)
      ensures Target in old(state).names ==> Kept(old(state), state) && outcome != Published
      // It fails to answer only for cause, and leaves a sentinel only for cause.
      ensures StillClean()
      ensures outcome == Faulted ==> !Clean()
      ensures outcome == Exhausted ==> !jobs[me].links && Self().tries == 8
      ensures outcome == TimedOut ==> !jobs[me].links && Looks(run, me) == patience(Self().tries)
      // Undisturbed, it publishes, compares, or waits out somebody's claim.
      ensures old(pending) == [] && Clean() && patience(1) > 0 ==>
        outcome ==
          if Target in old(state).names then
            if Holds(old(state), jobs[me].payload) then AlreadyIdentical else DigestConflict
          else if jobs[me].links || Claim !in old(state).names then Published
          else TimedOut
    {
      ghost var before := run;
      Take(Act(me, Begin));
      outcome := AttemptAndClose();
      Concluded(before);
    }

    /** The `try`, and its `finally`. */
    method AttemptAndClose() returns (outcome: Outcome)
      requires Valid() && Self().pc.Producing? && Self().tries == 0
      modifies this`state, this`run, this`pending, this`calls
      ensures Valid() && old(run) <= run && Self().pc == Done(outcome) && StillClean()
      ensures outcome == Faulted ==> !Clean()
      ensures outcome == Exhausted ==> !jobs[me].links && Self().tries == CLAIM_ATTEMPTS
      ensures outcome == TimedOut ==> !jobs[me].links && Looks(run, me) == patience(Self().tries)
      ensures old(pending) == [] && Clean() && patience(1) > 0 ==>
        Alone(outcome, Target in old(state).names, Claim in old(state).names)
    {
      Attempt();
      outcome := Self().pc.outcome;
      var _ := Call(Close);
    }

    /** What the invariant says once this writer is done. */
    lemma {:induction false} Concluded(before: seq<Label>)
      requires Valid() && before <= run && Self().pc.Done?
      ensures Possible(jobs, Init(jobs), before)
      ensures Told(jobs, state, me) && OneWinner(jobs, state)
      ensures Target in Final(jobs, before).names ==> Kept(Final(jobs, before), state)
      ensures Target in Final(jobs, before).names && !Final(jobs, before).writers[me].won ==> !Self().won
    {
      var more := run[|before|..];
      assert before + more == run;
      OutcomesAreTruthful(jobs, run);
      WrittenOnce(jobs, before, more);
      ExecAppend(jobs, Init(jobs), before, more, TICKETS);
      InitInv(jobs);
      RunInv(jobs, Init(jobs), before);
      if Target in Final(jobs, before).names && !Final(jobs, before).writers[me].won {
        NoLateWinner(jobs, Final(jobs, before), more, me);
      }
    }
  }
}
