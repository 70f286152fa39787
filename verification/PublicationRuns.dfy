/**
 Whole runs of the publication protocol: what is true after every interleaving, and
 exactly which set-ups it is true of.
 */
module PublicationRuns {
  import opened Publication
  import opened PublicationSafety

  /** A run from an empty directory whose scratch names are spaced by fewer than `window` allocations. */
  predicate Admissible(jobs: seq<Job>, run: seq<Label>, window: nat) {
    Possible(jobs, Init(jobs), run) && SpacedRun(jobs, Init(jobs), run, window)
  }

  function Final(jobs: seq<Job>, run: seq<Label>): State
    requires Possible(jobs, Init(jobs), run)
  {
    Exec(jobs, Init(jobs), run)
  }

  lemma {:induction false} RunInv(jobs: seq<Job>, s: State, run: seq<Label>)
    requires Uniform(jobs) && Inv(jobs, s) && Possible(jobs, s, run) && SpacedRun(jobs, s, run, TICKETS)
    ensures Inv(jobs, Exec(jobs, s, run))
    ensures Target in s.names ==> Kept(s, Exec(jobs, s, run))
    decreases |run|
  {
    if run != [] {
      StepInv(jobs, s, run[0]);
      TargetKept(jobs, s, run[0]);
      RunInv(jobs, Next(jobs, s, run[0]), run[1..]);
    }
  }

  lemma {:induction false} ExecAppend(jobs: seq<Job>, s: State, run: seq<Label>, more: seq<Label>, window: nat)
    requires Possible(jobs, s, run + more) || (Possible(jobs, s, run) && Possible(jobs, Exec(jobs, s, run), more))
    ensures Possible(jobs, s, run + more) && Possible(jobs, s, run) && Possible(jobs, Exec(jobs, s, run), more)
    ensures Exec(jobs, s, run + more) == Exec(jobs, Exec(jobs, s, run), more)
    ensures SpacedRun(jobs, s, run + more, window) <==>
      SpacedRun(jobs, s, run, window) && SpacedRun(jobs, Exec(jobs, s, run), more, window)
    decreases |run|
  {
    if run == [] {
      assert run + more == more;
    } else {
      assert (run + more)[0] == run[0] && (run + more)[1..] == run[1..] + more;
      ExecAppend(jobs, Next(jobs, s, run[0]), run[1..], more, window);
    }
  }

  // ---------------------------------------------------------- the promises

  predicate Won(s: State, v: nat) { v < |s.writers| && s.writers[v].won }

  /** The target goes from absent to one writer's complete bytes, and never changes afterwards. */
  lemma {:induction false} WrittenOnce(jobs: seq<Job>, run: seq<Label>, more: seq<Label>)
    requires Uniform(jobs) && Admissible(jobs, run + more, TICKETS)
    ensures Possible(jobs, Init(jobs), run)
    ensures Target in Final(jobs, run).names ==>
      && Kept(Final(jobs, run), Final(jobs, run + more))
      && exists v :: 0 <= v < |jobs| && Won(Final(jobs, run), v) && Holds(Final(jobs, run), jobs[v].payload)
  {
    ExecAppend(jobs, Init(jobs), run, more, TICKETS);
    InitInv(jobs);
    RunInv(jobs, Init(jobs), run);
    RunInv(jobs, Final(jobs, run), more);
    var s := Final(jobs, run);
    if Target in s.names {
      assert Owned(jobs, s, Target);
      var v :| 0 <= v < |jobs| && s.writers[v].won;
      assert Won(s, v) && Fits(jobs, s, v);
    }
  }

  /** What a writer is told is true when it is told, and stays true. */
  predicate Told(jobs: seq<Job>, s: State, v: nat)
    requires |s.writers| == |jobs| && v < |jobs|
  {
    match s.writers[v].pc
    case Done(Published) => Holds(s, jobs[v].payload) && s.writers[v].won
    case Done(AlreadyIdentical) => Holds(s, jobs[v].payload) && !s.writers[v].won
    case Done(DigestConflict) => Target in s.names && !Holds(s, jobs[v].payload) && !s.writers[v].won
    case _ => true
  }

  /** At most one writer ever returns PUBLISHED, and every answer matches the bytes on disk. */
  lemma {:induction false} OutcomesAreTruthful(jobs: seq<Job>, run: seq<Label>)
    requires Uniform(jobs) && Admissible(jobs, run, TICKETS)
    ensures forall v :: 0 <= v < |jobs| ==> Told(jobs, Final(jobs, run), v)
    ensures OneWinner(jobs, Final(jobs, run))
  {
    InitInv(jobs);
    RunInv(jobs, Init(jobs), run);
    var s := Final(jobs, run);
    forall v | 0 <= v < |jobs| ensures Told(jobs, s, v) {
      assert Fits(jobs, s, v);
    }
    forall u, v | 0 <= u < |jobs| && 0 <= v < |jobs| && Ended(s.writers[u], Published) && Ended(s.writers[v], Published)
      ensures u == v
    {
      assert Fits(jobs, s, u) && Fits(jobs, s, v) && (u != v ==> Apart(jobs, s, u, v));
    }
  }

  predicate OneWinner(jobs: seq<Job>, s: State)
    requires |s.writers| == |jobs|
  {
    forall u, v :: 0 <= u < |jobs| && 0 <= v < |jobs| ==>
      (Ended(s.writers[u], Published) && Ended(s.writers[v], Published) ==> u == v)
  }

  /** Nobody wins after the target is there. */
  lemma {:induction false} NoLateWinner(jobs: seq<Job>, s: State, run: seq<Label>, v: nat)
    requires Uniform(jobs) && Inv(jobs, s) && Possible(jobs, s, run) && SpacedRun(jobs, s, run, TICKETS)
    requires Target in s.names && v < |jobs| && !s.writers[v].won
    ensures !Exec(jobs, s, run).writers[v].won
    decreases |run|
  {
    if run != [] {
      StepInv(jobs, s, run[0]);
      TargetKept(jobs, s, run[0]);
      if run[0].Act? {
        assert Fits(jobs, s, run[0].w);
        StepEffect(jobs, s, run[0].w, run[0].a);
      }
      NoLateWinner(jobs, Next(jobs, s, run[0]), run[1..], v);
    }
  }

  // ------------------------------------------------------------- clean-up

  /** No writer crashed and every sentinel removal succeeded. */
  predicate Orderly(run: seq<Label>) {
    forall l :: l in run && l.Act? ==> !l.a.Crash? && l.a != Release(false)
  }

  ghost predicate ClaimHeld(s: State) {
    && (forall v :: 0 <= v < |s.writers| ==> !s.writers[v].pc.Crashed?)
    && (Claim in s.names ==> exists v :: 0 <= v < |s.writers| && InSection(s.writers[v]))
  }

  lemma {:induction false} ClaimHeldStep(jobs: seq<Job>, s: State, l: Label)
    requires Matches(jobs, s) && Enabled(jobs, s, l) && ClaimHeld(s) && Orderly([l])
    ensures ClaimHeld(Next(jobs, s, l))
  {
    var t := Next(jobs, s, l);
    assert l in [l];
    if Claim in t.names && l.Act? {
      if Claim in s.names {
        var v :| 0 <= v < |s.writers| && InSection(s.writers[v]);
        assert InSection(t.writers[v]);
      } else {
        assert InSection(t.writers[l.w]);
      }
    } else if Claim in t.names {
      assert t.writers == s.writers;
    }
  }

  lemma {:induction false} ClaimHeldRun(jobs: seq<Job>, s: State, run: seq<Label>)
    requires Possible(jobs, s, run) && ClaimHeld(s) && Orderly(run)
    ensures ClaimHeld(Exec(jobs, s, run))
    decreases |run|
  {
    if run != [] {
      ClaimHeldStep(jobs, s, run[0]);
      ClaimHeldRun(jobs, Next(jobs, s, run[0]), run[1..]);
    }
  }

  /** When every call has returned or raised, nothing but the published file is left. */
  lemma {:induction false} NothingLeftBehind(jobs: seq<Job>, run: seq<Label>)
    requires Uniform(jobs) && Admissible(jobs, run, TICKETS) && Orderly(run)
    requires forall v :: 0 <= v < |jobs| ==> !Live(Final(jobs, run).writers[v])
    ensures Final(jobs, run).names.Keys <= {Target}
  {
    InitInv(jobs);
    RunInv(jobs, Init(jobs), run);
    ClaimHeldRun(jobs, Init(jobs), run);
    var s := Final(jobs, run);
    forall name | name in s.names ensures name == Target {
      assert Owned(jobs, s, name);
    }
  }

  // ------------------------------------------------- exactly which set-ups

  /** Write `n` bytes in one go, return and digest. */
  function Fill(w: nat, n: nat): seq<Label> {
    (if n > 0 then [Act(w, Write(n))] else []) + [Act(w, Return)] + [Act(w, Hash)]
  }

  function Prepare(w: nat, n: nat): seq<Label> {
    [Act(w, Begin), Act(w, Open)] + Fill(w, n)
  }

  /** One more step at the end of a run. */
  lemma {:induction false} Extend(jobs: seq<Job>, s: State, run: seq<Label>, l: Label, window: nat) returns (t: State)
    requires Possible(jobs, s, run) && SpacedRun(jobs, s, run, window)
    requires Enabled(jobs, Exec(jobs, s, run), l) && Spaced(jobs, Exec(jobs, s, run), l, window)
    ensures Possible(jobs, s, run + [l]) && SpacedRun(jobs, s, run + [l], window)
    ensures t == Exec(jobs, s, run + [l]) == Next(jobs, Exec(jobs, s, run), l)
  {
    t := Next(jobs, Exec(jobs, s, run), l);
    if l.Act? { StepMatches(jobs, Exec(jobs, s, run), l.w, l.a); }
    assert [l][1..] == [];
    ExecAppend(jobs, s, run, [l], window);
  }

  /** The state in which writer `w` holds an open, still empty scratch file. */
  function Opened(jobs: seq<Job>, s: State, w: nat): State
    requires w < |jobs| && |s.writers| == |jobs|
  {
    var token := jobs[w].token;
    var ticket := Issued(s, token) + 1;
    State(s.names[Scratch(token, ticket % TICKETS) := |s.data|], s.data + [[]], s.issued[token := ticket],
          s.writers[w := Writer(Writing, ticket, 0, |s.data|, [], 0, 0, [], false)])
  }

  lemma {:induction false} ScratchOpened(jobs: seq<Job>, s: State, w: nat, window: nat) returns (t: State)
    requires Matches(jobs, s) && w < |jobs| && s.writers[w] == START
    requires Scratch(jobs[w].token, (Issued(s, jobs[w].token) + 1) % TICKETS) !in s.names
    requires Spaced(jobs, s, Act(w, Begin), window)
    ensures Possible(jobs, s, [Act(w, Begin), Act(w, Open)])
    ensures SpacedRun(jobs, s, [Act(w, Begin), Act(w, Open)], window)
    ensures t == Exec(jobs, s, [Act(w, Begin), Act(w, Open)]) == Opened(jobs, s, w)
  {
    t := Extend(jobs, s, [], Act(w, Begin), window);
    assert [] + [Act(w, Begin)] == [Act(w, Begin)];
    t := Extend(jobs, s, [Act(w, Begin)], Act(w, Open), window);
    assert [Act(w, Begin)] + [Act(w, Open)] == [Act(w, Begin), Act(w, Open)];
  }

  /** The state in which writer `w` has a complete, digested scratch file. */
  function Digested(jobs: seq<Job>, s: State, w: nat): State
    requires w < |jobs| && |s.writers| == |jobs|
  {
    var o := Opened(jobs, s, w);
    o.(data := s.data + [jobs[w].payload],
       writers := s.writers[w := o.writers[w].(pc := Hashed, sent := |jobs[w].payload|, mine := jobs[w].payload)])
  }

  lemma {:induction false} Filled(jobs: seq<Job>, s: State, w: nat, window: nat) returns (t: State)
    requires Matches(jobs, s) && w < |jobs| && s.writers[w].pc.Writing? && s.writers[w].sent == 0
    requires var p := s.writers[w];
      ScratchOf(jobs[w], p) in s.names && s.names[ScratchOf(jobs[w], p)] == p.file && s.data[p.file] == []
    ensures Possible(jobs, s, Fill(w, |jobs[w].payload|)) && SpacedRun(jobs, s, Fill(w, |jobs[w].payload|), window)
    ensures t == Exec(jobs, s, Fill(w, |jobs[w].payload|))
    ensures t.names == s.names && t.issued == s.issued && t.data == s.data[s.writers[w].file := jobs[w].payload]
    ensures t.writers == s.writers[w :=
      s.writers[w].(pc := Hashed, sent := |jobs[w].payload|, mine := jobs[w].payload)]
  {
    var payload := jobs[w].payload;
    var n, run := |payload|, [];
    t := s;
    if n > 0 {
      t := Extend(jobs, s, [], Act(w, Write(n)), window);
      run := [Act(w, Write(n))];
      assert [] + run == run && payload[0..n] == payload && [] + payload == payload;
    }
    t := Extend(jobs, s, run, Act(w, Return), window);
    t := Extend(jobs, s, run + [Act(w, Return)], Act(w, Hash), window);
  }

  /** A writer run by itself up to the point where it reserves the name. */
  lemma {:induction false} Prepared(jobs: seq<Job>, s: State, w: nat, window: nat) returns (t: State)
    requires Matches(jobs, s) && w < |jobs| && s.writers[w] == START
    requires Scratch(jobs[w].token, (Issued(s, jobs[w].token) + 1) % TICKETS) !in s.names
    requires Spaced(jobs, s, Act(w, Begin), window)
    ensures Possible(jobs, s, Prepare(w, |jobs[w].payload|))
    ensures SpacedRun(jobs, s, Prepare(w, |jobs[w].payload|), window)
    ensures t == Exec(jobs, s, Prepare(w, |jobs[w].payload|)) == Digested(jobs, s, w)
  {
    var begun := ScratchOpened(jobs, s, w, window);
    t := Filled(jobs, begun, w, window);
    ExecAppend(jobs, s, [Act(w, Begin), Act(w, Open)], Fill(w, |jobs[w].payload|), window);
    var d := Digested(jobs, s, w);
    assert t.data == d.data && t.writers == d.writers;
  }

  // Hard links for all or for none

  /** No run of these writers ever has two of them return PUBLISHED. */
  ghost predicate NeverTwoWinners(jobs: seq<Job>) {
    forall run :: Admissible(jobs, run, TICKETS) ==> OneWinner(jobs, Final(jobs, run))
  }

  function TakeClaim(j: nat): seq<Label> {
    [Act(j, NoLink)] + [Act(j, CreateClaim)] + [Act(j, TestTarget)]
  }

  function SlipIn(i: nat, j: nat): seq<Label> {
    [Act(i, Link)] + [Act(j, Replace)] + [Act(j, Release(true))]
  }

  function Overtake(i: nat, j: nat): seq<Label> {
    TakeClaim(j) + SlipIn(i, j)
  }

  /** Preparing one writer takes it to its reservation and leaves another one at its own. */
  lemma {:induction false} DigestedReserves(jobs: seq<Job>, s: State, w: nat, v: nat)
    requires Matches(jobs, s) && w < |jobs| && v < |jobs|
    requires Scratch(jobs[w].token, (Issued(s, jobs[w].token) + 1) % TICKETS) !in s.names
    requires v == w || AtReserve(jobs, s, v)
    ensures AtReserve(jobs, Digested(jobs, s, w), v) && Matches(jobs, Digested(jobs, s, w))
  {
  }

  lemma {:induction false} SecondMayBegin(jobs: seq<Job>, i: nat, j: nat)
    requires i < |jobs| && j < |jobs| && i != j
    ensures var s := Digested(jobs, Init(jobs), i);
      && s.writers[j] == START && Target !in s.names && Claim !in s.names
      && Scratch(jobs[j].token, (Issued(s, jobs[j].token) + 1) % TICKETS) !in s.names
      && Spaced(jobs, s, Act(j, Begin), TICKETS)
  {
  }

  /** Two writers, one after the other, up to the point where they reserve the name. */
  lemma {:induction false} BothPrepared(jobs: seq<Job>, i: nat, j: nat) returns (run: seq<Label>, t: State)
    requires i < |jobs| && j < |jobs| && i != j
    ensures Admissible(jobs, run, TICKETS) && t == Final(jobs, run)
    ensures Matches(jobs, t) && Target !in t.names && Claim !in t.names
    ensures AtReserve(jobs, t, i) && AtReserve(jobs, t, j)
  {
    var s0 := Init(jobs);
    var s1 := Prepared(jobs, s0, i, TICKETS);
    DigestedReserves(jobs, s0, i, i);
    SecondMayBegin(jobs, i, j);
    t := Prepared(jobs, s1, j, TICKETS);
    DigestedReserves(jobs, s1, j, j);
    DigestedReserves(jobs, s1, j, i);
    var pi, pj := Prepare(i, |jobs[i].payload|), Prepare(j, |jobs[j].payload|);
    ExecAppend(jobs, s0, pi, pj, TICKETS);
    run := pi + pj;
  }

  /** A complete, digested scratch file, and no claim attempt spent. */
  predicate AtReserve(jobs: seq<Job>, s: State, w: nat) {
    && w < |jobs| && w < |s.writers| && s.writers[w].pc.Hashed? && s.writers[w].tries == 0
    && var scratch := ScratchOf(jobs[w], s.writers[w]);
      scratch in s.names && s.names[scratch] < |s.data| && s.data[s.names[scratch]] == jobs[w].payload
  }

  /** A linking writer slips between a claim holder's test and its replace. */
  lemma {:induction false} Overtaken(jobs: seq<Job>, i: nat, j: nat) returns (run: seq<Label>)
    requires i < |jobs| && j < |jobs| && jobs[i].links && !jobs[j].links
    ensures Admissible(jobs, run, TICKETS)
    ensures Final(jobs, run).writers[i].pc == Final(jobs, run).writers[j].pc == Closing(Published)
  {
    var both, s := BothPrepared(jobs, i, j);
    var t := Overtaking(jobs, s, i, j);
    ExecAppend(jobs, Init(jobs), both, Overtake(i, j), TICKETS);
    run := both + Overtake(i, j);
  }

  lemma {:induction false} Overtaking(jobs: seq<Job>, s: State, i: nat, j: nat) returns (t: State)
    requires Matches(jobs, s) && i < |jobs| && j < |jobs| && i != j && jobs[i].links && !jobs[j].links
    requires Target !in s.names && Claim !in s.names
    requires AtReserve(jobs, s, i) && AtReserve(jobs, s, j)
    ensures Possible(jobs, s, Overtake(i, j)) && SpacedRun(jobs, s, Overtake(i, j), TICKETS)
    ensures t == Exec(jobs, s, Overtake(i, j))
    ensures t.writers[i].pc == t.writers[j].pc == Closing(Published)
  {
    var taken := ClaimTaken(jobs, s, j);
    t := SlippedIn(jobs, taken, i, j);
    ExecAppend(jobs, s, TakeClaim(j), SlipIn(i, j), TICKETS);
  }

  /** With the claim held and no target seen, a link and then the replace both succeed. */
  lemma {:induction false} SlippedIn(jobs: seq<Job>, s: State, i: nat, j: nat) returns (t: State)
    requires Matches(jobs, s) && i < |jobs| && j < |jobs| && i != j && jobs[i].links && Target !in s.names
    requires s.writers[i].pc.Hashed? && ScratchOf(jobs[i], s.writers[i]) in s.names
    requires s.writers[j].pc.Replacing? && ScratchOf(jobs[j], s.writers[j]) in s.names
    ensures Possible(jobs, s, SlipIn(i, j)) && SpacedRun(jobs, s, SlipIn(i, j), TICKETS)
    ensures t == Exec(jobs, s, SlipIn(i, j))
    ensures t.writers[i].pc == t.writers[j].pc == Closing(Published)
  {
    t := Extend(jobs, s, [], Act(i, Link), TICKETS);
    assert [] + [Act(i, Link)] == [Act(i, Link)];
    t := Extend(jobs, s, [Act(i, Link)], Act(j, Replace), TICKETS);
    t := Extend(jobs, s, [Act(i, Link)] + [Act(j, Replace)], Act(j, Release(true)), TICKETS);
  }

  lemma {:induction false} ClaimTaken(jobs: seq<Job>, s: State, j: nat) returns (t: State)
    requires Matches(jobs, s) && j < |jobs| && !jobs[j].links
    requires s.writers[j].pc.Hashed? && s.writers[j].tries == 0
    requires Target !in s.names && Claim !in s.names
    ensures Possible(jobs, s, TakeClaim(j)) && SpacedRun(jobs, s, TakeClaim(j), TICKETS)
    ensures t == Exec(jobs, s, TakeClaim(j))
    ensures t.names == s.names[Claim := |s.data|] && t.data == s.data + [[]]
    ensures t.writers == s.writers[j := s.writers[j].(pc := Replacing, tries := 1)]
  {
    t := Extend(jobs, s, [], Act(j, NoLink), TICKETS);
    assert [] + [Act(j, NoLink)] == [Act(j, NoLink)];
    t := Extend(jobs, s, [Act(j, NoLink)], Act(j, CreateClaim), TICKETS);
    t := Extend(jobs, s, [Act(j, NoLink)] + [Act(j, CreateClaim)], Act(j, TestTarget), TICKETS);
  }

  /** One winner in every run, exactly when hard links work for all the writers or for none. */
  lemma {:induction false} OneWinnerIffUniform(jobs: seq<Job>)
    ensures NeverTwoWinners(jobs) <==> Uniform(jobs)
  {
    if Uniform(jobs) {
      forall run | Admissible(jobs, run, TICKETS) ensures OneWinner(jobs, Final(jobs, run)) {
        OutcomesAreTruthful(jobs, run);
      }
    } else {
      var u, v :| 0 <= u < |jobs| && 0 <= v < |jobs| && jobs[u].links != jobs[v].links;
      var i, j := if jobs[u].links then u else v, if jobs[u].links then v else u;
      var run := Overtaken(jobs, i, j);
      assert !OneWinner(jobs, Final(jobs, run));
    }
  }

  // How far apart scratch names have to be

  predicate KeptAcross(jobs: seq<Job>, run: seq<Label>, more: seq<Label>, window: nat) {
    Admissible(jobs, run, window) && Admissible(jobs, run + more, window) && Target in Final(jobs, run).names ==>
      Kept(Final(jobs, run), Final(jobs, run + more))
  }

  /** Names spaced by fewer than `window` allocations keep every published file as it was published. */
  ghost predicate WindowIsSafe(window: nat) {
    forall jobs, run, more :: Uniform(jobs) ==> KeptAcross(jobs, run, more, window)
  }

  lemma {:induction false} NarrowerWindow(jobs: seq<Job>, s: State, run: seq<Label>, narrow: nat, wide: nat)
    requires Possible(jobs, s, run) && SpacedRun(jobs, s, run, narrow) && narrow <= wide
    ensures SpacedRun(jobs, s, run, wide)
    decreases |run|
  {
    if run != [] {
      NarrowerWindow(jobs, Next(jobs, s, run[0]), run[1..], narrow, wide);
    }
  }

  const LINKERS := [Job([1], 0, true), Job([], 0, true)]

  const FIRST := Prepare(0, 1) + [Act(0, Link)]

  lemma {:induction false} FirstDigested()
    ensures var s := Digested(LINKERS, Init(LINKERS), 0);
      && s.names == map[Scratch(0, 1) := 0] && s.data == [[1]] && s.issued == map[0 := 1]
      && s.writers[1] == START && s.writers[0].pc.Hashed? && s.writers[0].ticket == 1
  {
  }

  /** One writer has published and not yet removed its scratch name. */
  lemma {:induction false} FirstPublished(window: nat) returns (s: State)
    requires window >= TICKETS
    ensures Admissible(LINKERS, FIRST, window) && s == Final(LINKERS, FIRST)
    ensures s.names == map[Scratch(0, 1) := 0, Target := 0] && s.data == [[1]] && s.issued == map[0 := 1]
    ensures s.writers[1] == START && s.writers[0].ticket == 1
  {
    s := Prepared(LINKERS, Init(LINKERS), 0, window);
    FirstDigested();
    s := Extend(LINKERS, Init(LINKERS), Prepare(0, 1), Act(0, Link), window);
  }

  /** The wrapped counter hands out the name of a scratch file that is still linked to the target. */
  lemma {:induction false} WrappedNameTruncatesTheTarget(window: nat)
    requires window > TICKETS
    ensures exists jobs, run, more :: Uniform(jobs) && !KeptAcross(jobs, run, more, window)
  {
    var s := FirstPublished(window);
    var l0, l1, l2 := Elsewhere(0, TICKETS - 1), Act(1, Begin), Act(1, Open);
    var t := Extend(LINKERS, s, [], l0, window);
    assert [] + [l0] == [l0];
    t := Extend(LINKERS, s, [l0], l1, window);
    TicketsCollide(1, 1 + TICKETS);
    t := Extend(LINKERS, s, [l0] + [l1], l2, window);
    assert t.data == [[]];
    ExecAppend(LINKERS, Init(LINKERS), FIRST, [l0] + [l1] + [l2], window);
    assert !KeptAcross(LINKERS, FIRST, [l0] + [l1] + [l2], window);
  }

  /** Sixteen bits are enough for a published file to stay as it is, and no wider window is. */
  lemma {:induction false} SafeWindows(window: nat)
    ensures WindowIsSafe(window) <==> window <= TICKETS
  {
    if window <= TICKETS {
      forall jobs, run, more | Uniform(jobs) && Admissible(jobs, run, window) && Admissible(jobs, run + more, window)
        ensures KeptAcross(jobs, run, more, window)
      {
        NarrowerWindow(jobs, Init(jobs), run + more, window, TICKETS);
        WrittenOnce(jobs, run, more);
      }
    } else {
      WrappedNameTruncatesTheTarget(window);
    }
  }
}
