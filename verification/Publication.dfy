/**
 The publication protocol of `fpbench.core.atomic_write` as a labelled transition
 system. One step is one file-system call (or one chunk of a write or a read) by one
 writer; any number of writers interleave, and a writer may crash between any two steps.

 Files are inodes: a hard link gives the winner's scratch file a second name, so a
 write through the scratch name after `os.link` would reach the published file.
 */
module Publication {
  import opened Bytes

  type Payload = seq<Byte>

  /** The scratch counter is sixteen bits wide. */
  const TICKETS: nat := 0x1_0000

  const CLAIM_ATTEMPTS: nat := 8

  datatype Name = Target | Claim | Scratch(token: nat, ordinal: nat)

  /** How `publish_file` ends: the two outcomes, then the ways it raises. */
  datatype Outcome = Published | AlreadyIdentical | DigestConflict | TimedOut | Exhausted | Faulted

  /** What the claim holder does once the sentinel is removed. */
  datatype Verdict = Won | Lost | Broken

  datatype Pc =
    | Idle
    | Producing            // scratch name taken, producer running, file not opened
    | Writing              // scratch file open
    | Written              // producer returned
    | Hashed               // scratch file digested; about to reserve the name
    | Claiming             // head of the bounded claim loop
    | Polling              // lost the claim; about to look for the target
    | PollingClaim         // saw no target; about to look for the claim
    | Holding              // created the claim; about to look for the target
    | Replacing            // holds the claim and saw no target
    | Releasing(verdict: Verdict)
    | Comparing            // lost; about to open the target
    | Reading              // digesting the winner's file
    | Closing(outcome: Outcome)  // about to remove the scratch file
    | Done(outcome: Outcome)
    | Crashed

  /** What one writer was asked to do; fixed for the whole run. */
  datatype Job = Job(payload: Payload, token: nat, links: bool)

  /** One writer's control state and local variables. */
  datatype Writer = Writer(
    pc: Pc,
    ticket: nat,      // which allocation of its process gave it its scratch name
    sent: nat,        // payload bytes written so far
    file: nat,        // inode of its scratch file
    mine: Payload,    // what it digested; the digest is treated as injective
    tries: nat,       // claim attempts spent
    source: nat,      // inode of the winner's file, while reading it
    got: Payload,     // bytes of it read so far
    won: bool)        // its link or replace succeeded

  const START := Writer(Idle, 0, 0, 0, [], 0, 0, [], false)

  datatype State = State(
    names: map<Name, nat>,
    data: seq<Payload>,
    issued: map<nat, nat>,   // per process token: scratch names handed out
    writers: seq<Writer>)

  datatype Action =
    | Begin | Open | Write(n: nat) | SkipFile | Return | Hash
    | Link | NoLink
    | CreateClaim | ClaimDenied | GiveUp
    | PollTarget | PollClaim | Expire
    | TestTarget | Replace | Release(removed: bool)
    | OpenWinner | ReadWinner(n: nat) | Decide
    | Fault | Close | Crash

  datatype Label =
    | Act(w: nat, a: Action)
    | Elsewhere(token: nat, n: nat)  // n scratch names taken for other paths

  function Init(jobs: seq<Job>): State {
    State(map[], [], map[], seq(|jobs|, i => START))
  }

  function Issued(s: State, token: nat): nat {
    if token in s.issued then s.issued[token] else 0
  }

  predicate Matches(jobs: seq<Job>, s: State) {
    && |s.writers| == |jobs|
    && (forall n :: n in s.names ==> s.names[n] < |s.data|)
    && (forall v :: 0 <= v < |s.writers| ==> s.writers[v].pc.Writing? ==> s.writers[v].file < |s.data|)
    && (forall v :: 0 <= v < |s.writers| ==> s.writers[v].pc.Reading? ==> s.writers[v].source < |s.data|)
  }

  function ScratchOf(job: Job, p: Writer): Name {
    Scratch(job.token, p.ticket % TICKETS)
  }

  predicate Enabled(jobs: seq<Job>, s: State, l: Label)
    requires Matches(jobs, s)
  {
    match l
    case Elsewhere(_, _) => true
    case Act(w, a) => w < |jobs| && CanAct(jobs[w], s, s.writers[w], a)
  }

  predicate CanAct(job: Job, s: State, p: Writer, a: Action) {
    match a
    case Begin => p.pc.Idle?
    case Open => p.pc.Producing?
    case Write(n) => p.pc.Writing? && 0 < n && p.sent + n <= |job.payload|
    case SkipFile => p.pc.Producing?
    case Return => p.pc.Writing? && p.sent == |job.payload|
    case Hash => p.pc.Written?
    case Link => p.pc.Hashed? && job.links
    case NoLink => p.pc.Hashed? && !job.links
    case CreateClaim => p.pc.Claiming? && p.tries < CLAIM_ATTEMPTS
    case ClaimDenied => p.pc.Claiming? && p.tries < CLAIM_ATTEMPTS
    case GiveUp => p.pc.Claiming? && p.tries == CLAIM_ATTEMPTS
    case PollTarget => p.pc.Polling?
    case PollClaim => p.pc.PollingClaim?
    case Expire => p.pc.Polling?
    case TestTarget => p.pc.Holding?
    case Replace => p.pc.Replacing?
    case Release(_) => p.pc.Releasing?
    case OpenWinner => p.pc.Comparing? && Target in s.names
    case ReadWinner(n) => p.pc.Reading? && 0 < n && p.source < |s.data| && |p.got| + n <= |s.data[p.source]|
    case Decide => p.pc.Reading? && p.source < |s.data| && |p.got| >= |s.data[p.source]|
    case Fault => p.pc.Producing? || p.pc.Writing? || p.pc.Written? || p.pc.Claiming? || p.pc.Polling?
                  || p.pc.Holding? || p.pc.Replacing? || p.pc.Comparing? || p.pc.Reading?
    case Close => p.pc.Closing?
    case Crash => !p.pc.Idle? && !p.pc.Done? && !p.pc.Crashed?
  }

  function Next(jobs: seq<Job>, s: State, l: Label): State
    requires Matches(jobs, s) && Enabled(jobs, s, l)
  {
    match l
    case Elsewhere(token, n) => s.(issued := s.issued[token := Issued(s, token) + n])
    case Act(w, a) =>
      var p := s.writers[w];
      State(NamesAfter(jobs[w], s, p, a), DataAfter(jobs[w], s, p, a), IssuedAfter(jobs[w], s, a),
            s.writers[w := After(jobs[w], s, p, a)])
  }

  /** The caller's side of one call: branches follow the `try` and `except` arms of the source. */
  function After(job: Job, s: State, p: Writer, a: Action): Writer
    requires CanAct(job, s, p, a)
    requires forall n :: n in s.names ==> s.names[n] < |s.data|
  {
    var scratch := ScratchOf(job, p);
    match a
    case Begin => p.(pc := Producing, ticket := Issued(s, job.token) + 1)
    case Open => p.(pc := Writing, sent := 0, file := if scratch in s.names then s.names[scratch] else |s.data|)
    case Write(n) => p.(sent := p.sent + n)
    case SkipFile => p.(pc := Written)
    case Return => p.(pc := Written)
    case Hash =>
      if scratch in s.names then p.(pc := Hashed, mine := s.data[s.names[scratch]])
      else p.(pc := Closing(Faulted))
    case Link =>
      if scratch !in s.names then p.(pc := Claiming)
      else if Target in s.names then p.(pc := Comparing)
      else p.(pc := Closing(Published), won := true)
    case NoLink => p.(pc := Claiming)
    case CreateClaim => p.(pc := if Claim in s.names then Polling else Holding, tries := p.tries + 1)
    case ClaimDenied => p.(pc := Polling, tries := p.tries + 1)
    case GiveUp => p.(pc := Closing(Exhausted))
    case PollTarget => p.(pc := if Target in s.names then Comparing else PollingClaim)
    case PollClaim => p.(pc := if Claim in s.names then Polling else Claiming)
    case Expire => p.(pc := Closing(TimedOut))
    case TestTarget => p.(pc := if Target in s.names then Releasing(Lost) else Replacing)
    case Replace => if scratch in s.names then p.(pc := Releasing(Won), won := true) else p.(pc := Releasing(Broken))
    case Release(_) =>
      p.(pc := match p.pc.verdict case Won => Closing(Published) case Lost => Comparing case Broken => Closing(Faulted))
    case OpenWinner => p.(pc := Reading, source := s.names[Target], got := [])
    case ReadWinner(n) => p.(got := p.got + s.data[p.source][|p.got|..|p.got| + n])
    case Decide => p.(pc := Closing(if p.got == p.mine then AlreadyIdentical else DigestConflict))
    case Fault => p.(pc := if p.pc.Holding? || p.pc.Replacing? then Releasing(Broken) else Closing(Faulted))
    case Close => p.(pc := Done(p.pc.outcome))
    case Crash => p.(pc := Crashed)
  }

  /** The directory after one call. */
  function NamesAfter(job: Job, s: State, p: Writer, a: Action): map<Name, nat> {
    var scratch := ScratchOf(job, p);
    match a
    case Open => if scratch in s.names then s.names else s.names[scratch := |s.data|]
    case Link => if scratch in s.names && Target !in s.names then s.names[Target := s.names[scratch]] else s.names
    case CreateClaim => if Claim in s.names then s.names else s.names[Claim := |s.data|]
    // Replacing an existing target succeeds: only the claim stops a writer from getting here.
    case Replace => if scratch in s.names then s.names[Target := s.names[scratch]] - {scratch} else s.names
    case Release(removed) => if removed then s.names - {Claim} else s.names
    case Close => s.names - {scratch}
    case _ => s.names
  }

  /** The inodes after one call. */
  function DataAfter(job: Job, s: State, p: Writer, a: Action): seq<Payload>
    requires CanAct(job, s, p, a)
    requires forall n :: n in s.names ==> s.names[n] < |s.data|
    requires p.pc.Writing? ==> p.file < |s.data|
  {
    var scratch := ScratchOf(job, p);
    match a
    // Mode "wb": an existing file is truncated, whatever other names it has.
    case Open => if scratch in s.names then s.data[s.names[scratch] := []] else s.data + [[]]
    case Write(n) => s.data[p.file := s.data[p.file] + job.payload[p.sent..p.sent + n]]
    case CreateClaim => if Claim in s.names then s.data else s.data + [[]]
    case _ => s.data
  }

  function IssuedAfter(job: Job, s: State, a: Action): map<nat, nat> {
    if a.Begin? then s.issued[job.token := Issued(s, job.token) + 1] else s.issued
  }
}
