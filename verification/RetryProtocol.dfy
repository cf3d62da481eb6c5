/**
 The retry protocol of scripts/native_verifier_retry.py as a state machine.  Helper runs
 race to seal a run, scheduler runs race to claim its retry slots.  They share an
 append-only journal; a write may be lost, refused, applied late, or applied with its
 reply lost, and any run may crash at any time.  Every answer of the native API is
 arbitrary, except that listed scheduler runs are real and that a cause carries the time at
 which its attempt's job ended.  Native attempts 3 and 4 start only on request.
 */
module RetryProtocol {
  import opened Common
  import opened RetryElection

  datatype Path = SeedPath | TerminalPath | ClaimPath(slot: int)

  datatype Reason = ContractDrift | Verified | BudgetExhausted | NonRetryable

  datatype Record =
    | SeedRecord(seed: Seed)
    | ClaimRecord(claim: Claim)
    | TerminalRecord(reason: Reason)

  type Journal = map<Path, Record>

  datatype Consumption = Pending | Present | Invalid

  /** `run_attempt` (None: not an integer), `status == "completed"`, `conclusion == "success"`. */
  datatype Native = Native(attempt: Option<int>, completed: bool, success: bool)

  /** Everything one pass of `recover` may read besides the journal. */
  datatype Observation = Observation(
    now: int,
    observed: Native,
    observedCause: Option<Cause>,
    original: Consumption,
    contractHolds: bool,
    run: Native,
    cause: Option<Cause>,
    early: seq<Run>,
    late: seq<Run>)

  /** A cause is computed from the attempt it was read with. */
  predicate Consistent(obs: Observation) {
    && (obs.observedCause.Some? ==> Some(obs.observedCause.value.attempt) == obs.observed.attempt)
    && (obs.cause.Some? ==> Some(obs.cause.value.attempt) == obs.run.attempt)
  }

  /** How one pass ends, or which write it attempts next. */
  datatype Decision =
    | Stop                                  // a GET-only result
    | Crash                                 // an exception stops the sweep
    | WriteTerminal(reason: Reason)
    | WriteClaim(slot: int, claim: Claim)

  /** `raise CandidateClosed` inside `recover_bound`, as `recover` handles it. */
  const Closed := WriteTerminal(ContractDrift)

  function SeedOf(journal: Journal): Option<Seed> {
    if SeedPath in journal && journal[SeedPath].SeedRecord? then Some(journal[SeedPath].seed) else None
  }

  predicate HasValidClaim(journal: Journal, seed: Seed, slot: int) {
    && ClaimPath(slot) in journal && journal[ClaimPath(slot)].ClaimRecord?
    && ValidClaim(journal[ClaimPath(slot)].claim, seed, slot)
  }

  /** `recover(...)` up to its first write. */
  function Recover(journal: Journal, claimant: nat, obs: Observation): Decision {
    if SeedPath !in journal || TerminalPath in journal then Stop
    else if SeedOf(journal).None? then Crash
    else RecoverBound(journal, SeedOf(journal).value, claimant, obs)
  }

  /** The first half of `recover_bound`: what may stop the pass before the contract is read. */
  function RecoverBound(journal: Journal, seed: Seed, claimant: nat, obs: Observation): Decision {
    if obs.observed.attempt.None? then Closed
    else
      var attempt := obs.observed.attempt.value;
      if attempt in {2, 3} && ClaimPath(attempt + 1) in journal then Stop
      else if attempt in {2, 3} && obs.observed.completed && obs.observedCause.Some? then
        var eligible := EligibleAt(obs.observedCause.value, attempt + 1);
        if eligible + RUNTIME_RESERVE > Deadline(seed) then
          match obs.original
          case Invalid => Closed
          case Pending => Stop
          case Present => WriteTerminal(BudgetExhausted)
        else if obs.now >= eligible then
          match Elected(seed, obs.observedCause.value, attempt + 1, obs.early)
          case Err => Crash
          case Ok(owner) => if owner != claimant then Stop else RecoverContract(journal, seed, claimant, obs)
        else RecoverContract(journal, seed, claimant, obs)
      else RecoverContract(journal, seed, claimant, obs)
  }

  /** The second half of `recover_bound`. */
  function RecoverContract(journal: Journal, seed: Seed, claimant: nat, obs: Observation): Decision {
    if obs.original.Invalid? then Closed
    else if obs.original.Pending? then Stop
    else if !obs.contractHolds then WriteTerminal(ContractDrift)
    else if obs.run.attempt.None? || !(1 <= obs.run.attempt.value <= MAX_ATTEMPT) then Closed
    else
      var attempt := obs.run.attempt.value;
      if attempt == 1 then Stop
      else if exists n :: 3 <= n <= attempt && !HasValidClaim(journal, seed, n) then Closed
      else if !obs.run.completed then Stop
      else if obs.run.success then WriteTerminal(Verified)
      else if attempt >= MAX_ATTEMPT || obs.now + RUNTIME_RESERVE > Deadline(seed) then WriteTerminal(BudgetExhausted)
      else if obs.cause.None? then WriteTerminal(NonRetryable)
      else
        var slot := attempt + 1;
        if obs.now < EligibleAt(obs.cause.value, slot) then Stop
        else if ClaimPath(slot) in journal then Stop
        else
          match Elected(seed, obs.cause.value, slot, obs.late)
          case Err => Crash
          case Ok(owner) =>
            if owner != claimant then Stop
            else
              var claim := Claim(seed.contract, slot, obs.cause.value, obs.now, claimant);
              if ValidClaim(claim, seed, slot) then WriteClaim(slot, claim) else Closed
  }

  /** The reads after a confirmed claim; all must agree before the rerun is requested. */
  predicate MayPost(current: Journal, seed: Seed, claimant: nat, slot: int, claim: Claim,
                    evidence: bool, cause: Option<Cause>, inventory: seq<Run>, now: int) {
    && evidence && cause == Some(claim.cause)
    && Elected(seed, claim.cause, slot, inventory) == Ok(claimant)
    && ClaimPath(slot) in current && current[ClaimPath(slot)] == ClaimRecord(claim) && TerminalPath !in current
    && now + RUNTIME_RESERVE <= Deadline(seed)
  }

  // ---------------------------------------------------------------- The system

  datatype Outcome = Inactive | Crashed | Unconfirmed | Refused | Consumed | Dispatched | Closing | Sealed

  /** Where one workflow run stands.  A run never executes a second time. */
  datatype Worker =
    | Opened(journal: Journal)                                  // scheduler run, journal snapshot taken
    | Claiming(journal: Journal, slot: int, claim: Claim)       // claim sent, reply awaited
    | Owning(journal: Journal, slot: int, claim: Claim)         // claim confirmed
    | Posting(slot: int, claim: Claim)                          // all post-claim reads agreed
    | Sealing(seed: Seed)                                       // helper run, seed sent
    | SealedBy(seed: Seed)                                      // seed confirmed or found
    | Done(outcome: Outcome)

  datatype Write = Write(worker: nat, path: Path, record: Record)

  datatype Post = Post(worker: nat, slot: int)

  /** A native attempt of the run; `doneAt` is when the job that a cause speaks of ended. */
  datatype Attempt = Attempt(startedAt: int, doneAt: Option<int>)

  datatype State = State(
    journal: Journal,
    network: set<Write>,         // sent, neither applied nor lost
    sent: seq<Write>,            // every write ever sent, in order
    confirmed: set<Write>,       // applied; the writer may or may not learn it
    workers: map<nat, Worker>,
    posts: seq<Post>,            // rerun requests issued
    history: seq<Run>,           // scheduler runs that exist, in order
    native: map<int, Attempt>,   // native attempts that exist
    clock: int)

  predicate Init(s: State) {
    && s.journal == map[] && s.network == {} && s.sent == [] && s.confirmed == {} && s.workers == map[]
    && s.posts == [] && s.history == [] && s.native == map[]
  }

  /** The cause tells when the job of its attempt really ended. */
  predicate Seen(s: State, cause: Cause) {
    cause.attempt in s.native && s.native[cause.attempt].doneAt == Some(cause.completedAt)
  }

  /** One more write is on its way. */
  function Sending(s: State, x: Write): State {
    s.(network := s.network + {x}, sent := s.sent + [x])
  }

  function Moved(s: State, w: nat, worker: Worker): State {
    s.(workers := s.workers[w := worker])
  }

  datatype Event =
    | NewRun(run: Run)
    | Open(w: nat)
    | Decide(w: nat, obs: Observation)
    | Apply(write: Write)
    | Lose(write: Write)
    | Learn(w: nat)
    | GiveUp(w: nat, outcome: Outcome)
    | Check(w: nat, evidence: bool, cause: Option<Cause>, inventory: seq<Run>, now: int)
    | Send(w: nat)
    | Seal(w: nat, seed: Seed)
    | Tick(now: int)
    | Start(attempt: int)
    | Finish(attempt: int)

  ghost predicate Step(s: State, e: Event, s': State) {
    match e
    case NewRun(run) =>
      // the native counter: the next number
      && run.number == |s.history| + 1 && s' == s.(history := s.history + [run])
    case Open(w) =>
      && w !in s.workers && s' == s.(workers := s.workers[w := Opened(s.journal)])
    case Decide(w, obs) =>
      && w in s.workers && s.workers[w].Opened? && Consistent(obs)
      && (forall k :: 0 <= k < |obs.early| ==> obs.early[k] in s.history)
      && (forall k :: 0 <= k < |obs.late| ==> obs.late[k] in s.history)
      && obs.now <= s.clock && (obs.cause.Some? ==> Seen(s, obs.cause.value))
      && s' == (
        match Recover(s.workers[w].journal, w, obs)
        case Stop => Moved(s, w, Done(Inactive))
        case Crash => Moved(s, w, Done(Crashed))
        case WriteTerminal(reason) => Sending(Moved(s, w, Done(Closing)), Write(w, TerminalPath, TerminalRecord(reason)))
        case WriteClaim(slot, claim) =>
          Sending(Moved(s, w, Claiming(s.workers[w].journal, slot, claim)), Write(w, ClaimPath(slot), ClaimRecord(claim))))
    case Apply(write) =>
      // creates only if absent
      && write in s.network
      && s' == (if write.path in s.journal then s.(network := s.network - {write})
                else s.(network := s.network - {write}, journal := s.journal[write.path := write.record],
                        confirmed := s.confirmed + {write}))
    case Lose(write) =>
      && write in s.network && s' == s.(network := s.network - {write})
    case Learn(w) =>
      && w in s.workers
      && ((&& s.workers[w].Claiming?
           && Write(w, ClaimPath(s.workers[w].slot), ClaimRecord(s.workers[w].claim)) in s.confirmed
           && s' == s.(workers := s.workers[w := Owning(s.workers[w].journal, s.workers[w].slot, s.workers[w].claim)]))
          || (&& s.workers[w].Sealing?
              && Write(w, SeedPath, SeedRecord(s.workers[w].seed)) in s.confirmed
              && s' == s.(workers := s.workers[w := SealedBy(s.workers[w].seed)])))
    case GiveUp(w, outcome) =>
      // a crash, a timeout, a refused write: nothing but reads can follow
      && w in s.workers && !s.workers[w].Done? && outcome != Dispatched && outcome != Sealed
      && s' == s.(workers := s.workers[w := Done(outcome)])
    case Check(w, evidence, cause, inventory, now) =>
      && w in s.workers && s.workers[w].Owning? && SeedOf(s.workers[w].journal).Some?
      && (forall k :: 0 <= k < |inventory| ==> inventory[k] in s.history)
      && s' == s.(workers := s.workers[w :=
           if MayPost(s.journal, SeedOf(s.workers[w].journal).value, w, s.workers[w].slot, s.workers[w].claim,
                      evidence, cause, inventory, now)
           then Posting(s.workers[w].slot, s.workers[w].claim) else Done(Consumed)])
    case Send(w) =>
      && w in s.workers
      && ((&& s.workers[w].Posting?
           && s' == s.(workers := s.workers[w := Done(Dispatched)], posts := s.posts + [Post(w, s.workers[w].slot)]))
          || (s.workers[w].SealedBy? && s' == s.(workers := s.workers[w := Done(Sealed)])))
    case Seal(w, seed) =>
      // a helper run: find its own seed, or try to create it; the frontier was observed before
      && w !in s.workers && seed.claimRun == w && seed.frontier <= |s.history|
      && s' == (
        match SeedOf(s.journal)
        case Some(previous) =>
          if previous.contract == seed.contract && previous.claimRun == w
          then s.(workers := s.workers[w := SealedBy(previous)])
          else s.(workers := s.workers[w := Done(Refused)])
        case None => Sending(Moved(s, w, Sealing(seed)), Write(w, SeedPath, SeedRecord(seed))))
    case Tick(now) =>
      s.clock <= now && s' == s.(clock := now)
    case Start(n) =>
      // after the original run and its first rerun, an attempt starts only if it was requested
      && n >= 1 && n !in s.native
      && (n > 1 ==> n - 1 in s.native && s.native[n - 1].doneAt.Some?)
      && (n >= 3 ==> exists i :: 0 <= i < |s.posts| && s.posts[i].slot == n)
      && s' == s.(native := s.native[n := Attempt(s.clock, None)])
    case Finish(n) =>
      && n in s.native && s.native[n].doneAt.None?
      && s' == s.(native := s.native[n := s.native[n].(doneAt := Some(s.clock))])
  }

  // ---------------------------------------------------------------- The invariant

  /** A path holds records of its own kind. */
  predicate Typed(path: Path, record: Record) {
    match path
    case SeedPath => record.SeedRecord?
    case TerminalPath => record.TerminalRecord?
    case ClaimPath(_) => record.ClaimRecord?
  }

  /** `after` holds every record of `before`, unchanged. */
  predicate Grown(before: Journal, after: Journal) {
    forall p :: p in before ==> p in after && after[p] == before[p]
  }

  /** A claim that the protocol allows to exist, given the journal. */
  ghost predicate Lawful(s: State, journal: Journal, slot: int, claim: Claim) {
    && slot in {3, 4}
    && SeedOf(journal).Some?
    && var seed := SeedOf(journal).value;
    && ValidClaim(claim, seed, slot)
    && seed.frontier <= |s.history|
    && IsOwner(s.history[seed.frontier..], EligibleAt(claim.cause, slot), claim.claimRun)
    && (slot == 4 ==> HasValidClaim(journal, seed, 3))
    && Seen(s, claim.cause) && claim.createdAt <= s.clock
  }

  /** Attempts end after they start, and start after the claim of their slot was made. */
  ghost predicate NativeInv(s: State) {
    forall n :: n in s.native ==> AttemptInv(s, n)
  }

  ghost predicate AttemptInv(s: State, n: int) {
    && n in s.native && s.native[n].startedAt <= s.clock
    && (s.native[n].doneAt.Some? ==> s.native[n].startedAt <= s.native[n].doneAt.value)
    && (n >= 3 ==> ClaimPath(n) in s.journal && s.journal[ClaimPath(n)].ClaimRecord?
                   && s.journal[ClaimPath(n)].claim.createdAt <= s.native[n].startedAt)
  }

  /** The writes that run `w` has sent. */
  ghost function WritesOf(sent: seq<Write>, w: nat): seq<Write> {
    if sent == [] then []
    else WritesOf(sent[..|sent| - 1], w) + (if sent[|sent| - 1].worker == w then [sent[|sent| - 1]] else [])
  }

  /** A run that has not decided has sent nothing, and none sends twice. */
  ghost predicate SentInv(s: State) {
    forall w :: SentBy(s, w)
  }

  ghost predicate SentBy(s: State, w: nat) {
    && |WritesOf(s.sent, w)| <= 1
    && (w !in s.workers || s.workers[w].Opened? ==> WritesOf(s.sent, w) == [])
  }

  ghost predicate JournalInv(s: State) {
    && (forall p :: p in s.journal ==> Typed(p, s.journal[p]))
    && (forall i :: 0 <= i < |s.history| ==> s.history[i].number == i + 1)
    && (SeedOf(s.journal).Some? ==> SeedOf(s.journal).value.frontier <= |s.history|)
    && (forall slot :: ClaimPath(slot) in s.journal ==> Lawful(s, s.journal, slot, s.journal[ClaimPath(slot)].claim))
  }

  ghost predicate WriteInv(s: State, write: Write) {
    && Typed(write.path, write.record)
    && (write.path.ClaimPath? ==>
         write.record.claim.claimRun == write.worker && Lawful(s, s.journal, write.path.slot, write.record.claim))
    && (write.path.SeedPath? ==> write.record.seed.claimRun == write.worker && write.record.seed.frontier <= |s.history|)
    && write.worker in s.workers
  }

  ghost predicate WorkerInv(s: State, w: nat, worker: Worker) {
    match worker
    case Opened(j) => Grown(j, s.journal)
    case Claiming(j, slot, claim) => Grown(j, s.journal) && SeedOf(j).Some? && claim.claimRun == w
    case Owning(j, slot, claim) =>
      && Grown(j, s.journal) && SeedOf(j).Some? && claim.claimRun == w
      && ClaimPath(slot) in s.journal && s.journal[ClaimPath(slot)] == ClaimRecord(claim)
    case Posting(slot, claim) =>
      claim.claimRun == w && ClaimPath(slot) in s.journal && s.journal[ClaimPath(slot)] == ClaimRecord(claim)
    case Sealing(seed) => seed.claimRun == w
    case SealedBy(seed) => seed.claimRun == w && SeedOf(s.journal) == Some(seed)
    case Done(outcome) =>
      outcome == Sealed ==> SeedOf(s.journal).Some? && SeedOf(s.journal).value.claimRun == w
  }

  ghost predicate PostInv(s: State, post: Post) {
    && ClaimPath(post.slot) in s.journal && s.journal[ClaimPath(post.slot)].ClaimRecord?
    && s.journal[ClaimPath(post.slot)].claim.claimRun == post.worker
    && post.worker in s.workers && s.workers[post.worker] == Done(Dispatched)
  }

  ghost predicate Core(s: State) {
    && JournalInv(s)
    && (forall x :: x in s.network ==> WriteInv(s, x))
    && (forall x :: x in s.confirmed ==> x.path in s.journal && s.journal[x.path] == x.record && Typed(x.path, x.record))
    && (forall w :: w in s.workers ==> WorkerInv(s, w, s.workers[w]))
    && (forall i :: 0 <= i < |s.posts| ==> PostInv(s, s.posts[i]))
    && (forall i, j :: 0 <= i < j < |s.posts| ==> s.posts[i].slot != s.posts[j].slot)
  }

  ghost predicate Inv(s: State) {
    Core(s) && NativeInv(s) && SentInv(s)
  }

  lemma InitInv(s: State)
    requires Init(s)
    ensures Inv(s)
  {
  }

  lemma OwnerExtends(history: seq<Run>, run: Run, eligibleAt: int, id: nat)
    requires IsOwner(history, eligibleAt, id)
    ensures IsOwner(history + [run], eligibleAt, id)
  {
    var i :| 0 <= i < |history| && OwnerAt(history, eligibleAt, i) && history[i].id == id;
    var all := history + [run];
    assert all[i] == history[i];
    assert forall j :: 0 <= j < i ==> all[j] == history[j];
    assert OwnerAt(all, eligibleAt, i);
  }

  /** Time passes; attempts that exist keep their start, and their end once they have one. */
  ghost predicate Later(s: State, s': State) {
    && s.clock <= s'.clock
    && (forall n :: n in s.native ==> AttemptStays(s, s', n))
  }

  ghost predicate AttemptStays(s: State, s': State, n: int) {
    && n in s.native && n in s'.native && s'.native[n].startedAt == s.native[n].startedAt
    && (s.native[n].doneAt.Some? ==> s'.native[n] == s.native[n])
  }

  /** A lawful claim stays lawful while the journal grows and runs are added. */
  lemma LawfulStays(s: State, s': State, slot: int, claim: Claim)
    requires Lawful(s, s.journal, slot, claim)
    requires Grown(s.journal, s'.journal) && Later(s, s')
    requires s'.history == s.history || exists run :: s'.history == s.history + [run]
    ensures Lawful(s', s'.journal, slot, claim)
  {
    var seed := SeedOf(s.journal).value;
    assert SeedOf(s'.journal) == Some(seed);
    if s'.history != s.history {
      var run :| s'.history == s.history + [run];
      OwnerExtends(s.history[seed.frontier..], run, EligibleAt(claim.cause, slot), claim.claimRun);
      assert s'.history[seed.frontier..] == s.history[seed.frontier..] + [run];
    }
  }

  /** What does not depend on the workers survives any growth of journal and history. */
  lemma JournalGrows(s: State, s': State)
    requires Core(s)
    requires Grown(s.journal, s'.journal) && Later(s, s')
    requires s'.history == s.history || exists run :: s'.history == s.history + [run]
    ensures forall slot :: ClaimPath(slot) in s.journal ==>
              Lawful(s', s'.journal, slot, s.journal[ClaimPath(slot)].claim)
    ensures forall x :: x in s.network && x.path.ClaimPath? ==> Lawful(s', s'.journal, x.path.slot, x.record.claim)
  {
    forall slot | ClaimPath(slot) in s.journal
      ensures Lawful(s', s'.journal, slot, s.journal[ClaimPath(slot)].claim)
    {
      LawfulStays(s, s', slot, s.journal[ClaimPath(slot)].claim);
    }
    forall x | x in s.network && x.path.ClaimPath? ensures Lawful(s', s'.journal, x.path.slot, x.record.claim) {
      assert WriteInv(s, x);
      LawfulStays(s, s', x.path.slot, x.record.claim);
    }
  }

  /** The history seen from the frontier numbers runs as the election expects. */
  lemma HistoryFrom(s: State, frontier: nat)
    requires JournalInv(s) && frontier <= |s.history|
    ensures History(frontier, s.history[frontier..])
  {
  }

  lemma RealIsListed(s: State, frontier: nat, inventory: seq<Run>)
    requires JournalInv(s) && frontier <= |s.history|
    requires forall k :: 0 <= k < |inventory| ==> inventory[k] in s.history
    ensures Listed(frontier, s.history[frontier..], inventory)
  {
    forall k | 0 <= k < |inventory| && inventory[k].number > frontier
      ensures inventory[k] in s.history[frontier..]
    {
      var i :| 0 <= i < |s.history| && s.history[i] == inventory[k];
      assert s.history[frontier..][i - frontier] == inventory[k];
    }
  }

  /** A claim that `recover` decides to write is lawful. */
  lemma DecisionLawful(s: State, journal: Journal, w: nat, obs: Observation)
    requires Core(s) && Grown(journal, s.journal) && Consistent(obs)
    requires forall k :: 0 <= k < |obs.late| ==> obs.late[k] in s.history
    requires obs.now <= s.clock && (obs.cause.Some? ==> Seen(s, obs.cause.value))
    requires Recover(journal, w, obs).WriteClaim?
    ensures SeedOf(journal).Some?
    ensures Recover(journal, w, obs).claim.claimRun == w
    ensures Lawful(s, s.journal, Recover(journal, w, obs).slot, Recover(journal, w, obs).claim)
  {
    var seed := SeedOf(journal).value;
    assert SeedOf(s.journal) == Some(seed);
    var slot, claim := Recover(journal, w, obs).slot, Recover(journal, w, obs).claim;
    HistoryFrom(s, seed.frontier);
    RealIsListed(s, seed.frontier, obs.late);
    ElectedIsOwner(seed, claim.cause, slot, s.history[seed.frontier..], obs.late);
    if slot == 4 {
      assert HasValidClaim(journal, seed, 3);
    }
  }

  /** What every event respects: records, runs, workers and finished workers stay. */
  ghost predicate Evolves(s: State, s': State) {
    && Grown(s.journal, s'.journal) && Later(s, s')
    && (s'.history == s.history || exists run :: s'.history == s.history + [run])
    && (forall w :: w in s.workers ==> w in s'.workers)
    && (forall w :: w in s.workers && s.workers[w].Done? ==> s'.workers[w] == s.workers[w])
  }

  lemma StepEvolves(s: State, e: Event, s': State)
    requires Step(s, e, s')
    ensures Evolves(s, s')
  {
  }

  lemma WorkerStays(s: State, s': State, w: nat, worker: Worker)
    requires Evolves(s, s') && WorkerInv(s, w, worker)
    ensures WorkerInv(s', w, worker)
  {
  }

  lemma WriteStays(s: State, s': State, x: Write)
    requires Evolves(s, s') && WriteInv(s, x)
    ensures WriteInv(s', x)
  {
    if x.path.ClaimPath? {
      LawfulStays(s, s', x.path.slot, x.record.claim);
    }
  }

  lemma PostStays(s: State, s': State, post: Post)
    requires Evolves(s, s') && PostInv(s, post)
    ensures PostInv(s', post)
  {
  }

  /** The part of the invariant about things that were there before the event. */
  ghost predicate Kept(s: State, s': State) {
    && (forall x :: x in s.network ==> WriteInv(s', x))
    && (forall w :: w in s.workers ==> WorkerInv(s', w, s.workers[w]))
    && (forall i :: 0 <= i < |s.posts| ==> PostInv(s', s.posts[i]))
    && (forall slot :: ClaimPath(slot) in s.journal ==>
          s.journal[ClaimPath(slot)].ClaimRecord? && Lawful(s', s'.journal, slot, s.journal[ClaimPath(slot)].claim))
  }

  lemma Keeps(s: State, s': State)
    requires Core(s) && Evolves(s, s')
    ensures Kept(s, s')
  {
    JournalGrows(s, s');
    forall x | x in s.network ensures WriteInv(s', x) {
      WriteStays(s, s', x);
    }
    forall w | w in s.workers ensures WorkerInv(s', w, s.workers[w]) {
      WorkerStays(s, s', w, s.workers[w]);
    }
    forall i | 0 <= i < |s.posts| ensures PostInv(s', s.posts[i]) {
      PostStays(s, s', s.posts[i]);
    }
  }

  lemma JournalInvStays(s: State, s': State)
    requires Core(s) && Evolves(s, s') && Kept(s, s')
    requires s'.journal == s.journal
    requires s'.history == s.history || exists run :: s'.history == s.history + [run] && run.number == |s.history| + 1
    ensures JournalInv(s')
  {
  }

  /** An event that only moves one worker on. */
  lemma MoveInv(s: State, s': State, w: nat, worker: Worker)
    requires Core(s) && Evolves(s, s') && Kept(s, s') && JournalInv(s')
    requires s' == s.(workers := s.workers[w := worker])
    requires WorkerInv(s', w, worker)
    ensures Core(s')
  {
  }

  /** An event that moves one worker on and sends a write. */
  lemma MoveAndWriteInv(s: State, s': State, w: nat, worker: Worker, x: Write)
    requires Core(s) && Evolves(s, s') && Kept(s, s') && JournalInv(s')
    requires s' == Sending(Moved(s, w, worker), x)
    requires WorkerInv(s', w, worker) && WriteInv(s', x)
    ensures Core(s')
  {
  }

  lemma DecideInv(s: State, w: nat, obs: Observation, s': State)
    requires Core(s) && Step(s, Decide(w, obs), s') && Evolves(s, s') && Kept(s, s') && JournalInv(s')
    ensures Core(s')
  {
    var journal := s.workers[w].journal;
    var decision := Recover(journal, w, obs);
    assert WorkerInv(s, w, s.workers[w]);
    match decision
    case Stop => MoveInv(s, s', w, Done(Inactive));
    case Crash => MoveInv(s, s', w, Done(Crashed));
    case WriteTerminal(reason) =>
      MoveAndWriteInv(s, s', w, Done(Closing), Write(w, TerminalPath, TerminalRecord(reason)));
    case WriteClaim(slot, claim) =>
      DecisionLawful(s, journal, w, obs);
      LawfulStays(s, s', slot, claim);
      MoveAndWriteInv(s, s', w, Claiming(journal, slot, claim), Write(w, ClaimPath(slot), ClaimRecord(claim)));
  }

  lemma ApplyInv(s: State, write: Write, s': State)
    requires Core(s) && Step(s, Apply(write), s') && Evolves(s, s') && Kept(s, s')
    ensures Core(s')
  {
    assert WriteInv(s, write);
    WriteStays(s, s', write);
    assert JournalInv(s') by {
      forall slot | ClaimPath(slot) in s'.journal
        ensures Lawful(s', s'.journal, slot, s'.journal[ClaimPath(slot)].claim)
      {
        if ClaimPath(slot) !in s.journal {
          assert write.path == ClaimPath(slot);
        }
      }
    }
  }

  lemma SendInv(s: State, w: nat, s': State)
    requires Core(s) && Step(s, Send(w), s') && Evolves(s, s') && Kept(s, s') && JournalInv(s')
    ensures Core(s')
  {
    assert WorkerInv(s, w, s.workers[w]);
    if s.workers[w].Posting? {
      forall i | 0 <= i < |s.posts| ensures s.posts[i].slot != s.workers[w].slot {
        assert PostInv(s, s.posts[i]);
      }
    }
  }

  lemma SealInv(s: State, w: nat, seed: Seed, s': State)
    requires Core(s) && Step(s, Seal(w, seed), s') && Evolves(s, s') && Kept(s, s') && JournalInv(s')
    ensures Core(s')
  {
    match SeedOf(s.journal)
    case Some(previous) => MoveInv(s, s', w, s'.workers[w]);
    case None =>
      assert WorkerInv(s', w, s'.workers[w]);
      assert WriteInv(s', Write(w, SeedPath, SeedRecord(seed)));
  }

  lemma QuietInv(s: State, e: Event, s': State)
    requires Core(s) && Step(s, e, s') && Evolves(s, s') && Kept(s, s') && JournalInv(s')
    requires e.NewRun? || e.Lose? || e.Tick? || e.Start? || e.Finish?
    ensures Core(s')
  {
  }

  lemma LearnInv(s: State, w: nat, s': State)
    requires Core(s) && Step(s, Learn(w), s') && Evolves(s, s') && Kept(s, s') && JournalInv(s')
    ensures Core(s')
  {
    assert WorkerInv(s, w, s.workers[w]);
    MoveInv(s, s', w, s'.workers[w]);
  }

  lemma CheckInv(s: State, w: nat, evidence: bool, cause: Option<Cause>, inventory: seq<Run>, now: int, s': State)
    requires Core(s) && Step(s, Check(w, evidence, cause, inventory, now), s')
    requires Evolves(s, s') && Kept(s, s') && JournalInv(s')
    ensures Core(s')
  {
    assert WorkerInv(s, w, s.workers[w]);
    MoveInv(s, s', w, s'.workers[w]);
  }

  /** An attempt starts after its claim was made, since the claim stands when the request is issued. */
  lemma NativeStep(s: State, e: Event, s': State)
    requires Core(s) && NativeInv(s) && Step(s, e, s') && Evolves(s, s')
    ensures NativeInv(s')
  {
    forall n | n in s'.native ensures AttemptInv(s', n) {
      if n in s.native {
        assert AttemptInv(s, n) && AttemptStays(s, s', n);
      } else if n >= 3 {
        var i :| 0 <= i < |s.posts| && s.posts[i].slot == n;
        assert PostInv(s, s.posts[i]);
        assert Lawful(s, s.journal, n, s.journal[ClaimPath(n)].claim);
      }
    }
  }

  lemma SentSnoc(sent: seq<Write>, x: Write, w: nat)
    ensures WritesOf(sent + [x], w) == WritesOf(sent, w) + (if x.worker == w then [x] else [])
  {
    assert (sent + [x])[..|sent|] == sent;
  }

  lemma SentStep(s: State, e: Event, s': State)
    requires SentInv(s) && Step(s, e, s')
    ensures SentInv(s')
  {
    hide Step, WritesOf;
    forall w ensures SentBy(s', w) {
      assert SentBy(s, w);
      SentMore(s, e, s', w);
      WriterDecides(s, e, s', w);
    }
  }

  /** The run that an event lets write, if any. */
  function Writer(s: State, e: Event): Option<nat> {
    match e
    case Decide(w, _) => Some(w)
    case Seal(w, _) => Some(w)
    case _ => None
  }

  /** Only a decision or a seal sends a write, and at most one, its own. */
  lemma OneSent(s: State, e: Event, s': State)
    requires Step(s, e, s')
    ensures s'.sent == s.sent
      || (exists x :: s'.sent == s.sent + [x] && Writer(s, e) == Some(x.worker))
  {
    hide Recover, MayPost, Seen, SeedOf;
    match e
    case Decide(w, obs) =>
      match Recover(s.workers[w].journal, w, obs) {
        case Stop =>
        case Crash =>
        case WriteTerminal(reason) => SentIs(s, s', Write(w, TerminalPath, TerminalRecord(reason)), e);
        case WriteClaim(slot, claim) => SentIs(s, s', Write(w, ClaimPath(slot), ClaimRecord(claim)), e);
      }
    case Seal(w, seed) =>
      if SeedOf(s.journal).None? {
        SentIs(s, s', Write(w, SeedPath, SeedRecord(seed)), e);
      }
    case _ =>
  }

  lemma SentIs(s: State, s': State, x: Write, e: Event)
    requires s'.sent == s.sent + [x] && Writer(s, e) == Some(x.worker)
    ensures exists x :: s'.sent == s.sent + [x] && Writer(s, e) == Some(x.worker)
  {
  }

  /** Whoever writes has not decided before, and has now. */
  lemma WriterDecides(s: State, e: Event, s': State, w: nat)
    requires Step(s, e, s')
    ensures Writer(s, e) == Some(w) ==> (w !in s.workers || s.workers[w].Opened?) && w in s'.workers && !s'.workers[w].Opened?
    ensures w !in s'.workers || s'.workers[w].Opened? ==> w !in s.workers || s.workers[w].Opened?
  {
    hide Recover, MayPost, Seen, SeedOf;
  }

  lemma SentMore(s: State, e: Event, s': State, w: nat)
    requires Step(s, e, s')
    ensures WritesOf(s'.sent, w) == WritesOf(s.sent, w)
      || (Writer(s, e) == Some(w) && |WritesOf(s'.sent, w)| == |WritesOf(s.sent, w)| + 1)
  {
    hide Step;
    OneSent(s, e, s');
    if s'.sent != s.sent {
      var x :| s'.sent == s.sent + [x] && Writer(s, e) == Some(x.worker);
      SentSnoc(s.sent, x, w);
      assert x.worker != w ==> WritesOf(s.sent, w) + [] == WritesOf(s.sent, w);
    }
  }

  /** Every event keeps the invariant. */
  lemma StepInv(s: State, e: Event, s': State)
    requires Inv(s) && Step(s, e, s')
    ensures Inv(s')
  {
    StepEvolves(s, e, s');
    StepCore(s, e, s');
    NativeStep(s, e, s');
    SentStep(s, e, s');
  }

  lemma StepCore(s: State, e: Event, s': State)
    requires Core(s) && Step(s, e, s')
    ensures Core(s')
  {
    StepEvolves(s, e, s');
    Keeps(s, s');
    if !e.Apply? {
      JournalInvStays(s, s');
    }
    match e
    case NewRun(run) => QuietInv(s, e, s');
    case Open(w) => MoveInv(s, s', w, Opened(s.journal));
    case Decide(w, obs) => DecideInv(s, w, obs, s');
    case Apply(write) => ApplyInv(s, write, s');
    case Lose(write) => QuietInv(s, e, s');
    case Learn(w) => LearnInv(s, w, s');
    case GiveUp(w, outcome) => MoveInv(s, s', w, Done(outcome));
    case Check(w, evidence, cause, inventory, now) => CheckInv(s, w, evidence, cause, inventory, now, s');
    case Send(w) => SendInv(s, w, s');
    case Seal(w, seed) => SealInv(s, w, seed, s');
    case Tick(_) => QuietInv(s, e, s');
    case Start(_) => QuietInv(s, e, s');
    case Finish(_) => QuietInv(s, e, s');
  }

  // ---------------------------------------------------------------- Whole executions

  /** `states[k + 1]` follows `states[k]` by `events[k]`; the first state is initial. */
  ghost predicate Execution(states: seq<State>, events: seq<Event>)
    decreases |events|
  {
    && |states| == |events| + 1
    && (if events == [] then Init(states[0])
        else Execution(states[..|events|], events[..|events| - 1])
             && Step(states[|events| - 1], events[|events| - 1], states[|events|]))
  }

  lemma {:induction false} ExecutionInv(states: seq<State>, events: seq<Event>)
    requires Execution(states, events)
    ensures Inv(states[|events|])
    decreases |events|
  {
    if events == [] {
      InitInv(states[0]);
    } else {
      ExecutionInv(states[..|events|], events[..|events| - 1]);
      StepInv(states[|events| - 1], events[|events| - 1], states[|events|]);
    }
  }

  lemma {:induction false} ExecutionAt(states: seq<State>, events: seq<Event>, k: nat)
    requires Execution(states, events) && k <= |events|
    ensures Execution(states[..k + 1], events[..k]) && Inv(states[k])
    ensures k < |events| ==> Step(states[k], events[k], states[k + 1])
    decreases |events|
  {
    hide Step, Inv;
    if k < |events| {
      var n := |events| - 1;
      ExecutionAt(states[..n + 1], events[..n], k);
      assert states[..n + 1][..k + 1] == states[..k + 1] && events[..n][..k] == events[..k];
    } else {
      assert states[..k + 1] == states && events[..k] == events;
      ExecutionInv(states, events);
    }
  }

  // ---------------------------------------------------------------- Who may ask for a rerun

  /** At `k` the run learns that its own create of the claim was applied. */
  ghost predicate Replied(states: seq<State>, events: seq<Event>, k: nat, w: nat, slot: int, claim: Claim) {
    && k < |events| && k < |states| && events[k] == Learn(w) && w in states[k].workers
    && states[k].workers[w].Claiming? && states[k].workers[w].slot == slot && states[k].workers[w].claim == claim
    && Write(w, ClaimPath(slot), ClaimRecord(claim)) in states[k].confirmed
  }

  /** At `m`, owning the claim, it makes the post-claim reads and all agree. */
  ghost predicate Agreed(states: seq<State>, events: seq<Event>, m: nat, w: nat, slot: int, claim: Claim) {
    && m < |events| && m < |states| && events[m].Check? && events[m].w == w && w in states[m].workers
    && states[m].workers[w].Owning? && states[m].workers[w].slot == slot && states[m].workers[w].claim == claim
    && SeedOf(states[m].workers[w].journal).Some?
    && MayPost(states[m].journal, SeedOf(states[m].workers[w].journal).value, w, slot, claim,
               events[m].evidence, events[m].cause, events[m].inventory, events[m].now)
  }

  /** At `j` it issues the request. */
  ghost predicate Requested(states: seq<State>, events: seq<Event>, j: nat, w: nat, slot: int, claim: Claim) {
    && j < |events| && j + 1 < |states| && events[j] == Send(w) && w in states[j].workers
    && states[j].workers[w] == Posting(slot, claim) && states[j + 1].posts == states[j].posts + [Post(w, slot)]
  }

  /** Claimed with a confirmed reply, then checked, then requested: in this order. */
  ghost predicate Earned(states: seq<State>, events: seq<Event>, k: nat, m: nat, j: nat, w: nat, slot: int, claim: Claim) {
    && k < m < j && Replied(states, events, k, w, slot, claim) && Agreed(states, events, m, w, slot, claim)
    && Requested(states, events, j, w, slot, claim)
  }

  lemma OwningFrom(s: State, e: Event, s': State, w: nat)
    requires Step(s, e, s') && w in s'.workers && s'.workers[w].Owning? && !(w in s.workers && s.workers[w] == s'.workers[w])
    ensures e == Learn(w) && w in s.workers && s.workers[w].Claiming?
    ensures s.workers[w].slot == s'.workers[w].slot && s.workers[w].claim == s'.workers[w].claim
    ensures Write(w, ClaimPath(s'.workers[w].slot), ClaimRecord(s'.workers[w].claim)) in s.confirmed
  {
    hide Recover, MayPost, SeedOf, Seen;
  }

  lemma {:induction false} OwningReplied(states: seq<State>, events: seq<Event>, n: nat, w: nat) returns (k: nat)
    requires Execution(states, events) && n <= |events| && w in states[n].workers && states[n].workers[w].Owning?
    ensures k < n && Replied(states, events, k, w, states[n].workers[w].slot, states[n].workers[w].claim)
    decreases n
  {
    hide Step, Inv;
    if n == 0 {
      ExecutionAt(states, events, 0);
      StartsEmpty(states, events);
    } else {
      ExecutionAt(states, events, n - 1);
      if w in states[n - 1].workers && states[n - 1].workers[w] == states[n].workers[w] {
        k := OwningReplied(states, events, n - 1, w);
      } else {
        OwningFrom(states[n - 1], events[n - 1], states[n], w);
        k := n - 1;
      }
    }
  }

  lemma {:induction false} StartsEmpty(states: seq<State>, events: seq<Event>)
    requires Execution(states, events)
    ensures Init(states[0])
    decreases |events|
  {
    if events != [] {
      StartsEmpty(states[..|events|], events[..|events| - 1]);
    }
  }

  lemma PostingFrom(s: State, e: Event, s': State, w: nat)
    requires Step(s, e, s') && w in s'.workers && s'.workers[w].Posting? && !(w in s.workers && s.workers[w] == s'.workers[w])
    ensures e.Check? && e.w == w && w in s.workers && s.workers[w].Owning? && SeedOf(s.workers[w].journal).Some?
    ensures s.workers[w].slot == s'.workers[w].slot && s.workers[w].claim == s'.workers[w].claim
    ensures MayPost(s.journal, SeedOf(s.workers[w].journal).value, w, s.workers[w].slot, s.workers[w].claim,
                    e.evidence, e.cause, e.inventory, e.now)
  {
    hide Recover, Seen;
  }

  lemma {:induction false} PostingAgreed(states: seq<State>, events: seq<Event>, n: nat, w: nat) returns (k: nat, m: nat)
    requires Execution(states, events) && n <= |events| && w in states[n].workers && states[n].workers[w].Posting?
    ensures k < m < n && Replied(states, events, k, w, states[n].workers[w].slot, states[n].workers[w].claim)
    ensures Agreed(states, events, m, w, states[n].workers[w].slot, states[n].workers[w].claim)
    decreases n
  {
    hide Step, Inv, MayPost, SeedOf;
    if n == 0 {
      StartsEmpty(states, events);
    } else {
      ExecutionAt(states, events, n - 1);
      if w in states[n - 1].workers && states[n - 1].workers[w] == states[n].workers[w] {
        k, m := PostingAgreed(states, events, n - 1, w);
      } else {
        PostingFrom(states[n - 1], events[n - 1], states[n], w);
        k := OwningReplied(states, events, n - 1, w);
        m := n - 1;
      }
    }
  }

  lemma PostFrom(s: State, e: Event, s': State)
    requires Step(s, e, s')
    ensures s'.posts == s.posts
      || (e.Send? && e.w in s.workers && s.workers[e.w].Posting? && s'.posts == s.posts + [Post(e.w, s.workers[e.w].slot)])
  {
    hide Recover, MayPost, SeedOf, Seen;
  }

  /** Every request was earned by the run that issued it. */
  lemma {:induction false} PostEarned(states: seq<State>, events: seq<Event>, n: nat, i: nat)
    returns (k: nat, m: nat, j: nat, claim: Claim)
    requires Execution(states, events) && n <= |events| && i < |states[n].posts|
    ensures j < n && Earned(states, events, k, m, j, states[n].posts[i].worker, states[n].posts[i].slot, claim)
    decreases n
  {
    hide Step, Inv, Replied, Agreed;
    if n == 0 {
      StartsEmpty(states, events);
    } else {
      ExecutionAt(states, events, n - 1);
      PostFrom(states[n - 1], events[n - 1], states[n]);
      if i < |states[n - 1].posts| {
        k, m, j, claim := PostEarned(states, events, n - 1, i);
      } else {
        var w := events[n - 1].w;
        k, m := PostingAgreed(states, events, n - 1, w);
        j, claim := n - 1, states[n - 1].workers[w].claim;
      }
    }
  }

  /**
   Over every interleaving, crash and lost reply: each slot gets at most one rerun request,
   slots are 3 and 4, and the request comes from the run whose claim stands in the journal,
   whose claim is valid under the one seed, and who is the elected owner of the slot.
   Before the request that run learned that its own create of that claim was applied, and
   then found all post-claim reads in agreement.
   */
  lemma AtMostOneRequest(states: seq<State>, events: seq<Event>)
    requires Execution(states, events)
    ensures var s := states[|events|];
      && (forall i, j :: 0 <= i < j < |s.posts| ==> s.posts[i].slot != s.posts[j].slot)
      && (forall i :: 0 <= i < |s.posts| ==> Authorized(s, s.posts[i]))
      && (forall i :: 0 <= i < |s.posts| ==> EarnedBy(states, events, s.posts[i]))
  {
    hide Step, Earned;
    ExecutionInv(states, events);
    var s := states[|events|];
    forall i | 0 <= i < |s.posts| ensures Authorized(s, s.posts[i]) && EarnedBy(states, events, s.posts[i]) {
      assert PostInv(s, s.posts[i]);
      var k, m, j, claim := PostEarned(states, events, |events|, i);
      StandingClaim(states, events, k, m, j, s.posts[i].worker, s.posts[i].slot, claim);
    }
  }

  /** The request was earned with the claim that stands. */
  ghost predicate EarnedBy(states: seq<State>, events: seq<Event>, post: Post)
    requires |states| == |events| + 1
  {
    var journal := states[|events|].journal;
    && ClaimPath(post.slot) in journal && journal[ClaimPath(post.slot)].ClaimRecord?
    && exists k, m, j :: Earned(states, events, k, m, j, post.worker, post.slot, journal[ClaimPath(post.slot)].claim)
  }

  lemma StandingClaim(states: seq<State>, events: seq<Event>, k: nat, m: nat, j: nat, w: nat, slot: int, claim: Claim)
    requires Execution(states, events) && Earned(states, events, k, m, j, w, slot, claim)
    ensures ClaimPath(slot) in states[|events|].journal && states[|events|].journal[ClaimPath(slot)] == ClaimRecord(claim)
  {
    hide Step, Replied, Agreed;
    ExecutionAt(states, events, j);
    assert WorkerInv(states[j], w, states[j].workers[w]);
    JournalGrowsForever(states, events, j);
  }

  ghost predicate Authorized(s: State, post: Post) {
    && post.slot in {3, 4} && SeedOf(s.journal).Some?
    && ClaimPath(post.slot) in s.journal && s.journal[ClaimPath(post.slot)].ClaimRecord?
    && var seed, claim := SeedOf(s.journal).value, s.journal[ClaimPath(post.slot)].claim;
    && claim.claimRun == post.worker && ValidClaim(claim, seed, post.slot)
    && seed.frontier <= |s.history|
    && IsOwner(s.history[seed.frontier..], EligibleAt(claim.cause, post.slot), post.worker)
  }

  /** Slot 4 is claimed, or even asked for, only under a valid claim of slot 3. */
  lemma FourNeedsThree(states: seq<State>, events: seq<Event>)
    requires Execution(states, events)
    ensures var s := states[|events|];
      && (ClaimPath(4) in s.journal ==> SeedOf(s.journal).Some? && HasValidClaim(s.journal, SeedOf(s.journal).value, 3))
      && (forall x :: x in s.network && x.path == ClaimPath(4) ==>
            SeedOf(s.journal).Some? && HasValidClaim(s.journal, SeedOf(s.journal).value, 3))
      && (forall slot :: ClaimPath(slot) in s.journal ==> slot in {3, 4})
  {
    ExecutionInv(states, events);
    var s := states[|events|];
    forall x | x in s.network && x.path == ClaimPath(4)
      ensures SeedOf(s.journal).Some? && HasValidClaim(s.journal, SeedOf(s.journal).value, 3)
    {
      assert WriteInv(s, x);
    }
  }

  // ---------------------------------------------------------------- Silence

  /** The requests of run `w`. */
  ghost function PostsOf(posts: seq<Post>, w: nat): seq<Post> {
    if posts == [] then []
    else PostsOf(posts[..|posts| - 1], w) + (if posts[|posts| - 1].worker == w then [posts[|posts| - 1]] else [])
  }

  /** Run `w` writes and requests nothing between the two states. */
  ghost predicate Silent(s: State, s': State, w: nat) {
    WritesOf(s'.sent, w) == WritesOf(s.sent, w) && PostsOf(s'.posts, w) == PostsOf(s.posts, w)
  }

  /** No run, however its write ends, ever writes a second time. */
  lemma OneWrite(states: seq<State>, events: seq<Event>, w: nat)
    requires Execution(states, events)
    ensures |WritesOf(states[|events|].sent, w)| <= 1
  {
    hide Step, Core;
    ExecutionInv(states, events);
    assert SentBy(states[|events|], w);
  }

  /** A run that awaits a reply, or is done. */
  predicate Waiting(worker: Worker) {
    worker.Claiming? || worker.Sealing? || worker.Done?
  }

  lemma WaitingStays(s: State, e: Event, s': State, w: nat)
    requires Step(s, e, s') && w in s.workers && Waiting(s.workers[w]) && e != Learn(w)
    ensures w in s'.workers && (s'.workers[w] == s.workers[w] || s'.workers[w].Done?)
    ensures s.workers[w].Done? ==> s'.workers[w] == s.workers[w]
    ensures s'.workers[w] != Done(Dispatched) || s.workers[w] == Done(Dispatched)
    ensures Writer(s, e) != Some(w) && e != Send(w)
  {
    hide Recover, MayPost, SeedOf, Seen;
  }

  lemma SilentStep(s: State, e: Event, s': State, w: nat)
    requires Step(s, e, s') && w in s.workers && Waiting(s.workers[w]) && e != Learn(w)
    ensures Silent(s, s', w)
  {
    WaitingStays(s, e, s', w);
    SentMore(s, e, s', w);
    PostFrom(s, e, s');
    hide Step, WritesOf;
    if s'.posts != s.posts {
      assert s'.posts[..|s.posts|] == s.posts;
      assert PostsOf(s.posts, w) + [] == PostsOf(s.posts, w);
    }
  }

  /**
   As long as a run has not learned that its create was applied, whether it still waits,
   has crashed or has given up, it writes nothing more and requests nothing, even if its
   record stands.
   */
  lemma {:induction false} SilentUnconfirmed(states: seq<State>, events: seq<Event>, k: nat, n: nat, w: nat)
    requires Execution(states, events) && k <= n <= |events|
    requires w in states[k].workers && Waiting(states[k].workers[w])
    requires forall i :: k <= i < n ==> events[i] != Learn(w)
    ensures Silent(states[k], states[n], w)
    ensures w in states[n].workers && Waiting(states[n].workers[w])
    ensures states[n].workers[w] == Done(Dispatched) ==> states[k].workers[w] == Done(Dispatched)
    ensures states[k].workers[w].Done? ==> states[n].workers[w] == states[k].workers[w]
    decreases n
  {
    hide Step, Inv, WritesOf, PostsOf;
    if k < n {
      SilentUnconfirmed(states, events, k, n - 1, w);
      ExecutionAt(states, events, n - 1);
      WaitingStays(states[n - 1], events[n - 1], states[n], w);
      SilentStep(states[n - 1], events[n - 1], states[n], w);
    }
  }

  lemma GivesUp(s: State, e: Event, s': State)
    requires Step(s, e, s') && e.GiveUp?
    ensures e.w in s'.workers && s'.workers[e.w].Done? && Silent(s, s', e.w)
  {
  }

  lemma DoneLearnsNothing(s: State, e: Event, s': State, w: nat)
    requires Step(s, e, s') && w in s.workers && s.workers[w].Done?
    ensures e != Learn(w) && w in s'.workers && s'.workers[w] == s.workers[w]
  {
    hide Recover, MayPost, SeedOf, Seen;
  }

  /** A run that gives up at `k` writes and requests nothing from then on, counted from before it gives up. */
  lemma {:induction false} SilentAfterGivingUp(states: seq<State>, events: seq<Event>, k: nat, n: nat, w: nat)
    requires Execution(states, events) && k < n <= |events|
    requires events[k].GiveUp? && events[k].w == w
    ensures Silent(states[k], states[n], w) && w in states[n].workers && states[n].workers[w].Done?
    decreases n
  {
    hide Step, Inv, WritesOf, PostsOf;
    ExecutionAt(states, events, n - 1);
    if k == n - 1 {
      GivesUp(states[k], events[k], states[n]);
    } else {
      SilentAfterGivingUp(states, events, k, n - 1, w);
      DoneLearnsNothing(states[n - 1], events[n - 1], states[n], w);
      SilentStep(states[n - 1], events[n - 1], states[n], w);
    }
  }

  // ---------------------------------------------------------------- The budget

  /**
   The budget chains.  In every reachable journal that holds both claims, attempt 3 ended
   after its claim was made; so the claims lie both cooldowns apart and after the first
   failure, and leave the runtime reserve before the one deadline.
   */
  lemma ClaimsChain(states: seq<State>, events: seq<Event>)
    requires Execution(states, events)
    requires ClaimPath(3) in states[|events|].journal && ClaimPath(4) in states[|events|].journal
    ensures var journal := states[|events|].journal;
      && SeedOf(journal).Some? && journal[ClaimPath(3)].ClaimRecord? && journal[ClaimPath(4)].ClaimRecord?
      && var seed, third, fourth := SeedOf(journal).value, journal[ClaimPath(3)].claim, journal[ClaimPath(4)].claim;
      && seed.createdAt + Cooldown(3) <= third.createdAt <= fourth.cause.completedAt
      && third.createdAt + Cooldown(4) <= fourth.createdAt
      && third.cause.completedAt + Cooldown(3) + Cooldown(4) <= fourth.createdAt
      && fourth.createdAt + RUNTIME_RESERVE <= Deadline(seed)
      && third.createdAt <= seed.createdAt + TOTAL_SECONDS - RUNTIME_RESERVE - Cooldown(4)
  {
    hide Step, IsOwner, Elected;
    ExecutionInv(states, events);
    var s := states[|events|];
    assert Lawful(s, s.journal, 3, s.journal[ClaimPath(3)].claim);
    assert Lawful(s, s.journal, 4, s.journal[ClaimPath(4)].claim);
    assert AttemptInv(s, 3);
  }

  /** Records are never changed or removed, and at most one helper run ever reports a seal. */
  lemma {:induction false} JournalGrowsForever(states: seq<State>, events: seq<Event>, k: nat)
    requires Execution(states, events) && k <= |events|
    ensures Grown(states[k].journal, states[|events|].journal)
    decreases |events|
  {
    if k < |events| {
      var n := |events| - 1;
      JournalGrowsForever(states[..n + 1], events[..n], k);
      StepEvolves(states[n], events[n], states[n + 1]);
    }
  }

  lemma OneSeal(states: seq<State>, events: seq<Event>, v: nat, w: nat)
    requires Execution(states, events)
    requires v in states[|events|].workers && states[|events|].workers[v] == Done(Sealed)
    requires w in states[|events|].workers && states[|events|].workers[w] == Done(Sealed)
    ensures v == w
  {
    ExecutionInv(states, events);
    var s := states[|events|];
    assert WorkerInv(s, v, s.workers[v]) && WorkerInv(s, w, s.workers[w]);
  }

  // ---------------------------------------------------------------- The receiver

  /** What a receiver reads besides the journal: `evidence` for all bindings of its own run and contract. */
  datatype View = View(
    evidence: bool, now: int, cause: int -> Option<Cause>, inventory: int -> seq<Run>, scheduler: int -> bool,
    attempt: Option<int>, byBot: bool, startedAt: int, later: int)

  predicate ReceivesSlot(journal: Journal, seed: Seed, n: int, v: View) {
    && HasValidClaim(journal, seed, n)
    && v.cause(n - 1) == Some(journal[ClaimPath(n)].claim.cause)
    && Elected(seed, journal[ClaimPath(n)].claim.cause, n, v.inventory(n)) == Ok(journal[ClaimPath(n)].claim.claimRun)
    && v.scheduler(n)
  }

  /** `receiver(repo, repo_id, run_id, attempt, now)` returns. */
  predicate Receives(journal: Journal, attempt: int, v: View) {
    && attempt in {3, 4} && SeedOf(journal).Some? && TerminalPath !in journal && v.evidence
    && var seed := SeedOf(journal).value;
    && v.now <= Deadline(seed)
    && (forall n :: 3 <= n <= attempt ==> ReceivesSlot(journal, seed, n, v))
    && v.attempt == Some(attempt) && v.byBot
    && (assert ReceivesSlot(journal, seed, attempt, v); v.startedAt >= journal[ClaimPath(attempt)].claim.createdAt)
    && v.later <= Deadline(seed)
  }

  /** What a receiver may still miss of one slot. */
  ghost predicate Visible(journal: Journal, seed: Seed, n: int, v: View)
    requires ClaimPath(n) in journal && journal[ClaimPath(n)].ClaimRecord?
  {
    && v.cause(n - 1) == Some(journal[ClaimPath(n)].claim.cause)
    && Elected(seed, journal[ClaimPath(n)].claim.cause, n, v.inventory(n)).Ok? && v.scheduler(n)
  }

  /** In a reachable state a successful election names the owner whose claim stands. */
  lemma OwnerStands(s: State, slot: int, inventory: seq<Run>)
    requires Inv(s) && ClaimPath(slot) in s.journal
    requires forall k :: 0 <= k < |inventory| ==> inventory[k] in s.history
    ensures SeedOf(s.journal).Some? && s.journal[ClaimPath(slot)].ClaimRecord?
    ensures var seed, claim := SeedOf(s.journal).value, s.journal[ClaimPath(slot)].claim;
      Elected(seed, claim.cause, slot, inventory).Ok? ==> Elected(seed, claim.cause, slot, inventory).value == claim.claimRun
  {
    assert Lawful(s, s.journal, slot, s.journal[ClaimPath(slot)].claim);
    var seed, claim := SeedOf(s.journal).value, s.journal[ClaimPath(slot)].claim;
    if Elected(seed, claim.cause, slot, inventory).Ok? {
      HistoryFrom(s, seed.frontier);
      RealIsListed(s, seed.frontier, inventory);
      ElectedIsOwner(seed, claim.cause, slot, s.history[seed.frontier..], inventory);
      assert s.history[seed.frontier..] + [] == s.history[seed.frontier..];
      OwnerUnique(s.history[seed.frontier..], [], EligibleAt(claim.cause, slot), claim.claimRun,
                  Elected(seed, claim.cause, slot, inventory).value);
    }
  }

  /** The slots of an attempt that exists are claimed, validly. */
  lemma SlotsClaimed(s: State, attempt: int, n: int)
    requires Inv(s) && attempt in {3, 4} && attempt in s.native && 3 <= n <= attempt
    ensures SeedOf(s.journal).Some? && HasValidClaim(s.journal, SeedOf(s.journal).value, n)
    ensures s.journal[ClaimPath(attempt)].ClaimRecord?
    ensures s.native[attempt].startedAt >= s.journal[ClaimPath(attempt)].claim.createdAt
  {
    assert AttemptInv(s, attempt);
    assert Lawful(s, s.journal, attempt, s.journal[ClaimPath(attempt)].claim);
  }

  /**
   For a native attempt that exists, a receiver refuses only for a terminal record, the
   deadline, or what it cannot see or no longer finds: the claims, their owners and the
   start time always agree.
   */
  lemma ReceiverAccepts(states: seq<State>, events: seq<Event>, attempt: int, v: View)
    requires Execution(states, events) && attempt in {3, 4} && attempt in states[|events|].native
    requires v.startedAt == states[|events|].native[attempt].startedAt
    requires forall n :: 3 <= n <= attempt ==> forall k :: 0 <= k < |v.inventory(n)| ==> v.inventory(n)[k] in states[|events|].history
    ensures var journal := states[|events|].journal;
      && SeedOf(journal).Some?
      && (forall n :: 3 <= n <= attempt ==> ClaimPath(n) in journal && journal[ClaimPath(n)].ClaimRecord?)
      && var seed := SeedOf(journal).value;
      (Receives(journal, attempt, v) <==>
        (&& TerminalPath !in journal && v.evidence && v.now <= Deadline(seed) && v.later <= Deadline(seed)
         && v.attempt == Some(attempt) && v.byBot
         && forall n :: 3 <= n <= attempt ==> Visible(journal, seed, n, v)))
  {
    hide Step, Elected, ValidClaim, Inv;
    ExecutionInv(states, events);
    var s := states[|events|];
    SlotsClaimed(s, attempt, 3);
    var seed := SeedOf(s.journal).value;
    forall n | 3 <= n <= attempt
      ensures ClaimPath(n) in s.journal && s.journal[ClaimPath(n)].ClaimRecord?
      ensures ReceivesSlot(s.journal, seed, n, v) <==> Visible(s.journal, seed, n, v)
    {
      SlotsClaimed(s, attempt, n);
      OwnerStands(s, n, v.inventory(n));
    }
  }
}
