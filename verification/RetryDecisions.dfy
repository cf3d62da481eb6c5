/**
 What a pass of `recover` in scripts/native_verifier_retry.py decides, and when: each of its
 writes in terms of what it read, and the terminal record of every reachable journal.
 */
module RetryDecisions {
  import opened Common
  import opened RetryElection
  import opened RetryProtocol

  /** The waiting time before a slot: 20 minutes before the first retry, 40 before the second. */
  function Wait(slot: int): int {
    if slot == 3 then 20 * 60 else 40 * 60
  }

  /** Everything ends three hours after the seal, and a claim must leave one of them. */
  ghost predicate Late(seed: Seed, time: int) {
    time + 60 * 60 > seed.createdAt + 3 * 60 * 60
  }

  /** The run is sealed and not closed. */
  ghost predicate Live(journal: Journal, seed: Seed) {
    SeedPath in journal && journal[SeedPath] == SeedRecord(seed) && TerminalPath !in journal
  }

  /** The first look at the run shows an attempt whose successor is not claimed. */
  ghost predicate Looked(journal: Journal, seed: Seed, obs: Observation) {
    && Live(journal, seed) && obs.observed.attempt.Some?
    && (obs.observed.attempt == Some(2) ==> ClaimPath(3) !in journal)
    && (obs.observed.attempt == Some(3) ==> ClaimPath(4) !in journal)
  }

  /** It shows that the runner of attempt 2 or 3 was lost, for this cause. */
  ghost predicate Lost(obs: Observation, cause: Cause) {
    (obs.observed.attempt == Some(2) || obs.observed.attempt == Some(3)) && obs.observed.completed && obs.observedCause == Some(cause)
  }

  /** When a retry after this cause is due. */
  function DueAt(cause: Cause, attempt: int): int {
    cause.completedAt + Wait(attempt + 1)
  }

  /** A runner was lost and its retry no longer fits. */
  ghost predicate TooLate(journal: Journal, seed: Seed, obs: Observation) {
    Looked(journal, seed, obs) && exists cause :: Lost(obs, cause) && Late(seed, DueAt(cause, obs.observed.attempt.value))
  }

  /** The pass goes on to the contract: no lost runner, or its retry fits and is not yet due, or due to this run. */
  ghost predicate GoesOn(journal: Journal, seed: Seed, claimant: nat, obs: Observation) {
    Looked(journal, seed, obs) && forall cause :: Lost(obs, cause) ==>
      var n := obs.observed.attempt.value;
      && !Late(seed, DueAt(cause, n))
      && (obs.now >= DueAt(cause, n) ==> Elected(seed, cause, n + 1, obs.early) == Ok(claimant))
  }

  /** The contract holds, and the run is at attempt `n`. */
  ghost predicate Bound(journal: Journal, seed: Seed, claimant: nat, obs: Observation, n: int) {
    && GoesOn(journal, seed, claimant, obs) && obs.original == Present && obs.contractHolds
    && obs.run.attempt == Some(n) && 1 <= n <= 4
  }

  ghost predicate ClaimsStand(journal: Journal, seed: Seed, n: int) {
    forall slot :: 3 <= slot <= n ==> HasValidClaim(journal, seed, slot)
  }

  /** A retried attempt is over, and all its claims stand. */
  ghost predicate Over(journal: Journal, seed: Seed, claimant: nat, obs: Observation, n: int) {
    Bound(journal, seed, claimant, obs, n) && n >= 2 && ClaimsStand(journal, seed, n) && obs.run.completed
  }

  /** It failed, with an attempt and the reserve left. */
  ghost predicate Retryable(journal: Journal, seed: Seed, claimant: nat, obs: Observation, n: int) {
    Over(journal, seed, claimant, obs, n) && !obs.run.success && n < 4 && !Late(seed, obs.now)
  }

  /** Its runner was lost, the wait is over and the slot is free. */
  ghost predicate Due(journal: Journal, seed: Seed, claimant: nat, obs: Observation, n: int, cause: Cause) {
    && Retryable(journal, seed, claimant, obs, n) && obs.cause == Some(cause)
    && obs.now >= DueAt(cause, n) && ClaimPath(n + 1) !in journal
  }

  /** And the slot is this run's own. */
  ghost predicate Owned(journal: Journal, seed: Seed, claimant: nat, obs: Observation, n: int, cause: Cause) {
    Due(journal, seed, claimant, obs, n, cause) && Elected(seed, cause, n + 1, obs.late) == Ok(claimant)
  }

  // ---------------------------------------------------------------- The decisions

  /** A journal without a seal, or with a terminal record, is never written. */
  lemma OnlyLive(journal: Journal, claimant: nat, obs: Observation)
    requires forall seed :: !Live(journal, seed)
    ensures Recover(journal, claimant, obs).Stop? || Recover(journal, claimant, obs).Crash?
  {
    if SeedOf(journal).Some? {
      assert !Live(journal, SeedOf(journal).value);
    }
  }

  /** The lost runner that the first look shows, if any. */
  function LostBy(obs: Observation): Option<Cause> {
    if (obs.observed.attempt == Some(2) || obs.observed.attempt == Some(3)) && obs.observed.completed then obs.observedCause else None
  }

  lemma LostIs(journal: Journal, seed: Seed, claimant: nat, obs: Observation)
    ensures forall cause :: Lost(obs, cause) <==> LostBy(obs) == Some(cause)
    ensures var n := if obs.observed.attempt.Some? then obs.observed.attempt.value else 0;
      && (TooLate(journal, seed, obs) <==>
           Looked(journal, seed, obs) && LostBy(obs).Some? && Late(seed, DueAt(LostBy(obs).value, n)))
      && (GoesOn(journal, seed, claimant, obs) <==>
           Looked(journal, seed, obs) && (LostBy(obs).Some? ==>
             && !Late(seed, DueAt(LostBy(obs).value, n))
             && (obs.now >= DueAt(LostBy(obs).value, n) ==> Elected(seed, LostBy(obs).value, n + 1, obs.early) == Ok(claimant))))
  {
    hide Elected, Looked, Late, DueAt;
    if LostBy(obs).Some? {
      assert Lost(obs, LostBy(obs).value);
    }
  }

  function LateDecision(obs: Observation): Decision {
    if obs.original == Invalid then WriteTerminal(ContractDrift)
    else if obs.original == Pending then Stop
    else WriteTerminal(BudgetExhausted)
  }

  /** What the pass does before it reads the contract. */
  lemma FirstHalf(journal: Journal, seed: Seed, claimant: nat, obs: Observation)
    requires Live(journal, seed) && Consistent(obs)
    ensures var d := Recover(journal, claimant, obs);
      && (obs.observed.attempt.None? ==> d == WriteTerminal(ContractDrift))
      && (obs.observed.attempt.Some? && !Looked(journal, seed, obs) ==> d == Stop)
      && (TooLate(journal, seed, obs) ==> !GoesOn(journal, seed, claimant, obs) && d == LateDecision(obs))
      && (GoesOn(journal, seed, claimant, obs) ==> d == RecoverContract(journal, seed, claimant, obs))
      && (Looked(journal, seed, obs) && !TooLate(journal, seed, obs) && !GoesOn(journal, seed, claimant, obs) ==>
            LostBy(obs).Some? && d == (if EarlyFails(seed, obs, LostBy(obs).value) then Crash else Stop))
  {
    hide Elected, RecoverContract, TooLate, GoesOn;
    LostIs(journal, seed, claimant, obs);
  }

  /** What it does once it has gone on to the contract. */
  lemma SecondHalf(journal: Journal, seed: Seed, claimant: nat, obs: Observation)
    requires Live(journal, seed) && Consistent(obs)
    ensures GoesOn(journal, seed, claimant, obs) ==> Unbound(obs, RecoverContract(journal, seed, claimant, obs))
    ensures forall n :: Bound(journal, seed, claimant, obs, n) ==>
      Resolved(journal, seed, claimant, obs, n, RecoverContract(journal, seed, claimant, obs))
  {
    hide Elected, GoesOn, ValidClaim;
    if obs.run.attempt.Some? && Bound(journal, seed, claimant, obs, obs.run.attempt.value) {
      BoundDecides(journal, seed, claimant, obs, obs.run.attempt.value);
    }
  }

  ghost predicate Unbound(obs: Observation, d: Decision) {
    && (obs.original == Invalid ==> d == WriteTerminal(ContractDrift))
    && (obs.original == Pending ==> d == Stop)
    && (obs.original == Present && !obs.contractHolds ==> d == WriteTerminal(ContractDrift))
    && (obs.original == Present && (obs.run.attempt.None? || !(1 <= obs.run.attempt.value <= 4)) ==> d == WriteTerminal(ContractDrift))
  }

  ghost predicate Resolved(journal: Journal, seed: Seed, claimant: nat, obs: Observation, n: int, d: Decision) {
    && (n == 1 ==> d == Stop)
    && (n >= 2 && !ClaimsStand(journal, seed, n) ==> d == WriteTerminal(ContractDrift))
    && (n >= 2 && ClaimsStand(journal, seed, n) && !obs.run.completed ==> d == Stop)
    && (Over(journal, seed, claimant, obs, n) && obs.run.success ==> d == WriteTerminal(Verified))
    && (Over(journal, seed, claimant, obs, n) && !obs.run.success && !Retryable(journal, seed, claimant, obs, n) ==>
          d == WriteTerminal(BudgetExhausted))
    && (Retryable(journal, seed, claimant, obs, n) ==>
          match obs.cause
          case None => d == WriteTerminal(NonRetryable)
          case Some(cause) =>
            if !Due(journal, seed, claimant, obs, n, cause) then d == Stop
            else if !Owned(journal, seed, claimant, obs, n, cause) then
              d == if Elected(seed, cause, n + 1, obs.late).Err? then Crash else Stop
            else if cause.completedAt < seed.createdAt then d == WriteTerminal(ContractDrift)
            else d == WriteClaim(n + 1, Claim(seed.contract, n + 1, cause, obs.now, claimant)))
  }

  lemma BoundDecides(journal: Journal, seed: Seed, claimant: nat, obs: Observation, n: int)
    requires Consistent(obs) && Bound(journal, seed, claimant, obs, n)
    ensures Resolved(journal, seed, claimant, obs, n, RecoverContract(journal, seed, claimant, obs))
  {
    hide Elected, GoesOn, HasValidClaim;
    assert ClaimsStand(journal, seed, n) <==> !(exists k :: 3 <= k <= n && !HasValidClaim(journal, seed, k));
  }

  /** The two together; `n` is the attempt it ends up with. */
  lemma Outcome(journal: Journal, seed: Seed, claimant: nat, obs: Observation) returns (n: int)
    requires Live(journal, seed) && Consistent(obs)
    ensures forall k :: Bound(journal, seed, claimant, obs, k) ==> k == n && GoesOn(journal, seed, claimant, obs)
    ensures var d := Recover(journal, claimant, obs);
      if obs.observed.attempt.None? then d == WriteTerminal(ContractDrift) && !Looked(journal, seed, obs)
      else if !Looked(journal, seed, obs) then d == Stop
      else if TooLate(journal, seed, obs) then d == LateDecision(obs) && !GoesOn(journal, seed, claimant, obs)
      else if !GoesOn(journal, seed, claimant, obs) then
        LostBy(obs).Some? && d == (if EarlyFails(seed, obs, LostBy(obs).value) then Crash else Stop)
      else if Bound(journal, seed, claimant, obs, n) then Resolved(journal, seed, claimant, obs, n, d)
      else if obs.original == Pending then d == Stop
      else d == WriteTerminal(ContractDrift)
    ensures GoesOn(journal, seed, claimant, obs) ==> Looked(journal, seed, obs) && !TooLate(journal, seed, obs)
    ensures TooLate(journal, seed, obs) ==> Looked(journal, seed, obs)
    ensures Looked(journal, seed, obs) ==> obs.observed.attempt.Some?
  {
    FirstHalf(journal, seed, claimant, obs);
    SecondHalf(journal, seed, claimant, obs);
    n := if obs.run.attempt.Some? then obs.run.attempt.value else 0;
    hide Recover, RecoverContract, Resolved, Elected, Late, GoesOn;
    if GoesOn(journal, seed, claimant, obs) {
      LostIs(journal, seed, claimant, obs);
      GoesOnLooked(journal, seed, claimant, obs);
    }
  }

  lemma GoesOnLooked(journal: Journal, seed: Seed, claimant: nat, obs: Observation)
    requires GoesOn(journal, seed, claimant, obs)
    ensures Looked(journal, seed, obs) && !TooLate(journal, seed, obs)
  {
    hide Late, Elected, Looked;
  }

  /** The run is closed as verified exactly when a retried attempt is over and succeeded. */
  lemma VerifiedMeans(journal: Journal, seed: Seed, claimant: nat, obs: Observation)
    requires Live(journal, seed) && Consistent(obs)
    ensures Recover(journal, claimant, obs) == WriteTerminal(Verified) <==>
      exists n :: Over(journal, seed, claimant, obs, n) && obs.run.success
  {
    var n := Outcome(journal, seed, claimant, obs);
    LostIs(journal, seed, claimant, obs);
    hide Recover, Looked, GoesOn, TooLate, LostBy, Elected, Late, ClaimsStand, DueAt;
    assert Over(journal, seed, claimant, obs, n) <==> Bound(journal, seed, claimant, obs, n) && n >= 2 && ClaimsStand(journal, seed, n) && obs.run.completed;
  }

  /** As not retryable, exactly when it failed with an attempt and the reserve left, but lost no runner. */
  lemma NonRetryableMeans(journal: Journal, seed: Seed, claimant: nat, obs: Observation)
    requires Live(journal, seed) && Consistent(obs)
    ensures Recover(journal, claimant, obs) == WriteTerminal(NonRetryable) <==>
      exists n :: Retryable(journal, seed, claimant, obs, n) && obs.cause.None?
  {
    var n := Outcome(journal, seed, claimant, obs);
    LostIs(journal, seed, claimant, obs);
    hide Recover, Looked, GoesOn, TooLate, LostBy, Elected, Late, ClaimsStand, DueAt;
  }

  /** As exhausted, exactly when the next retry would not fit, or it failed with none or no reserve left. */
  lemma ExhaustedMeans(journal: Journal, seed: Seed, claimant: nat, obs: Observation)
    requires Live(journal, seed) && Consistent(obs)
    ensures Recover(journal, claimant, obs) == WriteTerminal(BudgetExhausted) <==>
      || (TooLate(journal, seed, obs) && obs.original == Present)
      || (exists n :: Over(journal, seed, claimant, obs, n) && !obs.run.success && (n == 4 || Late(seed, obs.now)))
  {
    var n := Outcome(journal, seed, claimant, obs);
    LostIs(journal, seed, claimant, obs);
    hide Recover, Looked, GoesOn, TooLate, LostBy, Elected, Late, ClaimsStand, DueAt;
    assert Over(journal, seed, claimant, obs, n) && !obs.run.success && !(n == 4 || Late(seed, obs.now)) ==> Retryable(journal, seed, claimant, obs, n);
    assert Over(journal, seed, claimant, obs, n) <==> Bound(journal, seed, claimant, obs, n) && n >= 2 && ClaimsStand(journal, seed, n) && obs.run.completed;
  }

  /** As drifted, exactly when something it relies on does not hold. */
  lemma DriftMeans(journal: Journal, seed: Seed, claimant: nat, obs: Observation)
    requires Live(journal, seed) && Consistent(obs)
    ensures Recover(journal, claimant, obs) == WriteTerminal(ContractDrift) <==> Drifts(journal, seed, claimant, obs)
  {
    var n := Outcome(journal, seed, claimant, obs);
    LostIs(journal, seed, claimant, obs);
    hide Recover, Looked, GoesOn, TooLate, LostBy, Elected, Late, ClaimsStand, DueAt;
  }

  ghost predicate Drifts(journal: Journal, seed: Seed, claimant: nat, obs: Observation) {
    || obs.observed.attempt.None?
    || ((TooLate(journal, seed, obs) || GoesOn(journal, seed, claimant, obs)) && obs.original == Invalid)
    || (GoesOn(journal, seed, claimant, obs) && obs.original == Present && !obs.contractHolds)
    || (GoesOn(journal, seed, claimant, obs) && obs.original == Present && obs.contractHolds
        && !exists n :: Bound(journal, seed, claimant, obs, n))
    || (exists n :: Bound(journal, seed, claimant, obs, n) && n >= 2 && !ClaimsStand(journal, seed, n))
    || (exists n, cause :: Owned(journal, seed, claimant, obs, n, cause) && cause.completedAt < seed.createdAt)
  }

  /** A slot is claimed exactly when it is due to this run, with a claim that says so. */
  lemma ClaimMeans(journal: Journal, seed: Seed, claimant: nat, obs: Observation, slot: int, claim: Claim)
    requires Live(journal, seed) && Consistent(obs)
    ensures Recover(journal, claimant, obs) == WriteClaim(slot, claim) <==>
      exists n, cause :: Owned(journal, seed, claimant, obs, n, cause) && cause.completedAt >= seed.createdAt
        && slot == n + 1 && claim == Claim(seed.contract, slot, cause, obs.now, claimant)
  {
    var n := Outcome(journal, seed, claimant, obs);
    LostIs(journal, seed, claimant, obs);
    hide Recover, Looked, GoesOn, TooLate, LostBy, Elected, Late, ClaimsStand, DueAt;
  }

  /** The sweep stops exactly on a failed election for a due slot. */
  lemma CrashMeans(journal: Journal, seed: Seed, claimant: nat, obs: Observation)
    requires Live(journal, seed) && Consistent(obs)
    ensures Recover(journal, claimant, obs).Crash? <==>
      || (Looked(journal, seed, obs) && exists cause :: Lost(obs, cause) && EarlyFails(seed, obs, cause))
      || (exists n, cause :: Due(journal, seed, claimant, obs, n, cause) && Elected(seed, cause, n + 1, obs.late).Err?)
  {
    var n := Outcome(journal, seed, claimant, obs);
    LostIs(journal, seed, claimant, obs);
    hide Recover, Looked, GoesOn, TooLate, LostBy, Elected, Late, ClaimsStand, DueAt;
  }

  ghost predicate EarlyFails(seed: Seed, obs: Observation, cause: Cause)
    requires obs.observed.attempt.Some?
  {
    var n := obs.observed.attempt.value;
    !Late(seed, DueAt(cause, n)) && obs.now >= DueAt(cause, n) && Elected(seed, cause, n + 1, obs.early).Err?
  }

  // ---------------------------------------------------------------- Where records come from

  /** The write that a decision attempts. */
  function WriteOf(d: Decision, w: nat): Option<Write> {
    match d
    case WriteTerminal(reason) => Some(Write(w, TerminalPath, TerminalRecord(reason)))
    case WriteClaim(slot, claim) => Some(Write(w, ClaimPath(slot), ClaimRecord(claim)))
    case _ => None
  }

  /** At `k`, run `x.worker` decides on `x` from its journal and what it then reads. */
  ghost predicate Decided(states: seq<State>, events: seq<Event>, k: nat, x: Write) {
    && k < |events| && k < |states| && events[k].Decide? && events[k].w == x.worker
    && x.worker in states[k].workers && states[k].workers[x.worker].Opened? && Consistent(events[k].obs)
    && WriteOf(Recover(states[k].workers[x.worker].journal, x.worker, events[k].obs), x.worker) == Some(x)
  }

  ghost predicate Explained(states: seq<State>, events: seq<Event>, n: nat, x: Write) {
    x.path == SeedPath || exists k: nat :: k < n && Decided(states, events, k, x)
  }

  /** What an event adds to the writes under way. */
  lemma Underway(s: State, e: Event, s': State, x: Write)
    requires Step(s, e, s') && x in s'.network && x !in s.network
    ensures x.path == SeedPath
      || (e.Decide? && e.w == x.worker && e.w in s.workers && s.workers[e.w].Opened? && Consistent(e.obs)
          && WriteOf(Recover(s.workers[e.w].journal, e.w, e.obs), e.w) == Some(x))
  {
    hide Recover, MayPost, SeedOf, RetryProtocol.Seen, Consistent;
  }

  /** And to the journal: a write that was under way. */
  lemma Applied(s: State, e: Event, s': State, p: Path)
    requires Step(s, e, s') && p in s'.journal && !(p in s.journal && s.journal[p] == s'.journal[p])
    ensures exists x :: x in s.network && x.path == p && x.record == s'.journal[p]
  {
    hide Recover, MayPost, SeedOf, RetryProtocol.Seen, Consistent;
    assert e.Apply? && e.write in s.network && e.write.path == p;
  }

  ghost predicate JournalExplained(states: seq<State>, events: seq<Event>, n: nat, p: Path)
    requires n < |states| && p in states[n].journal
  {
    exists w :: Explained(states, events, n, Write(w, p, states[n].journal[p]))
  }

  lemma {:induction false} AllExplained(states: seq<State>, events: seq<Event>, n: nat)
    requires Execution(states, events) && n <= |events|
    ensures forall x :: x in states[n].network ==> Explained(states, events, n, x)
    ensures forall p :: p in states[n].journal ==> JournalExplained(states, events, n, p)
    decreases n
  {
    hide Step, Inv, Decided;
    if n == 0 {
      StartsEmpty(states, events);
      StartsBare(states, events);
    } else {
      AllExplained(states, events, n - 1);
      ExecutionAt(states, events, n - 1);
      var s, e, s' := states[n - 1], events[n - 1], states[n];
      forall x | x in s'.network ensures Explained(states, events, n, x) {
        if x in s.network {
          Longer(states, events, n, x);
        } else {
          Underway(s, e, s', x);
          DecidedAt(states, events, n - 1, x);
        }
      }
      forall p | p in s'.journal ensures JournalExplained(states, events, n, p) {
        if p in s.journal && s.journal[p] == s'.journal[p] {
          assert JournalExplained(states, events, n - 1, p);
          var w :| Explained(states, events, n - 1, Write(w, p, s.journal[p]));
          Longer(states, events, n, Write(w, p, s.journal[p]));
        } else {
          Applied(s, e, s', p);
          var x :| x in s.network && x.path == p && x.record == s'.journal[p];
          Longer(states, events, n, x);
          assert x == Write(x.worker, p, s'.journal[p]);
        }
      }
    }
  }

  lemma StartsBare(states: seq<State>, events: seq<Event>)
    requires Execution(states, events)
    ensures states[0].network == {} && states[0].journal == map[]
    decreases |events|
  {
    hide Step;
    if events != [] {
      StartsBare(states[..|events|], events[..|events| - 1]);
    }
  }

  lemma Longer(states: seq<State>, events: seq<Event>, n: nat, x: Write)
    requires n > 0 && Explained(states, events, n - 1, x)
    ensures Explained(states, events, n, x)
  {
    hide Decided;
  }

  lemma DecidedAt(states: seq<State>, events: seq<Event>, k: nat, x: Write)
    requires k < |events| && k < |states|
    requires x.path == SeedPath
      || (var e, s := events[k], states[k];
          e.Decide? && e.w == x.worker && e.w in s.workers && s.workers[e.w].Opened? && Consistent(e.obs)
          && WriteOf(Recover(s.workers[e.w].journal, e.w, e.obs), e.w) == Some(x))
    ensures Explained(states, events, k + 1, x)
  {
    hide Recover, Consistent, WriteOf;
    if x.path != SeedPath {
      assert Decided(states, events, k, x);
    }
  }

  /** The journal that a run decides from, and what it reads besides. */
  ghost predicate PassAt(states: seq<State>, events: seq<Event>, k: nat, w: nat, journal: Journal, obs: Observation) {
    && k < |events| && k < |states| && events[k] == Decide(w, obs) && w in states[k].workers
    && states[k].workers[w] == Opened(journal) && Consistent(obs)
  }

  /**
   In every reachable journal, a terminal record was decided by some pass, from a live journal
   and for the reason that it gives.
   */
  lemma TerminalEarned(states: seq<State>, events: seq<Event>)
    requires Execution(states, events) && TerminalPath in states[|events|].journal
    ensures states[|events|].journal[TerminalPath].TerminalRecord?
    ensures exists k, w, journal, obs, seed ::
      PassAt(states, events, k, w, journal, obs)
      && Reasoned(journal, seed, w, obs, states[|events|].journal[TerminalPath].reason)
  {
    hide Step, Inv, Recover, Live, Reasoned, Consistent;
    AllExplained(states, events, |events|);
    var record := states[|events|].journal[TerminalPath];
    assert JournalExplained(states, events, |events|, TerminalPath);
    var w :| Explained(states, events, |events|, Write(w, TerminalPath, record));
    var k: nat :| k < |events| && Decided(states, events, k, Write(w, TerminalPath, record));
    var journal, obs := states[k].workers[w].journal, events[k].obs;
    var seed := ReasonIs(journal, w, obs, record.reason);
    assert PassAt(states, events, k, w, journal, obs);
  }

  /** Why a pass may close the run. */
  ghost predicate Reasoned(journal: Journal, seed: Seed, w: nat, obs: Observation, reason: Reason) {
    Live(journal, seed) &&
    match reason
    case Verified => exists n :: Over(journal, seed, w, obs, n) && obs.run.success
    case NonRetryable => exists n :: Retryable(journal, seed, w, obs, n) && obs.cause.None?
    case BudgetExhausted =>
      || (TooLate(journal, seed, obs) && obs.original == Present)
      || (exists n :: Over(journal, seed, w, obs, n) && !obs.run.success && (n == 4 || Late(seed, obs.now)))
    case ContractDrift => Drifts(journal, seed, w, obs)
  }

  lemma ReasonIs(journal: Journal, w: nat, obs: Observation, reason: Reason) returns (seed: Seed)
    requires Consistent(obs) && Recover(journal, w, obs) == WriteTerminal(reason)
    ensures Reasoned(journal, seed, w, obs, reason)
  {
    hide Over, Retryable, TooLate, Drifts, Late;
    if seed' :| Live(journal, seed') {
      seed := seed';
      hide Live, Recover;
      VerifiedMeans(journal, seed, w, obs);
      NonRetryableMeans(journal, seed, w, obs);
      ExhaustedMeans(journal, seed, w, obs);
      DriftMeans(journal, seed, w, obs);
    } else {
      OnlyLive(journal, w, obs);
      assert false;
    }
  }

  // ---------------------------------------------------------------- Claims and requests

  /** The claim is of the sealed contract, for this slot, after an attempt that was lost since the seal, and neither early nor late. */
  ghost predicate Fits(claim: Claim, seed: Seed, slot: int) {
    && claim.contract == seed.contract && claim.attempt == slot && claim.cause.attempt + 1 == slot
    && claim.cause.completedAt >= seed.createdAt && claim.createdAt >= claim.cause.completedAt + Wait(slot)
    && !Late(seed, claim.createdAt)
  }

  lemma FitsIs(claim: Claim, seed: Seed, slot: int)
    ensures Fits(claim, seed, slot) <==> ValidClaim(claim, seed, slot)
  {
  }

  /** Every claim in a reachable journal does, and stands under the seal. */
  lemma ClaimsFit(states: seq<State>, events: seq<Event>, slot: int)
    requires Execution(states, events) && slot in {3, 4} && ClaimPath(slot) in states[|events|].journal
    ensures var journal := states[|events|].journal;
      && SeedPath in journal && journal[SeedPath].SeedRecord? && journal[ClaimPath(slot)].ClaimRecord?
      && Fits(journal[ClaimPath(slot)].claim, journal[SeedPath].seed, slot)
  {
    hide Step, IsOwner, Elected, ValidClaim, Fits;
    ExecutionInv(states, events);
    var s := states[|events|];
    assert Lawful(s, s.journal, slot, s.journal[ClaimPath(slot)].claim);
    FitsIs(s.journal[ClaimPath(slot)].claim, SeedOf(s.journal).value, slot);
  }

  /**
   Run `w`, owning the claim of the slot, finds the contract's evidence, the cause and its own
   election again, its claim in the journal, no terminal record, and the reserve left.
   */
  ghost predicate Confirms(s: State, e: Event, w: nat, slot: int) {
    && e.Check? && e.w == w && w in s.workers && s.workers[w].Owning? && s.workers[w].slot == slot
    && var claim := s.workers[w].claim;
    && e.evidence && e.cause == Some(claim.cause)
    && ClaimPath(slot) in s.journal && s.journal[ClaimPath(slot)] == ClaimRecord(claim) && TerminalPath !in s.journal
    && SeedPath in s.workers[w].journal && s.workers[w].journal[SeedPath].SeedRecord?
    && var seed := s.workers[w].journal[SeedPath].seed;
    && Elected(seed, claim.cause, slot, e.inventory) == Ok(w) && !Late(seed, e.now)
  }

  /** Before every request, the run that issues it has done so. */
  lemma RequestsConfirmed(states: seq<State>, events: seq<Event>, n: nat, i: nat) returns (m: nat)
    requires Execution(states, events) && n <= |events| && i < |states[n].posts|
    ensures m < n && Confirms(states[m], events[m], states[n].posts[i].worker, states[n].posts[i].slot)
  {
    hide Step, Inv, Elected, Replied, Requested;
    var post := states[n].posts[i];
    var k, at, j, claim := PostEarned(states, events, n, i);
    m := at;
    assert Agreed(states, events, m, post.worker, post.slot, claim);
  }
}
