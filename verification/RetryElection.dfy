/**
 The checks and the election of scripts/native_verifier_retry.py: which scheduler run owns a
 retry slot, and when a claim for the slot is valid.
 */
module RetryElection {
  import opened Common

  const MAX_ATTEMPT := 4
  const TOTAL_SECONDS := 10800
  const RUNTIME_RESERVE := 3600

  function Cooldown(slot: int): int {
    if slot == 3 then 1200 else 2400
  }

  /** The evidence that native attempt `attempt` died for want of a runner. */
  datatype Cause = Cause(jobId: nat, attempt: int, completedAt: int, annotations: nat)

  datatype Seed = Seed(contract: nat, createdAt: int, frontier: nat, claimRun: nat)

  datatype Claim = Claim(contract: nat, attempt: int, cause: Cause, createdAt: int, claimRun: nat)

  function Deadline(seed: Seed): int {
    seed.createdAt + TOTAL_SECONDS
  }

  function EligibleAt(cause: Cause, slot: int): int {
    cause.completedAt + Cooldown(slot)
  }

  /** `validate_claim(claim, seed, attempt)`. */
  predicate ValidClaim(claim: Claim, seed: Seed, slot: int) {
    && claim.attempt == slot && claim.contract == seed.contract && claim.cause.attempt == slot - 1
    && seed.createdAt <= claim.cause.completedAt
    && EligibleAt(claim.cause, slot) <= claim.createdAt
    && claim.createdAt + RUNTIME_RESERVE <= Deadline(seed)
  }

  // ---------------------------------------------------------------- Election

  /** A scheduler run as the API lists it. */
  datatype Run = Run(id: nat, number: nat, createdAt: int)

  function Numbers(runs: seq<Run>): seq<nat> {
    if runs == [] then [] else [runs[0].number] + Numbers(runs[1..])
  }

  function Insert(x: nat, s: seq<nat>): seq<nat> {
    if s == [] || x <= s[0] then [x] + s else [s[0]] + Insert(x, s[1..])
  }

  function Sorted(s: seq<nat>): seq<nat> {
    if s == [] then [] else Insert(s[0], Sorted(s[1..]))
  }

  /** The sorted numbers are those right after the frontier, each once, without a gap. */
  predicate Contiguous(frontier: nat, runs: seq<Run>) {
    var numbers := Sorted(Numbers(runs));
    numbers != [] && forall i :: 0 <= i < |numbers| ==> numbers[i] == frontier + (i + 1)
  }

  function After(frontier: nat, runs: seq<Run>): seq<Run> {
    if runs == [] then []
    else (if runs[0].number > frontier then [runs[0]] else []) + After(frontier, runs[1..])
  }

  /** The eligible run with the smallest number, if any. */
  function Smallest(runs: seq<Run>, eligibleAt: int): Option<Run> {
    if runs == [] then None
    else
      var rest := Smallest(runs[1..], eligibleAt);
      if runs[0].createdAt < eligibleAt then rest
      else if rest.Some? && rest.value.number < runs[0].number then rest
      else Some(runs[0])
  }

  /** `elected_claimant`: the owner's id, or the source's exception. */
  function Elected(seed: Seed, cause: Cause, slot: int, inventory: seq<Run>): Result<nat> {
    var runs := After(seed.frontier, inventory);
    if !Contiguous(seed.frontier, runs) then Err
    else
      match Smallest(runs, EligibleAt(cause, slot))
      case None => Err
      case Some(run) => Ok(run.id)
  }

  /** The true sequence of scheduler runs: run `frontier + 1 + i` is `history[i]`. */
  ghost predicate History(frontier: nat, history: seq<Run>) {
    forall i :: 0 <= i < |history| ==> history[i].number == frontier + 1 + i
  }

  /** Every run after the frontier that the API lists is a true one. */
  ghost predicate Listed(frontier: nat, history: seq<Run>, inventory: seq<Run>) {
    forall k :: 0 <= k < |inventory| && inventory[k].number > frontier ==> inventory[k] in history
  }

  /** The owner by definition: the first run of the history that was created late enough. */
  ghost predicate IsOwner(history: seq<Run>, eligibleAt: int, id: nat) {
    exists i :: 0 <= i < |history| && OwnerAt(history, eligibleAt, i) && history[i].id == id
  }

  ghost predicate OwnerAt(history: seq<Run>, eligibleAt: int, i: nat) {
    && i < |history| && history[i].createdAt >= eligibleAt
    && (forall j :: 0 <= j < i ==> history[j].createdAt < eligibleAt)
  }

  lemma {:induction false} AfterMeans(frontier: nat, runs: seq<Run>)
    ensures forall r :: r in After(frontier, runs) <==> r in runs && r.number > frontier
  {
    if runs != [] {
      AfterMeans(frontier, runs[1..]);
      assert forall r :: r in runs <==> r == runs[0] || r in runs[1..];
    }
  }

  lemma {:induction false} SmallestMeans(runs: seq<Run>, eligibleAt: int)
    ensures match Smallest(runs, eligibleAt)
            case None => forall r :: r in runs ==> r.createdAt < eligibleAt
            case Some(s) => s in runs && s.createdAt >= eligibleAt
                            && forall r :: r in runs && r.createdAt >= eligibleAt ==> s.number <= r.number
  {
    if runs != [] {
      SmallestMeans(runs[1..], eligibleAt);
      assert forall r :: r in runs <==> r == runs[0] || r in runs[1..];
    }
  }

  /** A successful election names the owner, whatever part of the history was visible. */
  lemma ElectedIsOwner(seed: Seed, cause: Cause, slot: int, history: seq<Run>, inventory: seq<Run>)
    requires History(seed.frontier, history) && Listed(seed.frontier, history, inventory)
    requires Elected(seed, cause, slot, inventory).Ok?
    ensures IsOwner(history, EligibleAt(cause, slot), Elected(seed, cause, slot, inventory).value)
  {
    var runs, e := After(seed.frontier, inventory), EligibleAt(cause, slot);
    AfterMeans(seed.frontier, inventory);
    SmallestMeans(runs, e);
    var s := Smallest(runs, e).value;
    assert s in history;
    var i :| 0 <= i < |history| && history[i] == s;
    CoversBelow(seed.frontier, history, runs, i);
    forall j | 0 <= j < i ensures history[j].createdAt < e {
      assert history[j] in runs;
    }
    assert OwnerAt(history, e, i);
  }

  /** A contiguous part of the history that shows one run shows all earlier ones. */
  lemma CoversBelow(frontier: nat, history: seq<Run>, runs: seq<Run>, i: nat)
    requires History(frontier, history) && Contiguous(frontier, runs)
    requires forall r :: r in runs ==> r in history
    requires i < |history| && history[i] in runs
    ensures forall j :: 0 <= j <= i ==> history[j] in runs
  {
    var numbers := Sorted(Numbers(runs));
    SortedMeans(Numbers(runs));
    NumbersMeans(runs);
    assert history[i].number in numbers;
    forall j | 0 <= j <= i ensures history[j] in runs {
      assert numbers[j] == frontier + (j + 1) && numbers[j] in Numbers(runs);
      var r :| r in runs && r.number == frontier + (j + 1);
      var h :| 0 <= h < |history| && history[h] == r;
    }
  }

  lemma {:induction false} NumbersMeans(runs: seq<Run>)
    ensures forall x :: x in Numbers(runs) <==> exists r :: r in runs && r.number == x
  {
    if runs != [] {
      NumbersMeans(runs[1..]);
      assert forall r :: r in runs <==> r == runs[0] || r in runs[1..];
    }
  }

  lemma {:induction false} InsertMeans(x: nat, s: seq<nat>)
    ensures forall y :: y in Insert(x, s) <==> y == x || y in s
  {
    if s != [] && s[0] < x {
      InsertMeans(x, s[1..]);
      assert forall y :: y in s <==> y == s[0] || y in s[1..];
    }
  }

  lemma {:induction false} SortedMeans(s: seq<nat>)
    ensures forall y :: y in Sorted(s) <==> y in s
  {
    if s != [] {
      SortedMeans(s[1..]);
      InsertMeans(s[0], Sorted(s[1..]));
      assert forall y :: y in s <==> y == s[0] || y in s[1..];
    }
  }

  lemma OwnerUnique(history: seq<Run>, more: seq<Run>, eligibleAt: int, a: nat, b: nat)
    requires IsOwner(history, eligibleAt, a) && IsOwner(history + more, eligibleAt, b)
    ensures a == b
  {
    var i :| 0 <= i < |history| && OwnerAt(history, eligibleAt, i) && history[i].id == a;
    var all := history + more;
    var j :| 0 <= j < |all| && OwnerAt(all, eligibleAt, j) && all[j].id == b;
    assert all[i] == history[i];
    assert forall k :: 0 <= k < |history| ==> all[k] == history[k];
  }

  /**
   Election is stable: two successful elections for one seed, cause and slot name the same
   run, even if the second one sees runs that did not exist during the first.
   */
  lemma ElectionStable(seed: Seed, cause: Cause, slot: int, history: seq<Run>, more: seq<Run>,
                       first: seq<Run>, second: seq<Run>)
    requires History(seed.frontier, history + more)
    requires Listed(seed.frontier, history, first) && Listed(seed.frontier, history + more, second)
    requires Elected(seed, cause, slot, first).Ok? && Elected(seed, cause, slot, second).Ok?
    ensures Elected(seed, cause, slot, first) == Elected(seed, cause, slot, second)
  {
    assert History(seed.frontier, history) by {
      forall i | 0 <= i < |history| ensures history[i].number == seed.frontier + 1 + i {
        assert (history + more)[i] == history[i];
      }
    }
    ElectedIsOwner(seed, cause, slot, history, first);
    ElectedIsOwner(seed, cause, slot, history + more, second);
    OwnerUnique(history, more, EligibleAt(cause, slot),
                Elected(seed, cause, slot, first).value, Elected(seed, cause, slot, second).value);
  }

  /** An election fails exactly when the visible part has a gap or holds no eligible run. */
  lemma ElectionFails(seed: Seed, cause: Cause, slot: int, inventory: seq<Run>)
    ensures Elected(seed, cause, slot, inventory).Err? <==>
      (|| !Contiguous(seed.frontier, After(seed.frontier, inventory))
       || forall r :: r in inventory && r.number > seed.frontier ==> r.createdAt < EligibleAt(cause, slot))
  {
    AfterMeans(seed.frontier, inventory);
    SmallestMeans(After(seed.frontier, inventory), EligibleAt(cause, slot));
  }
}
