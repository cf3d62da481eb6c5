/**
 `Admission` of scripts/bounded_review.py: the serial ledger that reserves time and cost for
 one review at a time.  The ledger's value is specified by `Reserved` and `Finished`; the
 laws are about whole histories of calls.
 */
module Admission {
  import opened Common
  import opened Coverage

  const LAST_SECOND := 0x7FFF_FFFF_FFFF_FFFF

  datatype Ledger = Ledger(
    limits: Limits, count: int, started: int, last: int, next: int, reservedCost: int,
    active: Option<int>, failed: bool)

  datatype Call = Reserve(ordinal: int, now: int) | Finish(now: int, cost: int, passed: bool)

  /** The ledger of a manifest with `units` units. */
  function Opened(limits: Limits, units: int, start: int): Ledger {
    Ledger(limits, units + 1, start, start, 0, 0, None, false)
  }

  function Reserved(l: Ledger, ordinal: int, now: int): Ledger {
    if !(l.last <= now <= LAST_SECOND) || !(0 <= ordinal <= l.count - 1)
       || l.failed || l.active.Some? || ordinal != l.next
       || now + l.limits.perReviewSeconds > l.started + l.limits.maxReviewSeconds
       || l.reservedCost + l.limits.perReviewCost > l.limits.maxCost
    then l.(failed := true)
    else l.(reservedCost := l.reservedCost + l.limits.perReviewCost, active := Some(now), next := l.next + 1, last := now)
  }

  function Finished(l: Ledger, now: int, cost: int, passed: bool): Ledger {
    if !(l.last <= now <= LAST_SECOND) || !(0 <= cost <= l.limits.perReviewCost)
       || l.failed || l.active.None? || !passed
       || now - l.active.value > l.limits.perReviewSeconds || now - l.started > l.limits.maxReviewSeconds
    then l.(failed := true)
    else l.(active := None, last := now)
  }

  function After(l: Ledger, c: Call): Ledger {
    match c
    case Reserve(ordinal, now) => Reserved(l, ordinal, now)
    case Finish(now, cost, passed) => Finished(l, now, cost, passed)
  }

  function Run(l: Ledger, calls: seq<Call>): Ledger
    decreases |calls|
  {
    if calls == [] then l else After(Run(l, calls[..|calls| - 1]), calls[|calls| - 1])
  }

  /** The source's object.  A call that raises leaves `failed` set. */
  class Account {
    const manifest: Manifest
    const limits: Limits
    const count: int
    const started: int
    var last: int
    var next: int
    var reservedCost: int
    var active: Option<int>
    var failed: bool

    constructor (m: Manifest, start: int)
      requires ValidPolicy(m.limits) && 0 <= start <= LAST_SECOND && 2 <= |m.units| + 1 <= m.limits.maxUnits + 1
      ensures manifest == m && Value() == Opened(m.limits, |m.units|, start)
    {
      manifest, limits, count, started := m, m.limits, |m.units| + 1, start;
      last, next, reservedCost, active, failed := start, 0, 0, None, false;
    }

    function Value(): Ledger
      reads this
    {
      Ledger(limits, count, started, last, next, reservedCost, active, failed)
    }

    method Reserve(ordinal: int, now: int) returns (ok: bool)
      modifies this
      ensures Value() == Reserved(old(Value()), ordinal, now)
      ensures ok == !Value().failed
    {
      ok := last <= now <= LAST_SECOND && 0 <= ordinal <= count - 1;
      ok := ok && !failed && active.None? && ordinal == next;
      ok := ok && now + limits.perReviewSeconds <= started + limits.maxReviewSeconds;
      ok := ok && reservedCost + limits.perReviewCost <= limits.maxCost;
      if !ok {
        failed := true;
        return;
      }
      reservedCost := reservedCost + limits.perReviewCost;
      active := Some(now);
      next := next + 1;
      last := now;
    }

    method Finish(now: int, cost: int, passed: bool) returns (ok: bool)
      modifies this
      ensures Value() == Finished(old(Value()), now, cost, passed)
      ensures ok == !Value().failed
    {
      ok := last <= now <= LAST_SECOND && 0 <= cost <= limits.perReviewCost;
      ok := ok && !failed && active.Some? && passed;
      ok := ok && now - active.value <= limits.perReviewSeconds;
      ok := ok && now - started <= limits.maxReviewSeconds;
      if !ok {
        failed := true;
        return;
      }
      active := None;
      last := now;
    }
  }

  // ---------------------------------------------------------------- Accepted histories

  predicate Open(l: Ledger) {
    l.active.None? && !l.failed && l.next == 0 && l.reservedCost == 0 && l.last == l.started
  }

  /** Call `k` of an accepted history. */
  predicate InTurn(l: Ledger, calls: seq<Call>, k: nat)
    requires k < |calls|
  {
    && (if k % 2 == 0 then calls[k].Reserve? && calls[k].ordinal == k / 2 < l.count
        else calls[k].Finish? && calls[k].passed && 0 <= calls[k].cost <= l.limits.perReviewCost
             && calls[k].now - calls[k - 1].now <= l.limits.perReviewSeconds)
    && (if k == 0 then l.started else calls[k - 1].now) <= calls[k].now
    && calls[k].now - l.started <= l.limits.maxReviewSeconds
  }

  predicate Accepted(l: Ledger, calls: seq<Call>) {
    !Run(l, calls).failed
  }

  /** Nothing is accepted after a failure. */
  lemma {:induction false} FailedForGood(l: Ledger, calls: seq<Call>, k: nat)
    requires k <= |calls| && !Accepted(l, calls[..k])
    ensures !Accepted(l, calls)
    decreases |calls|
  {
    if k < |calls| {
      assert calls[..|calls| - 1][..k] == calls[..k];
      FailedForGood(l, calls[..|calls| - 1], k);
    } else {
      assert calls[..k] == calls;
    }
  }

  /** The costs that finished reviews reported. */
  function Spent(calls: seq<Call>): int
    decreases |calls|
  {
    if calls == [] then 0
    else Spent(calls[..|calls| - 1]) + (if calls[|calls| - 1].Finish? then calls[|calls| - 1].cost else 0)
  }

  /**
   An accepted history is reserve 0, finish 0, reserve 1, finish 1 and so on, in time order
   and within the total time.  The reserved cost is that of the reviews begun, stays within
   the budget and is never exceeded by what the finished ones reported.
   */
  lemma {:induction false} HistoryIsSerial(l: Ledger, calls: seq<Call>)
    requires Open(l) && Accepted(l, calls) && l.limits.perReviewSeconds >= 0 && 0 <= l.limits.perReviewCost
    requires l.limits.maxCost >= 0
    ensures var e := Run(l, calls);
            && (forall k :: 0 <= k < |calls| ==> InTurn(l, calls, k))
            && e.next == (|calls| + 1) / 2 <= (if l.count > 0 then l.count else 0)
            && e.reservedCost == e.next * l.limits.perReviewCost <= l.limits.maxCost
            && e.active == (if |calls| % 2 == 1 then Some(calls[|calls| - 1].now) else None)
            && e.last == (if calls == [] then l.started else calls[|calls| - 1].now)
            && e.limits == l.limits && e.count == l.count && e.started == l.started
            && Spent(calls) <= |calls| / 2 * l.limits.perReviewCost <= e.reservedCost
    decreases |calls|
  {
    if calls != [] {
      var n := |calls| - 1;
      var before := calls[..n];
      if !Accepted(l, before) {
        FailedForGood(l, calls, n);
      }
      HistoryIsSerial(l, before);
      forall k | 0 <= k < n ensures InTurn(l, calls, k) {
        assert InTurn(l, before, k);
        assert calls[k] == before[k] && (k > 0 ==> calls[k - 1] == before[k - 1]);
      }
      SerialStep(l, calls);
    }
  }

  lemma SerialStep(l: Ledger, calls: seq<Call>)
    requires calls != [] && Accepted(l, calls) && 0 <= l.limits.perReviewCost && l.limits.perReviewSeconds >= 0
    requires var n := |calls| - 1; var e := Run(l, calls[..n]);
             && e.next == (n + 1) / 2 && e.reservedCost == e.next * l.limits.perReviewCost
             && e.active == (if n % 2 == 1 then Some(calls[n - 1].now) else None)
             && e.last == (if n == 0 then l.started else calls[n - 1].now)
             && e.limits == l.limits && e.count == l.count && e.started == l.started
             && Spent(calls[..n]) <= n / 2 * l.limits.perReviewCost <= e.reservedCost <= l.limits.maxCost
    ensures var e := Run(l, calls);
            && InTurn(l, calls, |calls| - 1)
            && e.next == (|calls| + 1) / 2
            && (|calls| % 2 == 1 ==> e.next <= l.count)
            && e.reservedCost == e.next * l.limits.perReviewCost <= l.limits.maxCost
            && Spent(calls) <= |calls| / 2 * l.limits.perReviewCost <= e.reservedCost
  {
    var n := |calls| - 1;
    var e := Run(l, calls[..n]);
    var p := l.limits.perReviewCost;
    assert (e.next + 1) * p == e.next * p + p;
    if n % 2 == 1 {
      assert (n + 1) / 2 == n / 2 + 1 == e.next;
      assert (n / 2 + 1) * p == n / 2 * p + p;
    } else {
      assert (n + 1) / 2 == n / 2 == e.next;
    }
  }

  // ---------------------------------------------------------------- Static admission suffices

  /** Call `k` of a run that reserves at once and finishes, with a pass, within the time and cost of one review. */
  predicate PromptAt(l: Ledger, calls: seq<Call>, k: nat)
    requires k < |calls|
  {
    var previous := if k == 0 then l.started else calls[k - 1].now;
    && calls[k].now <= LAST_SECOND
    && (if k % 2 == 0 then calls[k].Reserve? && calls[k].ordinal == k / 2 && calls[k].now == previous
        else calls[k].Finish? && calls[k].passed && 0 <= calls[k].cost <= l.limits.perReviewCost
             && previous <= calls[k].now <= previous + l.limits.perReviewSeconds)
  }

  /**
   The admission test of `plan` on the whole number of reviews is enough: a prompt run of
   no more reviews is never refused.
   */
  lemma {:induction false} StaticSuffices(l: Ledger, calls: seq<Call>)
    requires Open(l) && l.limits.perReviewSeconds >= 0 && l.limits.perReviewCost >= 0
    requires l.count * l.limits.perReviewSeconds <= l.limits.maxReviewSeconds
    requires l.count * l.limits.perReviewCost <= l.limits.maxCost
    requires |calls| <= 2 * l.count && forall k :: 0 <= k < |calls| ==> PromptAt(l, calls, k)
    ensures var e := Run(l, calls);
            && Accepted(l, calls) && e.next == (|calls| + 1) / 2
            && e.reservedCost == e.next * l.limits.perReviewCost
            && e.active == (if |calls| % 2 == 1 then Some(calls[|calls| - 1].now) else None)
            && e.last == (if calls == [] then l.started else calls[|calls| - 1].now)
            && e.limits == l.limits && e.count == l.count && e.started == l.started
            && e.last - l.started <= |calls| / 2 * l.limits.perReviewSeconds
    decreases |calls|
  {
    if calls != [] {
      var n := |calls| - 1;
      var before := calls[..n];
      forall k | 0 <= k < n ensures PromptAt(l, before, k) {
        assert PromptAt(l, calls, k);
        assert calls[k] == before[k] && (k > 0 ==> calls[k - 1] == before[k - 1]);
      }
      StaticSuffices(l, before);
      assert PromptAt(l, calls, n);
      var e, p, q := Run(l, before), l.limits.perReviewCost, l.limits.perReviewSeconds;
      if n % 2 == 0 {
        assert (n + 1) / 2 == n / 2 == e.next && e.next + 1 <= l.count;
        NextFits(e.next, l.count, p, l.limits.maxCost);
        NextFits(e.next, l.count, q, l.limits.maxReviewSeconds);
      } else {
        assert (n + 1) / 2 == n / 2 + 1 <= l.count;
        NextFits(n / 2, l.count, q, l.limits.maxReviewSeconds);
      }
    }
  }

  /** If all `count` shares fit, one more after `k` of them does. */
  lemma NextFits(k: int, count: int, share: int, total: int)
    requires k + 1 <= count && 0 <= share && count * share <= total
    ensures (k + 1) * share == k * share + share <= total
  {
    Monotone(k + 1, count, share);
  }

  lemma Monotone(a: int, b: int, c: int)
    requires a <= b && 0 <= c
    ensures a * c <= b * c
  {
    assert (b - a) * c >= 0;
  }
}
