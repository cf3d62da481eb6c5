/**
 `ResponseBudget` of scripts/bounded_review_provider.py, the spending ledger of one review,
 and `exchange` of scripts/bounded_review_transport.py, which drives it.  The ledger's
 value is specified by functions; the laws are about every history of calls.
 */
module ResponseBudget {
  import opened Common

  const LAST_MS := 0x7FFF_FFFF_FFFF_FFFF
  const MILLION := 1000000

  datatype Profile = Profile(
    model: string, contextTokens: int, maxInputTokens: int, maxOutputTokens: int, inputPrice: int, outputPrice: int)

  /** The numbers of `validate_profile`. */
  predicate ValidProfile(p: Profile) {
    && 0 < |p.model| <= 128
    && 1 <= p.contextTokens <= 10000000 && 1 <= p.maxInputTokens <= p.contextTokens
    && 1 <= p.maxOutputTokens <= p.contextTokens
    && 1 <= p.inputPrice <= 1000000000 && 1 <= p.outputPrice <= 1000000000
  }

  /** A request: its content apart from the output cap; `allowed` if it passes the size and feature checks. */
  datatype Request = Request(content: string, outputCap: Option<int>, allowed: bool)

  /** The normalized request, which also stands for its digest. */
  datatype Bounded = Bounded(content: string, outputCap: int)

  datatype Usage = Usage(input: int, output: int, total: int)

  /** `done`: completed, without error or incomplete details, at the default tier. */
  datatype Response = Response(id: Option<string>, done: bool, model: string, usage: Option<Usage>)

  /** `cost(profile, input_tokens, output_tokens)` in millionths, before and after rounding up. */
  function Exact(p: Profile, input: int, output: int): int {
    input * p.inputPrice + output * p.outputPrice
  }

  function Cost(p: Profile, input: int, output: int): int {
    (Exact(p, input, output) + 999999) / MILLION
  }

  /** One rounding up, of less than one. */
  lemma CostRounds(p: Profile, input: int, output: int)
    ensures 0 <= MILLION * Cost(p, input, output) - Exact(p, input, output) < MILLION
  {
  }

  /**
   The cost is the least number of millionths of a dollar that pays every input token at the input
   price and every output token at the output price, both given for a million tokens.
   */
  lemma CostIsLeast(p: Profile, input: int, output: int, c: int)
    ensures c >= Cost(p, input, output) <==> c * 1000000 >= input * p.inputPrice + output * p.outputPrice
  {
  }

  lemma CostMonotone(p: Profile, input: int, output: int, input': int, output': int)
    requires ValidProfile(p) && input <= input' && output <= output'
    ensures Cost(p, input, output) <= Cost(p, input', output')
  {
    Times(input, input', p.inputPrice);
    Times(output, output', p.outputPrice);
    RoundedUp(Exact(p, input, output), Exact(p, input', output'));
  }

  lemma Times(a: int, b: int, c: int)
    requires a <= b && 0 <= c
    ensures a * c <= b * c
  {
    assert (b - a) * c >= 0;
  }

  lemma RoundedUp(a: int, b: int)
    requires a <= b
    ensures (a + 999999) / MILLION <= (b + 999999) / MILLION
  {
  }

  // ---------------------------------------------------------------- The ledger's value

  datatype Reservation = Reservation(digest: Bounded, reserved: int, outputCap: int)

  datatype Ledger = Ledger(
    profile: Profile, limit: int, deadline: int, lastMs: int, maxRequests: int,
    requests: set<Bounded>, responses: set<string>, charged: int,
    active: Option<Reservation>, failed: bool, admitted: Option<Bounded>)

  function Opened(p: Profile, limit: int, start: int, timeout: int, maxRequests: int): Ledger {
    Ledger(p, limit, start + timeout, start, maxRequests, {}, {}, 0, None, false, None)
  }

  predicate InTime(l: Ledger, now: int) {
    l.lastMs <= now <= LAST_MS && now < l.deadline
  }

  function Failed(l: Ledger): Ledger {
    l.(failed := true)
  }

  /** `_clock` raises, and moves `last_ms` only if the time itself is good. */
  function Clocked(l: Ledger, now: int): Ledger {
    if InTime(l, now) then l.(lastMs := now) else Failed(l)
  }

  function Normalized(p: Profile, r: Request): Bounded {
    Bounded(r.content, if r.outputCap.Some? then r.outputCap.value else p.maxOutputTokens)
  }

  /** A request that may be forwarded now. */
  predicate Reservable(l: Ledger, r: Request) {
    && r.allowed && 1 <= Normalized(l.profile, r).outputCap <= l.profile.maxOutputTokens
    && Normalized(l.profile, r) !in l.requests && |l.requests| < l.maxRequests
    && l.charged + Cost(l.profile, l.profile.contextTokens, Normalized(l.profile, r).outputCap) <= l.limit
  }

  function Reserved(l: Ledger, r: Request, now: int): Ledger {
    if l.failed || l.active.Some? then Failed(l)
    else
      var c := Clocked(l, now);
      if c.failed || !Reservable(c, r) then Failed(c)
      else
        var b := Normalized(l.profile, r);
        var reserved := Cost(l.profile, l.profile.contextTokens, b.outputCap);
        c.(charged := c.charged + reserved, requests := c.requests + {b}, active := Some(Reservation(b, reserved, b.outputCap)))
  }

  /** A provider's count of input tokens, `None` if it has not the right shape. */
  function Admitted(l: Ledger, digest: Bounded, request: Bounded, count: Option<int>, now: int): Ledger {
    if l.failed || l.active.None? || l.admitted.Some? then Failed(l)
    else
      var c := Clocked(l, now);
      if c.failed || digest != c.active.value.digest || request != digest || count.None?
         || !(0 <= count.value <= c.profile.maxInputTokens)
         || count.value + c.active.value.outputCap > c.profile.contextTokens
      then Failed(c)
      else c.(admitted := Some(digest))
  }

  predicate GoodUsage(p: Profile, u: Usage, outputCap: int) {
    && 0 <= u.input <= p.maxInputTokens && u.input + outputCap <= p.contextTokens && 0 <= u.output <= outputCap
    && 0 <= u.total <= p.contextTokens + outputCap && u.total == u.input + u.output
  }

  /**
   The reported tokens fit exactly if the input left room for the whole output cap in the context,
   the output kept to the cap, and the total is their sum; its own bound never decides.
   */
  lemma UsageFits(p: Profile, u: Usage, outputCap: int)
    requires 0 <= outputCap
    ensures GoodUsage(p, u, outputCap) <==>
      && u.total == u.input + u.output && u.input >= 0 && u.output >= 0
      && u.output <= outputCap && u.input <= p.maxInputTokens && u.input <= p.contextTokens - outputCap
  {
  }

  predicate GoodResponse(l: Ledger, r: Response, outputCap: int) {
    && r.done && r.model == l.profile.model
    && r.id.Some? && 0 < |r.id.value| <= 256 && r.id.value !in l.responses
    && r.usage.Some? && GoodUsage(l.profile, r.usage.value, outputCap)
  }

  function Completed(l: Ledger, digest: Bounded, r: Response, now: int): Ledger {
    if l.failed || l.active.None? then Failed(l)
    else
      var c := Clocked(l, now);
      var a := l.active.value;
      if c.failed || c.admitted != Some(a.digest) || digest != a.digest || !GoodResponse(c, r, a.outputCap) then Failed(c)
      else
        var actual := Cost(c.profile, r.usage.value.input, r.usage.value.output);
        if actual > a.reserved then Failed(c)
        else
          c.(charged := c.charged - (a.reserved - actual), responses := c.responses + {r.id.value},
             active := None, admitted := None)
  }

  datatype Call =
    | Reserve(request: Request, now: int)
    | Admit(digest: Bounded, counted: Bounded, count: Option<int>, now: int)
    | Complete(digest: Bounded, response: Response, now: int)
    | Abandon

  function After(l: Ledger, c: Call): Ledger {
    match c
    case Reserve(request, now) => Reserved(l, request, now)
    case Admit(digest, counted, count, now) => Admitted(l, digest, counted, count, now)
    case Complete(digest, response, now) => Completed(l, digest, response, now)
    case Abandon => Failed(l)
  }

  function Run(l: Ledger, calls: seq<Call>): Ledger
    decreases |calls|
  {
    if calls == [] then l else After(Run(l, calls[..|calls| - 1]), calls[|calls| - 1])
  }

  // ---------------------------------------------------------------- The object

  /** The source's object.  A method that raises leaves `failed` set. */
  class Budget {
    const profile: Profile
    const limit: int
    const deadline: int
    const maxRequests: int
    var lastMs: int
    var requests: set<Bounded>
    var responses: set<string>
    var charged: int
    var active: Option<Reservation>
    var failed: bool
    var admitted: Option<Bounded>

    constructor (p: Profile, maxCost: int, start: int, timeout: int, max: int)
      requires ValidProfile(p) && 1 <= maxCost <= 1000000 && 0 <= start <= LAST_MS && 1 <= timeout <= 100000
      requires 1 <= max <= 16
      ensures Value() == Opened(p, maxCost, start, timeout, max)
    {
      profile, limit, deadline, maxRequests := p, maxCost, start + timeout, max;
      lastMs, requests, responses, charged := start, {}, {}, 0;
      active, failed, admitted := None, false, None;
    }

    function Value(): Ledger
      reads this
    {
      Ledger(profile, limit, deadline, lastMs, maxRequests, requests, responses, charged, active, failed, admitted)
    }

    /** `reserve(request, now_ms=now)` */
    method Reserve(request: Request, now: int) returns (r: Result<Bounded>)
      modifies this
      ensures Value() == Reserved(old(Value()), request, now)
      ensures r == if Value().failed then Err else Ok(Normalized(profile, request))
    {
      if failed || active.Some? {
        failed := true;
        return Err;
      }
      if !(lastMs <= now <= LAST_MS) || !(now < deadline) {
        failed := true;
        return Err;
      }
      lastMs := now;
      var cap := if request.outputCap.Some? then request.outputCap.value else profile.maxOutputTokens;
      if !request.allowed || !(1 <= cap <= profile.maxOutputTokens) {
        failed := true;
        return Err;
      }
      var bounded := Bounded(request.content, cap);
      if bounded in requests || |requests| >= maxRequests {
        failed := true;
        return Err;
      }
      var reserved := Cost(profile, profile.contextTokens, cap);
      if charged + reserved > limit {
        failed := true;
        return Err;
      }
      charged := charged + reserved;
      requests := requests + {bounded};
      active := Some(Reservation(bounded, reserved, cap));
      r := Ok(bounded);
    }

    /** `admit_tokens(digest, request, count, now_ms=now)` */
    method AdmitTokens(digest: Bounded, request: Bounded, count: Option<int>, now: int) returns (ok: bool)
      modifies this
      ensures Value() == Admitted(old(Value()), digest, request, count, now)
      ensures ok == !Value().failed
    {
      ok := false;
      if failed || active.None? || admitted.Some? || !(lastMs <= now <= LAST_MS) || !(now < deadline) {
        failed := true;
        return;
      }
      lastMs := now;
      if digest != active.value.digest || request != digest || count.None?
         || !(0 <= count.value <= profile.maxInputTokens)
         || count.value + active.value.outputCap > profile.contextTokens
      {
        failed := true;
        return;
      }
      admitted := Some(digest);
      ok := true;
    }

    /** `complete(digest, response, now_ms=now)`; the result is the actual cost. */
    method Complete(digest: Bounded, response: Response, now: int) returns (r: Result<int>)
      modifies this
      ensures Value() == Completed(old(Value()), digest, response, now)
      ensures r.Ok? == !Value().failed
      ensures r.Ok? ==> response.usage.Some? && r.value == Cost(profile, response.usage.value.input, response.usage.value.output)
    {
      if failed || active.None? || !(lastMs <= now <= LAST_MS) || !(now < deadline) {
        failed := true;
        return Err;
      }
      lastMs := now;
      var a := active.value;
      if admitted != Some(a.digest) || digest != a.digest || !response.done || response.model != profile.model {
        failed := true;
        return Err;
      }
      if response.id.None? || !(0 < |response.id.value| <= 256) || response.id.value in responses {
        failed := true;
        return Err;
      }
      if response.usage.None? || !GoodUsage(profile, response.usage.value, a.outputCap) {
        failed := true;
        return Err;
      }
      var actual := Cost(profile, response.usage.value.input, response.usage.value.output);
      if actual > a.reserved {
        failed := true;
        return Err;
      }
      charged := charged - (a.reserved - actual);
      responses := responses + {response.id.value};
      active := None;
      admitted := None;
      r := Ok(actual);
    }

    /** `abandon()` */
    method Abandon()
      modifies this
      ensures Value() == Failed(old(Value()))
    {
      failed := true;
    }
  }

  // ---------------------------------------------------------------- Laws of every history

  /** What a history did: costs settled, exactly and rounded; how many settlements; what was forwarded. */
  datatype History = History(settled: int, exact: int, settlements: nat, forwarded: seq<Bounded>)

  function Step(l: Ledger, h: History, c: Call): History {
    if After(l, c).failed then h
    else
      match c
      case Reserve(request, _) => h.(forwarded := h.forwarded + [Normalized(l.profile, request)])
      case Complete(_, response, _) =>
        if response.usage.None? then h
        else
          h.(settled := h.settled + Cost(l.profile, response.usage.value.input, response.usage.value.output),
             exact := h.exact + Exact(l.profile, response.usage.value.input, response.usage.value.output),
             settlements := h.settlements + 1)
      case _ => h
  }

  function Trace(l: Ledger, calls: seq<Call>): History
    decreases |calls|
  {
    if calls == [] then History(0, 0, 0, [])
    else Step(Run(l, calls[..|calls| - 1]), Trace(l, calls[..|calls| - 1]), calls[|calls| - 1])
  }

  /** The reservation is for the whole context and the output cap. */
  predicate GoodReservation(p: Profile, a: Reservation) {
    && a.reserved == Cost(p, p.contextTokens, a.outputCap) && 1 <= a.outputCap <= p.maxOutputTokens
    && a.digest.outputCap == a.outputCap
  }

  ghost predicate Distinct(s: seq<Bounded>) {
    forall j, k :: 0 <= j < k < |s| ==> s[j] != s[k]
  }

  ghost predicate Conserved(l: Ledger, h: History) {
    && l.charged == h.settled + (if l.active.Some? then l.active.value.reserved else 0)
    && 0 <= h.settled <= l.charged <= l.limit
    && (l.active.Some? ==> GoodReservation(l.profile, l.active.value))
    && (l.admitted.Some? ==> l.active.Some? && l.admitted.value == l.active.value.digest)
    && Distinct(h.forwarded) && (forall b :: b in l.requests <==> b in h.forwarded)
    && |h.forwarded| == |l.requests| <= l.maxRequests
    && |l.responses| == h.settlements
    && 0 <= MILLION * h.settled - h.exact && (h.settlements > 0 ==> MILLION * h.settled - h.exact < MILLION * h.settlements)
    && (h.settlements == 0 ==> h.settled == h.exact == 0)
  }

  lemma StartConserved(p: Profile, limit: int, start: int, timeout: int, maxRequests: int)
    requires 0 <= limit && 0 <= maxRequests
    ensures Conserved(Opened(p, limit, start, timeout, maxRequests), History(0, 0, 0, []))
  {
  }

  lemma CostPositive(p: Profile, input: int, output: int)
    requires ValidProfile(p) && 0 <= input && 0 <= output
    ensures 0 <= Cost(p, input, output)
  {
    CostMonotone(p, 0, 0, input, output);
    assert Exact(p, 0, 0) == 0;
  }

  lemma ReserveConserves(l: Ledger, h: History, r: Request, now: int)
    requires ValidProfile(l.profile) && Conserved(l, h)
    ensures Conserved(Reserved(l, r, now), Step(l, h, Reserve(r, now)))
  {
    hide Cost;
    var next := Reserved(l, r, now);
    if !next.failed {
      CostPositive(l.profile, l.profile.contextTokens, Normalized(l.profile, r).outputCap);
    }
  }

  lemma AdmitConserves(l: Ledger, h: History, digest: Bounded, request: Bounded, count: Option<int>, now: int)
    requires Conserved(l, h)
    ensures Conserved(Admitted(l, digest, request, count, now), Step(l, h, Admit(digest, request, count, now)))
  {
    hide GoodReservation, Distinct;
  }

  lemma CompleteConserves(l: Ledger, h: History, digest: Bounded, r: Response, now: int)
    requires ValidProfile(l.profile) && Conserved(l, h)
    ensures Conserved(Completed(l, digest, r, now), Step(l, h, Complete(digest, r, now)))
  {
    hide Cost, Exact, GoodReservation, Distinct, InTime;
    var next := Completed(l, digest, r, now);
    if !next.failed {
      var u := r.usage.value;
      CostPositive(l.profile, u.input, u.output);
      CostRounds(l.profile, u.input, u.output);
    }
  }

  /**
   In every reachable state the charge is the settled costs and the reservation still held,
   and within the limit; the forwarded requests are distinct and at most `maxRequests`; the
   settled charge exceeds the exact cost by less than one microusd per settlement.
   */
  lemma {:induction false} AlwaysConserved(p: Profile, limit: int, start: int, timeout: int, max: int, calls: seq<Call>)
    requires ValidProfile(p) && 0 <= limit && 0 <= max
    ensures var l0 := Opened(p, limit, start, timeout, max);
            && Conserved(Run(l0, calls), Trace(l0, calls))
            && Run(l0, calls).profile == p && Run(l0, calls).limit == limit && Run(l0, calls).maxRequests == max
    decreases |calls|
  {
    hide Conserved, ValidProfile;
    var l0 := Opened(p, limit, start, timeout, max);
    if calls == [] {
      StartConserved(p, limit, start, timeout, max);
    } else {
      AlwaysConserved(p, limit, start, timeout, max, calls[..|calls| - 1]);
      var l, h := Run(l0, calls[..|calls| - 1]), Trace(l0, calls[..|calls| - 1]);
      match calls[|calls| - 1]
      case Reserve(r, now) => ReserveConserves(l, h, r, now);
      case Admit(digest, request, count, now) => AdmitConserves(l, h, digest, request, count, now);
      case Complete(digest, r, now) => CompleteConserves(l, h, digest, r, now);
      case Abandon => AbandonConserves(l, h);
    }
  }

  lemma AbandonConserves(l: Ledger, h: History)
    requires Conserved(l, h)
    ensures Conserved(Failed(l), Step(l, h, Abandon))
  {
  }

  /** A failure is for good and freezes the ledger: no call changes anything any more. */
  lemma {:induction false} FailureFreezes(l: Ledger, calls: seq<Call>)
    requires l.failed
    ensures Run(l, calls) == l
    decreases |calls|
  {
    if calls != [] {
      FailureFreezes(l, calls[..|calls| - 1]);
    }
  }

  /** The check against an overrun cannot fail: whatever passes the checks on usage costs no more than was reserved. */
  lemma OverrunUnreachable(l: Ledger, h: History, r: Response)
    requires ValidProfile(l.profile) && Conserved(l, h) && l.active.Some?
    requires GoodResponse(l, r, l.active.value.outputCap)
    ensures Cost(l.profile, r.usage.value.input, r.usage.value.output) <= l.active.value.reserved
  {
    hide Cost;
    var u, a := r.usage.value, l.active.value;
    CostMonotone(l.profile, u.input, u.output, l.profile.contextTokens, a.outputCap);
  }

  /** So a complete call fails exactly when one of the other checks does. */
  lemma CompleteFailsExactly(l: Ledger, h: History, digest: Bounded, r: Response, now: int)
    requires ValidProfile(l.profile) && Conserved(l, h) && !l.failed && l.active.Some?
    ensures !Completed(l, digest, r, now).failed <==>
      InTime(l, now) && l.admitted == Some(digest) && GoodResponse(l, r, l.active.value.outputCap)
  {
    hide Cost, GoodUsage;
    if GoodResponse(l, r, l.active.value.outputCap) {
      OverrunUnreachable(l, h, r);
    }
  }

  // ---------------------------------------------------------------- exchange

  /** What the two workers brought: the parsed token count, and the payload with the parsed response. */
  datatype Upstream = Upstream(count: Result<Option<int>>, payload: Result<(string, Result<Response>)>)

  /**
   `exchange(ledger, request, credential)`.  `sent` tells whether the model request left.  The
   payload is returned only after its cost is settled; any failure leaves the ledger failed,
   and the model is never asked unless the count was admitted.
   */
  method Exchange(ledger: Budget, request: Request, upstream: Upstream, now1: int, now2: int, now3: int)
    returns (r: Result<string>, sent: bool)
    modifies ledger
    ensures r.Err? ==> ledger.failed
    ensures r.Ok? <==> !ledger.failed
    ensures sent ==> !Reserved(old(ledger.Value()), request, now1).failed && upstream.count.Ok?
    ensures sent ==> !Admitted(Reserved(old(ledger.Value()), request, now1), Normalized(ledger.profile, request),
                               Normalized(ledger.profile, request), upstream.count.value, now2).failed
    ensures sent ==> upstream.count.value.Some? && 0 <= upstream.count.value.value <= ledger.profile.maxInputTokens
    ensures sent ==> upstream.count.value.value + Normalized(ledger.profile, request).outputCap <= ledger.profile.contextTokens
    ensures r.Ok? ==> sent && upstream.payload.Ok? && r.value == upstream.payload.value.0 && upstream.payload.value.1.Ok?
    ensures r.Ok? ==> ledger.Value() == Run(old(ledger.Value()), Calls(request, Normalized(ledger.profile, request),
        upstream.count.value, upstream.payload.value.1.value, now1, now2, now3))
    ensures r.Ok? ==> ledger.active.None? && ledger.admitted.None?
    ensures r.Ok? ==> ledger.requests == old(ledger.requests) + {Normalized(ledger.profile, request)}
    ensures r.Err? && sent ==> ledger.active.Some? && ledger.charged == old(ledger.charged) + ledger.active.value.reserved
  {
    hide Cost, GoodResponse, Reservable, Run;
    sent := false;
    ghost var l0 := ledger.Value();
    var reserved := ledger.Reserve(request, now1);
    if reserved.Err? || upstream.count.Err? {
      ledger.Abandon();
      return Err, sent;
    }
    var admitted := ledger.AdmitTokens(reserved.value, reserved.value, upstream.count.value, now2);
    if !admitted {
      ledger.Abandon();
      return Err, sent;
    }
    sent := true;
    if upstream.payload.Err? || upstream.payload.value.1.Err? {
      ledger.Abandon();
      return Err, sent;
    }
    var settled := ledger.Complete(reserved.value, upstream.payload.value.1.value, now3);
    if settled.Err? {
      ledger.Abandon();
      return Err, sent;
    }
    RunThree(l0, Reserve(request, now1), Admit(reserved.value, reserved.value, upstream.count.value, now2),
             Complete(reserved.value, upstream.payload.value.1.value, now3));
    r := Ok(upstream.payload.value.0);
  }

  ghost function Calls(request: Request, b: Bounded, count: Option<int>, response: Response,
                       now1: int, now2: int, now3: int): seq<Call> {
    [Reserve(request, now1), Admit(b, b, count, now2), Complete(b, response, now3)]
  }

  lemma RunThree(l: Ledger, a: Call, b: Call, c: Call)
    ensures Run(l, [a, b, c]) == After(After(After(l, a), b), c)
  {
    hide After;
    assert [a, b, c][..2] == [a, b] && [a, b][..1] == [a] && [a][..0] == [];
    assert Run(l, []) == l;
    assert Run(l, [a]) == After(l, a);
    assert Run(l, [a, b]) == After(After(l, a), b);
  }
}
