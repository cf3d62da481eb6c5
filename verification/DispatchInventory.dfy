/**
 `dispatch_inventory` of scripts/review-event-reconcile.py: every locator run of seven days,
 read through a search that clips its counts and pages at 1000 results.  Times are UTC
 seconds.
 */
module DispatchInventory {
  import opened Common

  const REQUESTS := 256
  const TTL := 7 * 24 * 3600
  const CEILING := 1000
  const PAGE := 100

  datatype Workflow = Refresh | Helper | Continuation | Other

  /** `created` is `None` for a malformed timestamp. */
  datatype Run = Run(id: int, created: Option<int>, workflow: Workflow, dispatched: bool)

  datatype Query = Query(workflow: Workflow, lower: int, upper: int, page: nat)

  datatype Response = Response(total: int, batch: seq<Run>)

  predicate Bound(r: Run, w: Workflow, lower: int, upper: int) {
    r.created.Some? && lower <= r.created.value <= upper && r.workflow == w && r.dispatched
  }

  /** Bound to one of the three locator workflows. */
  predicate Located(r: Run, lower: int, upper: int) {
    r.workflow != Other && Bound(r, r.workflow, lower, upper)
  }

  /** `min(100, max(0, total - (page - 1) * 100))` */
  function PageLength(total: int, page: nat): int {
    var left := total - (page - 1) * PAGE;
    if left < 0 then 0 else if left < PAGE then left else PAGE
  }

  // ---------------------------------------------------------------- A stable store

  /** The runs that exist; the order in which a search lists its results; the total that it reports. */
  datatype Server = Server(store: set<Run>, order: (Workflow, int, int) -> seq<Run>, total: (Workflow, int, int) -> int)

  ghost function Matching(s: Server, w: Workflow, lower: int, upper: int): set<Run> {
    set r | r in s.store && Bound(r, w, lower, upper)
  }

  /** A search lists each match once; its total is exact below the ceiling, and a lower bound from there on. */
  ghost predicate Searches(s: Server, w: Workflow, lower: int, upper: int) {
    && multiset(s.order(w, lower, upper)) == multiset(Matching(s, w, lower, upper))
    && (if |s.order(w, lower, upper)| < CEILING then s.total(w, lower, upper) == |s.order(w, lower, upper)|
        else CEILING <= s.total(w, lower, upper) <= |s.order(w, lower, upper)|)
  }

  ghost predicate Stable(s: Server) {
    && (forall w, lower, upper :: Searches(s, w, lower, upper))
    && (forall r :: r in s.store ==> r.id > 0)
    && (forall r, r' :: r in s.store && r' in s.store && r.id == r'.id ==> r == r')
  }

  function PageOf(order: seq<Run>, page: nat): seq<Run> {
    var from := (page - 1) * PAGE;
    if page == 0 || from > |order| then []
    else if from + PAGE <= |order| then order[from..from + PAGE] else order[from..]
  }

  function Answer(s: Server, q: Query): Response {
    Response(s.total(q.workflow, q.lower, q.upper), PageOf(s.order(q.workflow, q.lower, q.upper), q.page))
  }

  type Api = (nat, Query) -> Option<Response>

  /** Whenever it is asked, the API answers from this store. */
  ghost predicate Serves(api: Api, s: Server) {
    Stable(s) && forall n, q :: api(n, q) == Some(Answer(s, q))
  }

  function Count(s: Server, w: Workflow, lower: int, upper: int): nat {
    |s.order(w, lower, upper)|
  }

  /** How many requests a window takes; none are enough when one second holds a thousand runs. */
  function Cost(s: Server, w: Workflow, lower: int, upper: int): Option<nat>
    decreases upper - lower
  {
    if Count(s, w, lower, upper) < CEILING then
      Some(if Count(s, w, lower, upper) <= PAGE then 1 else (Count(s, w, lower, upper) + 99) / 100)
    else if lower >= upper then None
    else
      var middle := lower + (upper - lower) / 2;
      Plus(Some(1), Plus(Cost(s, w, lower, middle), Cost(s, w, middle + 1, upper)))
  }

  function Plus(a: Option<nat>, b: Option<nat>): Option<nat> {
    if a.Some? && b.Some? then Some(a.value + b.value) else None
  }

  predicate Within(cost: Option<nat>, budget: int) {
    cost.Some? && cost.value <= budget
  }

  // ---------------------------------------------------------------- What a result promises

  /** The runs that the search should have found, each once. */
  ghost predicate Exact(items: seq<Run>, s: Server, w: Workflow, lower: int, upper: int) {
    multiset(items) == multiset(Matching(s, w, lower, upper))
  }

  function Ids(items: seq<Run>): set<int> {
    set k | 0 <= k < |items| :: items[k].id
  }

  predicate DistinctIds(items: seq<Run>) {
    forall j, k :: 0 <= j < k < |items| ==> items[j].id != items[k].id
  }

  /** Whatever the API answers: positive, distinct, new ids, and every run bound to the window. */
  predicate Proper(items: seq<Run>, seen: set<int>, w: Workflow, lower: int, upper: int) {
    && (forall k :: 0 <= k < |items| ==> items[k].id > 0 && items[k].id !in seen && Bound(items[k], w, lower, upper))
    && DistinctIds(items)
  }

  ghost predicate Fresh(s: Server, seen: set<int>, w: Workflow, lower: int, upper: int) {
    forall r :: r in Matching(s, w, lower, upper) ==> r.id !in seen
  }

  lemma SplitMatching(s: Server, w: Workflow, lower: int, middle: int, upper: int)
    requires lower <= middle < upper
    ensures Matching(s, w, lower, upper) == Matching(s, w, lower, middle) + Matching(s, w, middle + 1, upper)
    ensures Matching(s, w, lower, middle) !! Matching(s, w, middle + 1, upper)
  {
  }

  lemma ExactJoin(a: seq<Run>, b: seq<Run>, s: Server, w: Workflow, lower: int, middle: int, upper: int)
    requires lower <= middle < upper
    requires Exact(a, s, w, lower, middle) && Exact(b, s, w, middle + 1, upper)
    ensures Exact(a + b, s, w, lower, upper)
  {
    SplitMatching(s, w, lower, middle, upper);
  }

  lemma ExactIds(items: seq<Run>, s: Server, w: Workflow, lower: int, upper: int)
    requires Exact(items, s, w, lower, upper)
    ensures forall k :: 0 <= k < |items| ==> items[k] in Matching(s, w, lower, upper)
    ensures forall r :: r in Matching(s, w, lower, upper) ==> r.id in Ids(items)
  {
    forall k | 0 <= k < |items| ensures items[k] in Matching(s, w, lower, upper) {
      assert items[k] in multiset(items);
    }
    forall r | r in Matching(s, w, lower, upper) ensures r.id in Ids(items) {
      assert r in multiset(items);
      var k :| 0 <= k < |items| && items[k] == r;
    }
  }

  /** The listing of a search, taken whole, passes every check on its runs. */
  lemma OrderProper(s: Server, seen: set<int>, w: Workflow, lower: int, upper: int)
    requires Stable(s) && Fresh(s, seen, w, lower, upper)
    ensures Exact(s.order(w, lower, upper), s, w, lower, upper)
    ensures Proper(s.order(w, lower, upper), seen, w, lower, upper)
  {
    var items := s.order(w, lower, upper);
    assert Searches(s, w, lower, upper);
    ExactIds(items, s, w, lower, upper);
    forall j, k | 0 <= j < k < |items| ensures items[j].id != items[k].id {
      NotTwice(items, Matching(s, w, lower, upper), j, k);
    }
  }

  lemma NotTwice(items: seq<Run>, runs: set<Run>, j: nat, k: nat)
    requires multiset(items) == multiset(runs) && j < k < |items|
    ensures items[j] != items[k]
  {
    assert items == items[..k] + items[k..];
    assert items[..k][j] in multiset(items[..k]) && items[k..][0] in multiset(items[k..]);
    assert multiset(items) == multiset(items[..k]) + multiset(items[k..]);
    assert multiset(runs)[items[j]] <= 1;
  }

  lemma ProperJoin(a: seq<Run>, b: seq<Run>, seen: set<int>, w: Workflow, lower: int, middle: int, upper: int)
    requires lower <= middle < upper
    requires Proper(a, seen, w, lower, middle) && Proper(b, seen + Ids(a), w, middle + 1, upper)
    ensures Proper(a + b, seen, w, lower, upper) && Ids(a + b) == Ids(a) + Ids(b)
  {
    IdsJoin(a, b);
    assert forall k :: 0 <= k < |a| ==> a[k].id in Ids(a);
  }

  lemma IdsJoin(a: seq<Run>, b: seq<Run>)
    ensures Ids(a + b) == Ids(a) + Ids(b)
  {
    var c := a + b;
    assert forall k :: 0 <= k < |a| ==> c[k] == a[k];
    assert forall k :: 0 <= k < |b| ==> c[|a| + k] == b[k];
    forall x | x in Ids(a) ensures x in Ids(c) {
      var k :| 0 <= k < |a| && a[k].id == x;
      assert c[k].id == x;
    }
    forall x | x in Ids(b) ensures x in Ids(c) {
      var k :| 0 <= k < |b| && b[k].id == x;
      assert c[|a| + k].id == x;
    }
  }

  /** Runs already returned do not match the other half of a split. */
  lemma FreshAfter(a: seq<Run>, s: Server, seen: set<int>, w: Workflow, lower: int, middle: int, upper: int)
    requires lower <= middle < upper && Stable(s) && Fresh(s, seen, w, lower, upper) && Exact(a, s, w, lower, middle)
    ensures Fresh(s, seen, w, lower, middle) && Fresh(s, seen + Ids(a), w, middle + 1, upper)
  {
    SplitMatching(s, w, lower, middle, upper);
    ExactIds(a, s, w, lower, middle);
    assert forall r :: r in Matching(s, w, middle + 1, upper) ==> r.id !in Ids(a);
  }

  // ---------------------------------------------------------------- The code

  class Inventory {
    const api: Api
    var remaining: int
    var seen: set<int>

    constructor (a: Api)
      ensures api == a && remaining == REQUESTS && seen == {}
    {
      api, remaining, seen := a, REQUESTS, {};
    }

    /** `read(workflow, lower, upper, page)` */
    method Read(w: Workflow, lower: int, upper: int, page: nat) returns (r: Result<Response>)
      requires page >= 1 && 0 <= remaining <= REQUESTS
      modifies this`remaining
      ensures 0 <= remaining && remaining == (if old(remaining) == 0 then 0 else old(remaining) - 1)
      ensures r.Ok? <==> (old(remaining) > 0 &&
        var a := api((REQUESTS - remaining) as nat, Query(w, lower, upper, page));
        a.Some? && a.value.total >= 0 && |a.value.batch| == PageLength(a.value.total, page))
      ensures r.Ok? ==> Some(r.value) == api((REQUESTS - remaining) as nat, Query(w, lower, upper, page))
    {
      if remaining <= 0 {
        return Err;
      }
      remaining := remaining - 1;
      var response := api(REQUESTS - remaining, Query(w, lower, upper, page));
      if response.None? || response.value.total < 0 {
        return Err;
      }
      if |response.value.batch| != PageLength(response.value.total, page) {
        return Err;
      }
      r := Ok(response.value);
    }

    /** The pages of an unsaturated window after the first. */
    method Pages(w: Workflow, lower: int, upper: int, first: Response, ghost s: Server) returns (r: Result<seq<Run>>)
      requires 0 <= remaining <= REQUESTS && 0 <= first.total < CEILING
      modifies this`remaining
      ensures 0 <= remaining <= old(remaining)
      ensures Serves(api, s) && first == Answer(s, Query(w, lower, upper, 1)) ==>
        (r.Ok? <==> More(first.total) <= old(remaining))
        && (r.Ok? ==> r.value == s.order(w, lower, upper) && remaining == old(remaining) - More(first.total))
    {
      hide Stable;
      var items := first.batch;
      ghost var honest := Serves(api, s) && first == Answer(s, Query(w, lower, upper, 1));
      ghost var order := s.order(w, lower, upper);
      if honest {
        assert first.total == |order| by {
          ServesSearches(api, s, w, lower, upper);
        }
      }
      var last := (first.total + 99) / 100;
      var page := 2;
      while page <= last
        invariant 2 <= page && (page <= last + 1 || page == 2)
        invariant 0 <= remaining <= old(remaining) <= REQUESTS
        invariant remaining == old(remaining) - (page - 2)
        invariant honest ==> items == order[..if |order| < PAGE * (page - 1) then |order| else PAGE * (page - 1)]
      {
        var response := Read(w, lower, upper, page);
        if response.Err? {
          return Err;
        }
        if response.value.total != first.total {
          return Err;
        }
        items := items + response.value.batch;
        page := page + 1;
      }
      if honest {
        assert items == order;
      }
      r := Ok(items);
    }

    /** The checks on the runs of a window; accepted ids are remembered. */
    method Check(items: seq<Run>, w: Workflow, lower: int, upper: int) returns (ok: bool)
      modifies this`seen
      ensures ok <==> Proper(items, old(seen), w, lower, upper)
      ensures ok ==> seen == old(seen) + Ids(items)
    {
      for k := 0 to |items|
        invariant Proper(items[..k], old(seen), w, lower, upper)
        invariant seen == old(seen) + Ids(items[..k])
      {
        var run := items[k];
        if run.id <= 0 || run.id in seen {
          return false;
        }
        assert items[..k + 1] == items[..k] + [run];
        IdsJoin(items[..k], [run]);
        assert Ids([run]) == {run.id};
        seen := seen + {run.id};
        if run.created.None? {
          return false;
        }
        if !(lower <= run.created.value <= upper) || run.workflow != w || !run.dispatched {
          return false;
        }
      }
      assert items[..|items|] == items;
      ok := true;
    }

    /** A window below the ceiling: all its pages, then the checks. */
    method Leaf(w: Workflow, lower: int, upper: int, first: Response, ghost s: Server) returns (r: Result<seq<Run>>)
      requires 0 <= remaining <= REQUESTS && 0 <= first.total < CEILING
      modifies this
      ensures 0 <= remaining <= old(remaining)
      ensures r.Ok? ==> Proper(r.value, old(seen), w, lower, upper) && seen == old(seen) + Ids(r.value)
      ensures Serves(api, s) && Fresh(s, old(seen), w, lower, upper) && first == Answer(s, Query(w, lower, upper, 1)) ==>
        (r.Ok? <==> More(first.total) <= old(remaining))
        && (r.Ok? ==> Exact(r.value, s, w, lower, upper) && remaining == old(remaining) - More(first.total))
    {
      hide Stable, Proper, Exact, Fresh;
      ghost var seen0 := seen;
      r := Pages(w, lower, upper, first, s);
      if r.Err? {
        return;
      }
      if Serves(api, s) && Fresh(s, seen0, w, lower, upper) && first == Answer(s, Query(w, lower, upper, 1)) {
        OrderProper(s, seen0, w, lower, upper);
      }
      var ok := Check(r.value, w, lower, upper);
      if !ok {
        r := Err;
      }
    }

    /** `window(workflow, lower, upper)` */
    method Window(w: Workflow, lower: int, upper: int, ghost s: Server) returns (r: Result<seq<Run>>)
      requires 0 <= remaining <= REQUESTS && lower <= upper
      modifies this
      ensures 0 <= remaining <= old(remaining)
      ensures r.Ok? ==> Proper(r.value, old(seen), w, lower, upper) && seen == old(seen) + Ids(r.value)
      ensures Serves(api, s) && Fresh(s, old(seen), w, lower, upper) ==>
        (r.Ok? <==> Within(Cost(s, w, lower, upper), old(remaining)))
        && (r.Ok? ==> Exact(r.value, s, w, lower, upper) && remaining == old(remaining) - Cost(s, w, lower, upper).value)
      decreases upper - lower
    {
      hide Serves, Stable, Proper, Exact, Fresh, Searches, Answer;
      ghost var seen0, honest := seen, Serves(api, s) && Fresh(s, seen, w, lower, upper);
      if honest {
        FirstPage(api, s, w, lower, upper);
      }
      CostPositive(s, w, lower, upper);
      var first := Read(w, lower, upper, 1);
      if first.Err? {
        return Err;
      }
      if first.value.total < CEILING {
        r := Leaf(w, lower, upper, first.value, s);
        return;
      }
      if lower == upper {
        return Err;
      }
      var middle := lower + (upper - lower) / 2;
      CostPositive(s, w, lower, middle);
      CostPositive(s, w, middle + 1, upper);
      if honest {
        FreshHalf(s, seen0, w, lower, middle, upper);
      }
      var left := Window(w, lower, middle, s);
      if left.Err? {
        return Err;
      }
      if honest {
        FreshAfter(left.value, s, seen0, w, lower, middle, upper);
      }
      var right := Window(w, middle + 1, upper, s);
      if right.Err? {
        return Err;
      }
      var items := left.value + right.value;
      ProperJoin(left.value, right.value, seen0, w, lower, middle, upper);
      if honest {
        ExactJoin(left.value, right.value, s, w, lower, middle, upper);
        ExactLength(items, s, w, lower, upper);
      }
      if |items| < first.value.total {
        return Err;
      }
      r := Ok(items);
    }
  }

  lemma FreshHalf(s: Server, seen: set<int>, w: Workflow, lower: int, middle: int, upper: int)
    requires lower <= middle < upper && Fresh(s, seen, w, lower, upper)
    ensures Fresh(s, seen, w, lower, middle)
  {
    SplitMatching(s, w, lower, middle, upper);
  }

  lemma ExactLength(items: seq<Run>, s: Server, w: Workflow, lower: int, upper: int)
    requires Searches(s, w, lower, upper) && Exact(items, s, w, lower, upper)
    ensures |items| == Count(s, w, lower, upper)
    ensures s.total(w, lower, upper) >= CEILING ==> s.total(w, lower, upper) <= |items|
  {
    assert |multiset(items)| == |items| && |multiset(s.order(w, lower, upper))| == |s.order(w, lower, upper)|;
  }

  lemma CostPositive(s: Server, w: Workflow, lower: int, upper: int)
    ensures Cost(s, w, lower, upper).Some? ==> Cost(s, w, lower, upper).value >= 1
  {
  }

  /** What the first page says of a window. */
  lemma FirstPage(api: Api, s: Server, w: Workflow, lower: int, upper: int)
    requires Serves(api, s)
    ensures Stable(s) && Searches(s, w, lower, upper)
    ensures var a := Answer(s, Query(w, lower, upper, 1));
            && a.total == s.total(w, lower, upper) && a.total >= 0 && |a.batch| == PageLength(a.total, 1)
            && (a.total < CEILING <==> Count(s, w, lower, upper) < CEILING)
            && (a.total < CEILING ==> Cost(s, w, lower, upper) == Some(1 + More(a.total)))
    ensures forall n :: api(n, Query(w, lower, upper, 1)) == Some(Answer(s, Query(w, lower, upper, 1)))
  {
    ServesSearches(api, s, w, lower, upper);
  }

  /** The pages after the first. */
  function More(total: int): int {
    if total <= PAGE then 0 else (total + 99) / 100 - 1
  }

  lemma ServesSearches(api: Api, s: Server, w: Workflow, lower: int, upper: int)
    requires Serves(api, s)
    ensures Searches(s, w, lower, upper)
  {
  }

  /** Every run of the three workflows in the seven days before `end`. */
  ghost function Wanted(s: Server, end: int): set<Run> {
    Matching(s, Refresh, end - TTL, end) + Matching(s, Helper, end - TTL, end) + Matching(s, Continuation, end - TTL, end)
  }

  function TotalCost(s: Server, end: int): Option<nat> {
    Plus(Cost(s, Refresh, end - TTL, end),
         Plus(Cost(s, Helper, end - TTL, end), Cost(s, Continuation, end - TTL, end)))
  }

  /**
   `dispatch_inventory(prefix, now)`.  Whatever the API answers, a result has distinct ids and
   only runs of the three workflows in the interval, and took at most 256 requests.  Against
   a stable store it is exactly the wanted runs, each once, and there is a result exactly
   when no second is saturated and 256 requests suffice.
   */
  method Dispatches(api: Api, end: int, ghost s: Server) returns (r: Result<seq<Run>>, spent: int)
    ensures 0 <= spent <= REQUESTS
    ensures r.Ok? ==> DistinctIds(r.value) && forall k :: 0 <= k < |r.value| ==> Located(r.value[k], end - TTL, end)
    ensures Serves(api, s) ==>
      (r.Ok? <==> Within(TotalCost(s, end), REQUESTS))
      && (r.Ok? ==> multiset(r.value) == multiset(Wanted(s, end)) && TotalCost(s, end) == Some(spent as nat))
  {
    hide Stable, Proper, Exact, Fresh, Searches;
    var inventory := new Inventory(api);
    var start := end - TTL;
    ghost var honest := Serves(api, s);
    CostPositive(s, Refresh, start, end);
    CostPositive(s, Helper, start, end);
    CostPositive(s, Continuation, start, end);
    NoneSeen(s, Refresh, start, end);
    var refresh := inventory.Window(Refresh, start, end, s);
    spent := REQUESTS - inventory.remaining;
    if refresh.Err? {
      return Err, spent;
    }
    if honest {
      OthersFresh(refresh.value, {}, s, Refresh, Helper, start, end);
      OthersFresh(refresh.value, {}, s, Refresh, Continuation, start, end);
    }
    ghost var seen1 := inventory.seen;
    assert seen1 == Ids(refresh.value);
    var helper := inventory.Window(Helper, start, end, s);
    spent := REQUESTS - inventory.remaining;
    if helper.Err? {
      return Err, spent;
    }
    if honest {
      OthersFresh(helper.value, seen1, s, Helper, Continuation, start, end);
    }
    assert inventory.seen == Ids(refresh.value) + Ids(helper.value);
    var continuation := inventory.Window(Continuation, start, end, s);
    spent := REQUESTS - inventory.remaining;
    if continuation.Err? {
      return Err, spent;
    }
    r := Ok(refresh.value + helper.value + continuation.value);
    ThreeProper(refresh.value, helper.value, continuation.value, start, end);
    if honest {
      ThreeExact(refresh.value, helper.value, continuation.value, s, end);
    }
  }

  lemma NoneSeen(s: Server, w: Workflow, lower: int, upper: int)
    ensures Fresh(s, {}, w, lower, upper)
  {
  }

  /** The runs of one workflow do not match another. */
  lemma OthersFresh(a: seq<Run>, seen: set<int>, s: Server, w: Workflow, w': Workflow, lower: int, upper: int)
    requires Stable(s) && w != w' && Exact(a, s, w, lower, upper) && Fresh(s, seen, w', lower, upper)
    ensures Fresh(s, seen + Ids(a), w', lower, upper)
  {
    ExactIds(a, s, w, lower, upper);
    assert forall r :: r in Matching(s, w', lower, upper) ==> r.id !in Ids(a);
  }

  lemma ThreeProper(a: seq<Run>, b: seq<Run>, c: seq<Run>, lower: int, upper: int)
    requires Proper(a, {}, Refresh, lower, upper) && Proper(b, Ids(a), Helper, lower, upper)
    requires Proper(c, Ids(a) + Ids(b), Continuation, lower, upper)
    ensures DistinctIds(a + b + c)
    ensures forall k :: 0 <= k < |a + b + c| ==> Located((a + b + c)[k], lower, upper)
  {
    IdsJoin(a, b);
    assert DistinctIds(a + b) by {
      assert forall k :: 0 <= k < |a| ==> a[k].id in Ids(a);
    }
    assert DistinctIds(a + b + c) by {
      assert forall k :: 0 <= k < |a + b| ==> (a + b)[k].id in Ids(a + b);
    }
  }

  lemma ThreeExact(a: seq<Run>, b: seq<Run>, c: seq<Run>, s: Server, end: int)
    requires Exact(a, s, Refresh, end - TTL, end) && Exact(b, s, Helper, end - TTL, end)
    requires Exact(c, s, Continuation, end - TTL, end)
    ensures multiset(a + b + c) == multiset(Wanted(s, end))
  {
    var x, y, z := Matching(s, Refresh, end - TTL, end), Matching(s, Helper, end - TTL, end), Matching(s, Continuation, end - TTL, end);
    assert x !! y && (x + y) !! z;
    assert multiset(x + y) == multiset(x) + multiset(y);
    assert multiset(x + y + z) == multiset(x + y) + multiset(z);
  }
}
