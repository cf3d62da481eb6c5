/**
 Running the compiled automaton over a stream: `_step` and `PatternScanner` of
 scripts/lit-push-ready.py.  The main result says that the bits a scan reports are exactly
 the patterns that match some span of the whole text, however the text was cut.
 */
module RegexScanner {
  import opened Common
  import opened RegexSyntax
  import opened RegexAutomaton
  import opened RegexStops
  import opened RegexCompiler

  datatype Machine = Machine(alphabet: Alphabet, edges: Edges, starts: seq<nat>, accepts: map<nat, nat>)

  predicate InRange(m: Machine) {
    && (forall n :: 0 <= n < |m.starts| ==> m.starts[n] < |m.edges|)
    && (forall q, k :: 0 <= q < |m.edges| && 0 <= k < |m.edges[q]| ==> m.edges[q][k].target < |m.edges|)
  }

  // ---------------------------------------------------------------- One step, as a set

  /** An edge that consumes nothing may be taken. */
  predicate Passes(al: Alphabet, e: Edge, previous: Option<char>, next: Option<char>, beginning: bool) {
    e.Epsilon? || (e.Assert? && Holds(al, e.anchor, e.flags, previous, next, beginning))
  }

  predicate EmptyStep(m: Machine, p: nat, q: nat, previous: Option<char>, next: Option<char>, beginning: bool) {
    && p < |m.edges|
    && (exists k :: 0 <= k < |m.edges[p]| && m.edges[p][k].target == q
                    && Passes(m.alphabet, m.edges[p][k], previous, next, beginning))
  }

  ghost predicate Closed(m: Machine, s: set<nat>, previous: Option<char>, next: Option<char>, beginning: bool) {
    forall p, q :: p in s && EmptyStep(m, p, q, previous, next, beginning) ==> q in s
  }

  ghost predicate Entered(m: Machine, s: set<nat>, q: nat, previous: Option<char>, next: Option<char>, beginning: bool) {
    exists p :: p in s && EmptyStep(m, p, q, previous, next, beginning)
  }

  ghost function Successors(m: Machine, s: set<nat>,
                            previous: Option<char>, next: Option<char>, beginning: bool): set<nat> {
    set q | 0 <= q < |m.edges| && Entered(m, s, q, previous, next, beginning)
  }

  /** The states occupied once every empty edge has been followed. */
  ghost function Closure(m: Machine, seeds: set<nat>,
                         previous: Option<char>, next: Option<char>, beginning: bool): set<nat>
    decreases |StatesOf(m) - seeds|
  {
    var more := Successors(m, seeds, previous, next, beginning) - seeds;
    if more == {} then seeds
    else
      Fewer(StatesOf(m), seeds, more);
      Closure(m, seeds + more, previous, next, beginning)
  }

  ghost function Upto(n: nat): (s: set<nat>)
    ensures forall q: nat :: q in s <==> q < n
  {
    if n == 0 then {} else Upto(n - 1) + {n - 1}
  }

  ghost function StatesOf(m: Machine): (s: set<nat>)
    ensures forall q: nat :: q in s <==> q < |m.edges|
  {
    Upto(|m.edges|)
  }

  lemma Fewer(universe: set<nat>, a: set<nat>, more: set<nat>)
    requires more <= universe && more !! a && more != {}
    ensures |universe - (a + more)| < |universe - a|
  {
    assert universe - a == (universe - (a + more)) + more;
    assert |universe - a| == |universe - (a + more)| + |more|;
  }

  lemma {:induction false} ClosureSeeds(m: Machine, seeds: set<nat>,
                                        previous: Option<char>, next: Option<char>, beginning: bool)
    ensures seeds <= Closure(m, seeds, previous, next, beginning)
    decreases |StatesOf(m) - seeds|
  {
    var more := Successors(m, seeds, previous, next, beginning) - seeds;
    if more != {} {
      Fewer(StatesOf(m), seeds, more);
      ClosureSeeds(m, seeds + more, previous, next, beginning);
    }
  }

  lemma {:induction false} ClosureClosed(m: Machine, seeds: set<nat>,
                                         previous: Option<char>, next: Option<char>, beginning: bool)
    requires InRange(m)
    ensures Closed(m, Closure(m, seeds, previous, next, beginning), previous, next, beginning)
    decreases |StatesOf(m) - seeds|
  {
    var all := Successors(m, seeds, previous, next, beginning);
    if all - seeds != {} {
      Fewer(StatesOf(m), seeds, all - seeds);
      ClosureClosed(m, seeds + (all - seeds), previous, next, beginning);
    } else {
      forall p, q | p in seeds && EmptyStep(m, p, q, previous, next, beginning) ensures q in seeds {
        assert Entered(m, seeds, q, previous, next, beginning);
        var k :| 0 <= k < |m.edges[p]| && m.edges[p][k].target == q
                 && Passes(m.alphabet, m.edges[p][k], previous, next, beginning);
        assert q in all && q !in all - seeds;
      }
    }
  }

  lemma {:induction false} ClosureLeast(m: Machine, seeds: set<nat>, s: set<nat>,
                                        previous: Option<char>, next: Option<char>, beginning: bool)
    requires seeds <= s && Closed(m, s, previous, next, beginning)
    ensures Closure(m, seeds, previous, next, beginning) <= s
    decreases |StatesOf(m) - seeds|
  {
    var more := Successors(m, seeds, previous, next, beginning) - seeds;
    if more != {} {
      Fewer(StatesOf(m), seeds, more);
      ClosureLeast(m, seeds + more, s, previous, next, beginning);
    }
  }

  predicate Consumes(m: Machine, p: nat, q: nat, c: char) {
    && p < |m.edges|
    && (exists k :: 0 <= k < |m.edges[p]| && m.edges[p][k].target == q && m.edges[p][k].Char?
                    && Accepts(m.alphabet, m.edges[p][k].matcher, c))
  }

  ghost predicate Fed(m: Machine, states: set<nat>, q: nat, c: char) {
    exists p :: p in states && Consumes(m, p, q, c)
  }

  ghost function Targets(m: Machine, p: nat, c: char): set<nat>
    requires p < |m.edges|
  {
    set k | 0 <= k < |m.edges[p]| && m.edges[p][k].Char? && Accepts(m.alphabet, m.edges[p][k].matcher, c)
      :: m.edges[p][k].target
  }

  /** The targets, over `c`, of the edges of those of the first `n` states that are in `states`. */
  ghost function Gather(m: Machine, states: set<nat>, c: char, n: nat): set<nat>
    requires n <= |m.edges|
  {
    if n == 0 then {}
    else Gather(m, states, c, n - 1) + (if n - 1 in states then Targets(m, n - 1, c) else {})
  }

  ghost function Following(m: Machine, states: set<nat>, c: char): set<nat> {
    Gather(m, states, c, |m.edges|)
  }

  lemma {:induction false} GatherMeans(m: Machine, states: set<nat>, c: char, n: nat, q: nat)
    requires n <= |m.edges|
    ensures q in Gather(m, states, c, n) <==> exists p :: p in states && p < n && Consumes(m, p, q, c)
    decreases n
  {
    if n > 0 {
      GatherMeans(m, states, c, n - 1, q);
      if n - 1 in states && q in Targets(m, n - 1, c) {
        assert Consumes(m, n - 1, q, c);
      }
    }
  }

  lemma FollowingMeans(m: Machine, states: set<nat>, c: char, q: nat)
    ensures q in Following(m, states, c) <==> Fed(m, states, q, c)
  {
    GatherMeans(m, states, c, |m.edges|, q);
  }

  lemma {:induction false} GatherInRange(m: Machine, states: set<nat>, c: char, n: nat)
    requires InRange(m) && n <= |m.edges|
    ensures forall q :: q in Gather(m, states, c, n) ==> q < |m.edges|
    decreases n
  {
    if n > 0 {
      GatherInRange(m, states, c, n - 1);
    }
  }

  lemma ActiveInRange(m: Machine, t: string, x: nat)
    requires InRange(m) && x <= |t|
    ensures forall q :: q in Active(m, t, x) ==> q < |m.edges|
  {
    if x > 0 {
      GatherInRange(m, Occupied(m, t, x - 1), t[x - 1], |m.edges|);
    }
  }

  ghost predicate Sets(m: Machine, states: set<nat>, n: nat) {
    exists q :: q in states && q in m.accepts && m.accepts[q] == n
  }

  ghost function Marked(m: Machine, states: set<nat>): set<nat> {
    set n | n in m.accepts.Values && Sets(m, states, n)
  }

  ghost predicate Stuck(m: Machine, states: set<nat>) {
    exists q :: q in states && Refused(m.edges, q)
  }

  // ---------------------------------------------------------------- A whole scan, as sets

  function StartSet(m: Machine): set<nat> {
    set n | 0 <= n < |m.starts| :: m.starts[n]
  }

  /** The states occupied while `active` is stepped over one position. */
  ghost function Stepped(m: Machine, active: set<nat>, previous: Option<char>, next: Option<char>, beginning: bool): set<nat>
  {
    Closure(m, active + StartSet(m), previous, next, beginning)
  }

  /** The states carried over position `x` of `t`, before the empty edges are followed. */
  ghost function Active(m: Machine, t: string, x: nat): set<nat>
    requires x <= |t|
    decreases x, 0
  {
    if x == 0 then {}
    else Following(m, Occupied(m, t, x - 1), t[x - 1])
  }

  /** The states occupied at position `x` of `t`. */
  ghost function Occupied(m: Machine, t: string, x: nat): set<nat>
    requires x <= |t|
    decreases x, 1
  {
    Stepped(m, Active(m, t, x), Before(t, x), After(t, x), x == 0)
  }

  /** The bits set before position `x` is stepped over. */
  ghost function Hits(m: Machine, t: string, x: nat): set<nat>
    requires x <= |t|
  {
    if x == 0 then {} else Hits(m, t, x - 1) + Marked(m, Occupied(m, t, x - 1))
  }

  /** What `feed` over all of `t` and then `finish` return. */
  ghost function Scanned(m: Machine, t: string): set<nat> {
    Hits(m, t, |t|) + Marked(m, Occupied(m, t, |t|))
  }

  /** More text does not change what happened at earlier positions. */
  lemma {:induction false} ActivePrefix(m: Machine, t: string, u: string, x: nat)
    requires x <= |t|
    ensures Active(m, t + u, x) == Active(m, t, x)
    decreases x, 0
  {
    if x > 0 {
      OccupiedPrefix(m, t, u, x - 1);
      assert (t + u)[x - 1] == t[x - 1];
    }
  }

  lemma {:induction false} OccupiedPrefix(m: Machine, t: string, u: string, x: nat)
    requires x < |t|
    ensures Occupied(m, t + u, x) == Occupied(m, t, x)
    decreases x, 1
  {
    ActivePrefix(m, t, u, x);
    assert Before(t + u, x) == Before(t, x) && After(t + u, x) == After(t, x);
  }

  lemma {:induction false} HitsPrefix(m: Machine, t: string, u: string, x: nat)
    requires x <= |t|
    ensures Hits(m, t + u, x) == Hits(m, t, x)
    decreases x
  {
    hide Occupied, Marked;
    if x > 0 {
      HitsPrefix(m, t, u, x - 1);
      OccupiedPrefix(m, t, u, x - 1);
    }
  }

  ghost predicate HitAt(m: Machine, t: string, y: nat, n: nat) {
    y <= |t| && n in Marked(m, Occupied(m, t, y))
  }

  lemma {:induction false} HitsMeans(m: Machine, t: string, x: nat, n: nat)
    requires x <= |t|
    ensures n in Hits(m, t, x) <==> exists y :: 0 <= y < x && HitAt(m, t, y, n)
    decreases x
  {
    if x > 0 {
      HitsMeans(m, t, x - 1, n);
      if n in Marked(m, Occupied(m, t, x - 1)) {
        assert HitAt(m, t, x - 1, n);
      }
    }
  }

  lemma ScannedMeans(m: Machine, t: string, n: nat)
    ensures n in Scanned(m, t) <==> exists y :: 0 <= y <= |t| && HitAt(m, t, y, n)
  {
    HitsMeans(m, t, |t|, n);
    if n in Marked(m, Occupied(m, t, |t|)) {
      assert HitAt(m, t, |t|, n);
    }
  }

  // ---------------------------------------------------------------- Correctness

  ghost predicate Runs(m: Machine, lasts: seq<nat>, patterns: seq<Pattern>,
                       owners: seq<nat>, labels: seq<seq<Token>>) {
    Implements(m.alphabet, m.edges, m.starts, lasts, patterns, owners, labels) && Marks(m.accepts, lasts)
  }

  /** State `q` is justified at position `x`: its label matches a span that ends there. */
  ghost predicate Justified(m: Machine, patterns: seq<Pattern>, owners: seq<nat>, labels: seq<seq<Token>>,
                            t: string, q: nat, x: nat) {
    && q < |labels| && |owners| == |labels| && owners[q] < |patterns|
    && (exists i: nat :: i <= x && MatchSeq(m.alphabet, labels[q], patterns[owners[q]].flags, t, i, x))
  }

  lemma JustifiedStep(m: Machine, lasts: seq<nat>, patterns: seq<Pattern>, owners: seq<nat>, labels: seq<seq<Token>>,
                      t: string, p: nat, k: nat, x: nat, y: nat)
    requires Runs(m, lasts, patterns, owners, labels)
    requires p < |m.edges| && k < |m.edges[p]| && Fires(m.alphabet, m.edges[p][k], t, x, y)
    requires Justified(m, patterns, owners, labels, t, p, x)
    ensures Justified(m, patterns, owners, labels, t, m.edges[p][k].target, y)
  {
    var i: nat :| i <= x && MatchSeq(m.alphabet, labels[p], patterns[owners[p]].flags, t, i, x);
    assert EdgeKept(m.alphabet, m.edges, patterns, owners, labels, p, k);
    assert SoundEdge(m.alphabet, patterns[owners[p]].flags, labels[p], m.edges[p][k], labels[m.edges[p][k].target]);
    assert MatchSeq(m.alphabet, labels[m.edges[p][k].target], patterns[owners[p]].flags, t, i, y);
  }

  lemma {:induction false} OccupiedJustified(
    m: Machine, lasts: seq<nat>, patterns: seq<Pattern>, owners: seq<nat>, labels: seq<seq<Token>>,
    t: string, x: nat)
    requires Runs(m, lasts, patterns, owners, labels) && x <= |t|
    ensures forall q :: q in Occupied(m, t, x) ==> Justified(m, patterns, owners, labels, t, q, x)
    decreases x
  {
    hide EdgeKept, Complete;
    RunsInRange(m, lasts, patterns, owners, labels);
    var justified := set q | q in StatesOf(m) && Justified(m, patterns, owners, labels, t, q, x);
    var active := Active(m, t, x);
    forall q | q in StartSet(m) ensures q in justified {
      var n :| 0 <= n < |m.starts| && m.starts[n] == q;
      assert MatchesEmpty(m.alphabet, labels[q], patterns[n].flags);
      assert MatchSeq(m.alphabet, labels[q], patterns[owners[q]].flags, t, x, x);
    }
    if x > 0 {
      OccupiedJustified(m, lasts, patterns, owners, labels, t, x - 1);
      forall q | q in active ensures q in justified {
        FollowingMeans(m, Occupied(m, t, x - 1), t[x - 1], q);
        var p :| p in Occupied(m, t, x - 1) && Consumes(m, p, q, t[x - 1]);
        var k :| 0 <= k < |m.edges[p]| && m.edges[p][k].target == q && m.edges[p][k].Char?
                 && Accepts(m.alphabet, m.edges[p][k].matcher, t[x - 1]);
        JustifiedStep(m, lasts, patterns, owners, labels, t, p, k, x - 1, x);
      }
    }
    forall p, q | p in justified && EmptyStep(m, p, q, Before(t, x), After(t, x), x == 0) ensures q in justified {
      var k :| 0 <= k < |m.edges[p]| && m.edges[p][k].target == q
               && Passes(m.alphabet, m.edges[p][k], Before(t, x), After(t, x), x == 0);
      JustifiedStep(m, lasts, patterns, owners, labels, t, p, k, x, x);
    }
    ClosureLeast(m, active + StartSet(m), justified, Before(t, x), After(t, x), x == 0);
  }

  /** Every configuration on a path from an occupied one is occupied. */
  lemma {:induction false} PathOccupied(m: Machine, t: string, path: seq<Config>)
    requires InRange(m) && IsPath(m.alphabet, m.edges, t, path)
    requires path[0].position <= |t| && path[0].state in Occupied(m, t, path[0].position)
    ensures path[|path| - 1].position <= |t|
    ensures path[|path| - 1].state in Occupied(m, t, path[|path| - 1].position)
    decreases |path|
  {
    if |path| > 1 {
      PathOccupied(m, t, path[..|path| - 1]);
      var c, d := path[|path| - 2], path[|path| - 1];
      assert StepBy(m.alphabet, m.edges, t, c, d);
      var k :| 0 <= k < |m.edges[c.state]| && m.edges[c.state][k].target == d.state
               && Fires(m.alphabet, m.edges[c.state][k], t, c.position, d.position);
      if m.edges[c.state][k].Char? {
        assert Consumes(m, c.state, d.state, t[c.position]);
        FollowingMeans(m, Occupied(m, t, c.position), t[c.position], d.state);
        ClosureSeeds(m, Active(m, t, d.position) + StartSet(m), Before(t, d.position), After(t, d.position), false);
      } else {
        var x := c.position;
        ClosureClosed(m, Active(m, t, x) + StartSet(m), Before(t, x), After(t, x), x == 0);
      }
    }
  }

  /** Pattern `n` matches some span of `t`. */
  ghost predicate Found(al: Alphabet, p: Pattern, t: string) {
    exists i: nat, j: nat :: MatchSeq(al, p.tokens, p.flags, t, i, j)
  }

  /** The scan's bits are exactly the patterns with a match somewhere in the whole text. */
  lemma ScanIsSearch(m: Machine, lasts: seq<nat>, patterns: seq<Pattern>, owners: seq<nat>, labels: seq<seq<Token>>,
                     t: string, n: nat)
    requires Runs(m, lasts, patterns, owners, labels)
    ensures n in Scanned(m, t) <==> n < |patterns| && Found(m.alphabet, patterns[n], t)
  {
    ScannedMeans(m, t, n);
    if n in Scanned(m, t) {
      BitIsMatch(m, lasts, patterns, owners, labels, t, n);
    }
    if n < |patterns| && Found(m.alphabet, patterns[n], t) {
      MatchIsBit(m, lasts, patterns, owners, labels, t, n);
    }
  }

  lemma BitIsMatch(m: Machine, lasts: seq<nat>, patterns: seq<Pattern>, owners: seq<nat>, labels: seq<seq<Token>>,
                   t: string, n: nat)
    requires Runs(m, lasts, patterns, owners, labels) && n in Scanned(m, t)
    ensures n < |patterns| && Found(m.alphabet, patterns[n], t)
  {
    hide EdgeKept, Complete, MatchesEmpty, Closure;
    ScannedMeans(m, t, n);
    var y :| 0 <= y <= |t| && HitAt(m, t, y, n);
    var q :| q in Occupied(m, t, y) && q in m.accepts && m.accepts[q] == n;
    var k :| 0 <= k < |lasts| && lasts[k] == q;
    OccupiedJustified(m, lasts, patterns, owners, labels, t, y);
  }

  lemma MatchIsBit(m: Machine, lasts: seq<nat>, patterns: seq<Pattern>, owners: seq<nat>, labels: seq<seq<Token>>,
                   t: string, n: nat)
    requires Runs(m, lasts, patterns, owners, labels) && n < |patterns| && Found(m.alphabet, patterns[n], t)
    ensures n in Scanned(m, t)
  {
    hide MatchesEmpty, Closure;
    ScannedMeans(m, t, n);
    RunsInRange(m, lasts, patterns, owners, labels);
    var i: nat, j: nat :| MatchSeq(m.alphabet, patterns[n].tokens, patterns[n].flags, t, i, j);
    var path: seq<Config> :| IsPath(m.alphabet, m.edges, t, path)
      && path[0] == Config(m.starts[n], i) && path[|path| - 1] == Config(lasts[n], j);
    ClosureSeeds(m, Active(m, t, i) + StartSet(m), Before(t, i), After(t, i), i == 0);
    assert m.starts[n] in StartSet(m);
    PathOccupied(m, t, path);
    assert lasts[n] in lasts;
    assert Sets(m, Occupied(m, t, j), n);
    assert HitAt(m, t, j, n);
  }

  lemma RunsInRange(m: Machine, lasts: seq<nat>, patterns: seq<Pattern>, owners: seq<nat>, labels: seq<seq<Token>>)
    requires Runs(m, lasts, patterns, owners, labels)
    ensures InRange(m)
  {
    hide Complete, SoundEdge, MatchesEmpty;
    forall q, k | 0 <= q < |m.edges| && 0 <= k < |m.edges[q]| ensures m.edges[q][k].target < |m.edges| {
      assert EdgeKept(m.alphabet, m.edges, patterns, owners, labels, q, k);
    }
  }

  // ---------------------------------------------------------------- The code

  ghost function MachineOf(p: StreamingPatterns): Machine
    reads p
  {
    Machine(p.alphabet, p.edges, p.starts, p.accepts)
  }

  lemma ValidInRange(p: StreamingPatterns)
    requires p.Valid()
    ensures InRange(MachineOf(p))
  {
    RunsInRange(MachineOf(p), p.lasts, p.patterns, p.owners, p.labels);
  }

  /** The worklist's inner loop: the targets of `current`'s passable edges join `states`. */
  method Expand(m: Machine, current: nat, states: set<nat>, pending: set<nat>,
                previous: Option<char>, next: Option<char>, beginning: bool)
    returns (ok: bool, states': set<nat>, pending': set<nat>)
    requires InRange(m) && current < |m.edges|
    ensures ok <==> !Refused(m.edges, current)
    ensures ok ==> Expanded(m, current, states, pending, states', pending', previous, next, beginning)
  {
    ok, states', pending' := true, states, pending;
    var k := 0;
    while k < |m.edges[current]|
      invariant 0 <= k <= |m.edges[current]| && ok
      invariant forall j :: 0 <= j < k ==> !(m.edges[current][j].Assert? && m.edges[current][j].anchor == OtherAnchor)
      invariant states <= states' && pending' == pending + (states' - states)
      invariant forall q :: q in states' ==> q in states || EmptyStep(m, current, q, previous, next, beginning)
      invariant states <= states'
      invariant forall j :: 0 <= j < k && Passes(m.alphabet, m.edges[current][j], previous, next, beginning)
                  ==> m.edges[current][j].target in states'
    {
      var e := m.edges[current][k];
      var passed := e.Epsilon?;
      if e.Assert? {
        if e.anchor == OtherAnchor {
          ok := false;
          return;
        }
        passed := Holds(m.alphabet, e.anchor, e.flags, previous, next, beginning);
      }
      if passed && e.target !in states' {
        states' := states' + {e.target};
        pending' := pending' + {e.target};
      }
      k := k + 1;
    }
  }

  /** The worklist of `_step`: every state reachable without consuming, and the bits it sets. */
  method Saturate(m: Machine, seeds: set<nat>, previous: Option<char>, next: Option<char>, beginning: bool)
    returns (ok: bool, states: set<nat>, matches: set<nat>)
    requires InRange(m) && forall q :: q in seeds ==> q < |m.edges|
    ensures ok <==> !Stuck(m, Closure(m, seeds, previous, next, beginning))
    ensures ok ==> states == Closure(m, seeds, previous, next, beginning) && matches == Marked(m, states)
    ensures ok ==> forall q :: q in states ==> q < |m.edges|
  {
    hide *;
    ghost var all := Closure(m, seeds, previous, next, beginning);
    var pending := seeds;
    ok, states, matches := true, seeds, {};
    WorkingFirst(m, seeds, previous, next, beginning);
    while pending != {}
      invariant Working(m, seeds, all, states, pending, matches, previous, next, beginning)
      decreases |StatesOf(m) - states|, |pending|
    {
      ghost var states0, pending0, matches0 := states, pending, matches;
      var current :| current in pending;
      WorkingKnows(m, seeds, all, states, pending, matches, current, previous, next, beginning);
      pending := pending - {current};
      if current in m.accepts {
        matches := matches + {m.accepts[current]};
      }
      var fine;
      fine, states, pending := Expand(m, current, states, pending, previous, next, beginning);
      if !fine {
        ok := false;
        RefusedSticks(m, all, current);
        return;
      }
      ExpandedWithin(m, all, states0, pending0 - {current}, current, states, pending, previous, next, beginning);
      WorkingNext(m, seeds, all, states0, pending0, matches0, current, states, pending, previous, next, beginning);
      Progress(m, states0, pending0, current, states, pending);
    }
    WorkingLast(m, seeds, states, matches, previous, next, beginning);
  }

  lemma MarkedNone(m: Machine)
    ensures Marked(m, {}) == {}
  {
  }

  lemma WorkingFirst(m: Machine, seeds: set<nat>, previous: Option<char>, next: Option<char>, beginning: bool)
    requires InRange(m) && forall q :: q in seeds ==> q < |m.edges|
    ensures var all := Closure(m, seeds, previous, next, beginning);
            Working(m, seeds, all, seeds, seeds, {}, previous, next, beginning) && Closed(m, all, previous, next, beginning)
  {
    hide Closure, Marked, EmptyStep;
    ClosureSeeds(m, seeds, previous, next, beginning);
    ClosureClosed(m, seeds, previous, next, beginning);
    MarkedNone(m);
    assert seeds - seeds == {};
  }

  lemma WorkingKnows(m: Machine, seeds: set<nat>, all: set<nat>, states: set<nat>, pending: set<nat>, matches: set<nat>,
                     current: nat, previous: Option<char>, next: Option<char>, beginning: bool)
    requires Working(m, seeds, all, states, pending, matches, previous, next, beginning) && current in pending
    ensures current < |m.edges| && current in states && states <= all && states <= StatesOf(m)
  {
    hide Marked, NoneRefused, Followed;
  }

  lemma RefusedSticks(m: Machine, all: set<nat>, current: nat)
    requires current in all && Refused(m.edges, current)
    ensures Stuck(m, all)
  {
  }

  lemma ExpandedWithin(m: Machine, all: set<nat>, states: set<nat>, pending: set<nat>, current: nat,
                       states': set<nat>, pending': set<nat>,
                       previous: Option<char>, next: Option<char>, beginning: bool)
    requires InRange(m) && Closed(m, all, previous, next, beginning) && states <= all && current in states
    requires states <= StatesOf(m)
    requires Expanded(m, current, states, pending, states', pending', previous, next, beginning)
    ensures states <= states' <= StatesOf(m) && pending' == pending + (states' - states)
  {
    assert Followed(m, {}, states, previous, next, beginning);
    ExpandedFollowed(m, all, states, pending, {}, current, states', pending', previous, next, beginning);
  }

  lemma WorkingLast(m: Machine, seeds: set<nat>, states: set<nat>, matches: set<nat>,
                    previous: Option<char>, next: Option<char>, beginning: bool)
    requires InRange(m) && forall q :: q in seeds ==> q < |m.edges|
    requires Working(m, seeds, Closure(m, seeds, previous, next, beginning), states, {}, matches, previous, next, beginning)
    ensures states == Closure(m, seeds, previous, next, beginning) && matches == Marked(m, states) && !Stuck(m, states)
    ensures forall q :: q in states ==> q < |m.edges|
  {
    hide Closure, Marked, EmptyStep;
    assert states - {} == states;
    assert Closed(m, states, previous, next, beginning);
    ClosureLeast(m, seeds, states, previous, next, beginning);
  }

  /** `_step(active, previous, character, beginning)`; `ok == false` is its RuntimeError. */
  method Step(m: Machine, active: set<nat>, previous: Option<char>, next: Option<char>, beginning: bool)
    returns (ok: bool, following: set<nat>, matches: set<nat>)
    requires InRange(m) && forall q :: q in active ==> q < |m.edges|
    ensures ok <==> !Stuck(m, Stepped(m, active, previous, next, beginning))
    ensures ok ==> matches == Marked(m, Stepped(m, active, previous, next, beginning))
    ensures ok && next.None? ==> following == {}
    ensures ok && next.Some? ==> following == Following(m, Stepped(m, active, previous, next, beginning), next.value)
  {
    var states;
    ok, states, matches := Saturate(m, active + StartSet(m), previous, next, beginning);
    following := {};
    if ok && next.Some? {
      following := set p, k | p in states && 0 <= k < |m.edges[p]| && m.edges[p][k].Char?
                              && Accepts(m.alphabet, m.edges[p][k].matcher, next.value) :: m.edges[p][k].target;
      FollowingIs(m, states, next.value, following);
    }
  }

  /** The empty edges of the states in `done` lead into `states`. */
  ghost predicate Followed(m: Machine, done: set<nat>, states: set<nat>,
                           previous: Option<char>, next: Option<char>, beginning: bool) {
    forall p, q :: p in done && EmptyStep(m, p, q, previous, next, beginning) ==> q in states
  }

  ghost predicate NoneRefused(m: Machine, done: set<nat>) {
    forall p :: p in done ==> !Refused(m.edges, p)
  }

  /** The worklist's invariant: everything outside `pending` has been dealt with. */
  ghost predicate Working(m: Machine, seeds: set<nat>, all: set<nat>, states: set<nat>, pending: set<nat>,
                          matches: set<nat>, previous: Option<char>, next: Option<char>, beginning: bool) {
    && pending <= states && seeds <= states <= all && states <= StatesOf(m)
    && matches == Marked(m, states - pending)
    && NoneRefused(m, states - pending)
    && Followed(m, states - pending, states, previous, next, beginning)
  }

  /** What `Expand` does to the two sets. */
  ghost predicate Expanded(m: Machine, current: nat, states: set<nat>, pending: set<nat>,
                           states': set<nat>, pending': set<nat>,
                           previous: Option<char>, next: Option<char>, beginning: bool) {
    && states <= states' && pending' == pending + (states' - states)
    && (forall q :: q in states' <==> q in states || EmptyStep(m, current, q, previous, next, beginning))
  }

  lemma ExpandedFollowed(m: Machine, all: set<nat>, states: set<nat>, pending: set<nat>, done: set<nat>, current: nat,
                         states': set<nat>, pending': set<nat>,
                         previous: Option<char>, next: Option<char>, beginning: bool)
    requires Followed(m, done, states, previous, next, beginning)
    requires Expanded(m, current, states, pending, states', pending', previous, next, beginning)
    requires InRange(m) && Closed(m, all, previous, next, beginning) && states <= all && current in states
    requires states <= StatesOf(m)
    ensures Followed(m, done + {current}, states', previous, next, beginning)
    ensures states' <= all && states' <= StatesOf(m)
  {
    forall q | q in states' ensures q in all && q in StatesOf(m) {
      if q !in states {
        var k :| 0 <= k < |m.edges[current]| && m.edges[current][k].target == q;
      }
    }
  }

  lemma WorkingNext(m: Machine, seeds: set<nat>, all: set<nat>, states: set<nat>, pending: set<nat>, matches: set<nat>,
                    current: nat, states': set<nat>, pending': set<nat>,
                    previous: Option<char>, next: Option<char>, beginning: bool)
    requires InRange(m) && Working(m, seeds, all, states, pending, matches, previous, next, beginning)
    requires Closed(m, all, previous, next, beginning)
    requires current in pending && !Refused(m.edges, current)
    requires Expanded(m, current, states, pending - {current}, states', pending', previous, next, beginning)
    ensures Working(m, seeds, all, states', pending',
                    matches + (if current in m.accepts then {m.accepts[current]} else {}), previous, next, beginning)
  {
    var done := states - pending;
    ExpandedFollowed(m, all, states, pending - {current}, done, current, states', pending', previous, next, beginning);
    MarkedMore(m, done, current);
    assert states' - pending' == done + {current};
  }

  lemma Progress(m: Machine, states: set<nat>, pending: set<nat>, current: nat, states': set<nat>, pending': set<nat>)
    requires current in pending && states <= states' <= StatesOf(m)
    requires pending' == (pending - {current}) + (states' - states)
    ensures |StatesOf(m) - states'| < |StatesOf(m) - states|
         || (|StatesOf(m) - states'| == |StatesOf(m) - states| && |pending'| < |pending|)
  {
    if states' != states {
      Fewer(StatesOf(m), states, states' - states);
      assert states + (states' - states) == states';
    } else {
      assert pending' == pending - {current};
    }
  }

  lemma MarkedMore(m: Machine, states: set<nat>, q: nat)
    ensures Marked(m, states + {q}) == Marked(m, states) + (if q in m.accepts then {m.accepts[q]} else {})
  {
    var more := if q in m.accepts then {m.accepts[q]} else {};
    forall n | n in Marked(m, states) + more ensures n in Marked(m, states + {q}) {
      if n in Marked(m, states) {
        var p :| p in states && p in m.accepts && m.accepts[p] == n;
        assert p in states + {q};
      } else {
        assert q in states + {q} && q in m.accepts;
      }
      assert Sets(m, states + {q}, n);
    }
  }

  lemma FollowingIs(m: Machine, states: set<nat>, c: char, following: set<nat>)
    requires InRange(m) && forall p :: p in states ==> p < |m.edges|
    requires following == set p, k | p in states && 0 <= k < |m.edges[p]| && m.edges[p][k].Char?
                              && Accepts(m.alphabet, m.edges[p][k].matcher, c) :: m.edges[p][k].target
    ensures following == Following(m, states, c)
  {
    forall q | q in following ensures q in Following(m, states, c) {
      var p, k :| p in states && 0 <= k < |m.edges[p]| && m.edges[p][k].Char?
                  && Accepts(m.alphabet, m.edges[p][k].matcher, c) && m.edges[p][k].target == q;
      assert Consumes(m, p, q, c);
      FollowingMeans(m, states, c, q);
    }
    forall q | q in Following(m, states, c) ensures q in following {
      FollowingMeans(m, states, c, q);
      var p :| p in states && Consumes(m, p, q, c);
      var k :| 0 <= k < |m.edges[p]| && m.edges[p][k].target == q && m.edges[p][k].Char?
                    && Accepts(m.alphabet, m.edges[p][k].matcher, c);
    }
  }

  /** No position of `t` from `a` to `b` refuses to be stepped over. */
  ghost predicate Clear(m: Machine, t: string, a: nat, b: nat)
    decreases b
  {
    a >= b || (Clear(m, t, a, b - 1) && !StuckAt(m, t, b - 1))
  }

  ghost predicate StuckAt(m: Machine, t: string, y: nat) {
    y <= |t| && Stuck(m, Occupied(m, t, y))
  }

  lemma StuckPrefix(m: Machine, t: string, u: string, y: nat)
    requires y < |t|
    ensures StuckAt(m, t + u, y) <==> StuckAt(m, t, y)
  {
    OccupiedPrefix(m, t, u, y);
  }

  class PatternScanner {
    const machine: Machine
    var active: set<nat>
    var previous: Option<char>
    var beginning: bool
    var matches: set<nat>
    ghost var seen: string
    ghost const patterns: seq<Pattern>
    ghost const lasts: seq<nat>
    ghost const owners: seq<nat>
    ghost const labels: seq<seq<Token>>

    /** The machine was compiled from `patterns`. */
    ghost predicate Compiled() {
      && Runs(machine, lasts, patterns, owners, labels)
      && Halting(machine.alphabet, machine.edges, machine.starts, patterns, owners, labels)
    }

    ghost predicate Valid()
      reads this
    {
      && InRange(machine)
      && active == Active(machine, seen, |seen|)
      && previous == Before(seen, |seen|) && beginning == (seen == "")
      && matches == Hits(machine, seen, |seen|)
    }

    /** `machine.scanner()`. */
    constructor (source: StreamingPatterns)
      requires source.Valid()
      ensures Valid() && Compiled() && seen == ""
      ensures machine == MachineOf(source) && patterns == source.patterns
    {
      machine := Machine(source.alphabet, source.edges, source.starts, source.accepts);
      patterns, lasts, owners, labels := source.patterns, source.lasts, source.owners, source.labels;
      active, previous, beginning, matches := {}, None, true, {};
      seen := "";
      new;
      ValidInRange(source);
    }

    /** Consume one character. */
    method FeedOne(c: char) returns (ok: bool)
      requires Valid()
      modifies this
      ensures seen == old(seen) + [c]
      ensures ok <==> !StuckAt(machine, seen, |old(seen)|)
      ensures ok ==> Valid()
    {
      hide InRange, Closure, Following, Marked, Stuck;
      ghost var m := machine;
      ghost var t := seen + [c];
      var following, hits;
      ActiveInRange(m, seen, |seen|);
      assert Before(t, |seen|) == previous && After(t, |seen|) == Some(c) && (|seen| == 0) == beginning;
      ActivePrefix(m, seen, [c], |seen|);
      ok, following, hits := Step(machine, active, previous, Some(c), beginning);
      HitsPrefix(m, seen, [c], |seen|);
      active, previous, beginning := following, Some(c), false;
      matches := matches + hits;
      seen := t;
    }

    /** `feed(text)`. */
    method Feed(text: string) returns (ok: bool)
      requires Valid()
      modifies this
      ensures ok ==> Valid() && seen == old(seen) + text
      ensures ok <==> Clear(machine, old(seen) + text, |old(seen)|, |old(seen) + text|)
    {
      hide InRange, Active, Occupied, Hits, StuckAt, Before;
      ghost var m, before := machine, seen;
      ghost var t := seen + text;
      ok := true;
      for k := 0 to |text|
        invariant ok && Valid() && seen == before + text[..k]
        invariant Clear(m, t, |before|, |before| + k)
      {
        ok := FeedOne(text[k]);
        assert before + text[..k + 1] == before + text[..k] + [text[k]];
        assert t == seen + text[k + 1..];
        StuckPrefix(m, seen, text[k + 1..], |before| + k);
        if !ok {
          StuckStays(m, t, |before|, |before| + k, |t|);
          return;
        }
      }
      assert text[..|text|] == text;
    }

    /** `finish()`. */
    method Finish() returns (ok: bool, result: set<nat>)
      requires Valid() && Compiled()
      ensures ok <==> !StuckAt(machine, seen, |seen|)
      ensures ok ==> result == Scanned(machine, seen)
      ensures ok ==> forall n: nat :: n in result <==>
        n < |patterns| && Found(machine.alphabet, patterns[n], seen)
    {
      ghost var m := machine;
      ActiveInRange(m, seen, |seen|);
      var ignored;
      ok, ignored, result := Step(machine, active, previous, None, beginning);
      result := matches + result;
      if ok {
        forall n: nat
          ensures n in result <==> n < |patterns| && Found(machine.alphabet, patterns[n], seen)
        {
          ScanIsSearch(m, lasts, patterns, owners, labels, seen, n);
        }
      }
    }
  }

  /** Some pattern stops at position `y` of `t`. */
  ghost predicate StopsAt(al: Alphabet, patterns: seq<Pattern>, t: string, y: nat) {
    exists n: nat, i: nat :: n < |patterns| && Stops(al, patterns[n].tokens, patterns[n].flags, t, i, y)
  }

  /** The simulation meets an unknown anchor exactly where some pattern stops. */
  lemma StuckIsStop(m: Machine, lasts: seq<nat>, patterns: seq<Pattern>, owners: seq<nat>, labels: seq<seq<Token>>,
                    t: string, y: nat)
    requires Runs(m, lasts, patterns, owners, labels) && Halting(m.alphabet, m.edges, m.starts, patterns, owners, labels)
    requires y <= |t|
    ensures StuckAt(m, t, y) <==> StopsAt(m.alphabet, patterns, t, y)
  {
    hide EdgeKept, Complete, MatchesEmpty, Closure, Refused, Stops, MatchSeq, Reach;
    if StuckAt(m, t, y) {
      var q :| q in Occupied(m, t, y) && Refused(m.edges, q);
      OccupiedJustified(m, lasts, patterns, owners, labels, t, y);
      assert HaltKept(m.alphabet, patterns, owners, labels, q);
      assert StopsAfter(m.alphabet, patterns[owners[q]].flags, labels[q], patterns[owners[q]].tokens);
    }
    if StopsAt(m.alphabet, patterns, t, y) {
      var n: nat, i: nat :| n < |patterns| && Stops(m.alphabet, patterns[n].tokens, patterns[n].flags, t, i, y);
      StopFits(m.alphabet, patterns[n].tokens, patterns[n].flags, t, i, y);
      assert StopsReached(m.alphabet, m.edges, patterns[n].tokens, patterns[n].flags, m.starts[n]);
      var q: nat :| Refused(m.edges, q) && Reach(m.alphabet, m.edges, t, Config(m.starts[n], i), Config(q, y));
      RunsInRange(m, lasts, patterns, owners, labels);
      ReachOccupied(m, t, n, i, q, y);
    }
  }

  /** What is reached from a start is occupied. */
  lemma ReachOccupied(m: Machine, t: string, n: nat, i: nat, q: nat, y: nat)
    requires InRange(m) && n < |m.starts| && i <= |t|
    requires Reach(m.alphabet, m.edges, t, Config(m.starts[n], i), Config(q, y))
    ensures y <= |t| && q in Occupied(m, t, y)
  {
    hide Closure, InRange;
    var path: seq<Config> :| IsPath(m.alphabet, m.edges, t, path)
      && path[0] == Config(m.starts[n], i) && path[|path| - 1] == Config(q, y);
    ClosureSeeds(m, Active(m, t, i) + StartSet(m), Before(t, i), After(t, i), i == 0);
    assert m.starts[n] in StartSet(m);
    PathOccupied(m, t, path);
  }

  lemma {:induction false} ClearMeans(m: Machine, lasts: seq<nat>, patterns: seq<Pattern>, owners: seq<nat>,
                                      labels: seq<seq<Token>>, t: string, b: nat)
    requires Runs(m, lasts, patterns, owners, labels) && Halting(m.alphabet, m.edges, m.starts, patterns, owners, labels)
    requires b <= |t| + 1
    ensures Clear(m, t, 0, b) <==> forall y :: 0 <= y < b ==> !StopsAt(m.alphabet, patterns, t, y)
    decreases b
  {
    hide StopsAt, StuckAt, Runs, Halting;
    if b > 0 {
      ClearMeans(m, lasts, patterns, owners, labels, t, b - 1);
      StuckIsStop(m, lasts, patterns, owners, labels, t, b - 1);
    }
  }

  /** A front of the pattern that ends at an unknown anchor matches some span of `t`. */
  ghost predicate Halts(al: Alphabet, p: Pattern, t: string) {
    exists i: nat, x: nat :: Stops(al, p.tokens, p.flags, t, i, x)
  }

  /** A scan of the whole text is refused exactly when some pattern halts on it. */
  lemma ClearUnlessHalts(m: Machine, lasts: seq<nat>, patterns: seq<Pattern>, owners: seq<nat>,
                         labels: seq<seq<Token>>, t: string)
    requires Runs(m, lasts, patterns, owners, labels) && Halting(m.alphabet, m.edges, m.starts, patterns, owners, labels)
    ensures Clear(m, t, 0, |t| + 1) <==> forall n :: 0 <= n < |patterns| ==> !Halts(m.alphabet, patterns[n], t)
  {
    hide Stops, Clear, Runs, Halting;
    ClearMeans(m, lasts, patterns, owners, labels, t, |t| + 1);
    if y :| 0 <= y < |t| + 1 && StopsAt(m.alphabet, patterns, t, y) {
      var n: nat, i: nat :| n < |patterns| && Stops(m.alphabet, patterns[n].tokens, patterns[n].flags, t, i, y);
      assert Halts(m.alphabet, patterns[n], t);
    }
    if n :| 0 <= n < |patterns| && Halts(m.alphabet, patterns[n], t) {
      var i: nat, x: nat :| Stops(m.alphabet, patterns[n].tokens, patterns[n].flags, t, i, x);
      StopFits(m.alphabet, patterns[n].tokens, patterns[n].flags, t, i, x);
      assert StopsAt(m.alphabet, patterns, t, x);
    }
  }

  lemma AnchoredNeverHalts(al: Alphabet, p: Pattern, t: string)
    requires Anchored(p.tokens)
    ensures !Halts(al, p, t)
  {
    if i: nat, x: nat :| Stops(al, p.tokens, p.flags, t, i, x) {
      AnchoredGoesOn(al, p.tokens, p.flags, t, i, x);
    }
  }

  lemma {:induction false} ClearPrefix(m: Machine, t: string, u: string, a: nat, b: nat)
    requires a <= b <= |t| && Clear(m, t + u, 0, a)
    ensures Clear(m, t + u, 0, b) <==> Clear(m, t, a, b)
    decreases b
  {
    if a < b {
      ClearPrefix(m, t, u, a, b - 1);
      StuckPrefix(m, t, u, b - 1);
    }
  }

  /** A scan that fails at one position fails for the whole text. */
  lemma {:induction false} StuckStays(m: Machine, t: string, a: nat, y: nat, b: nat)
    requires a <= y < b && StuckAt(m, t, y)
    ensures !Clear(m, t, a, b)
    decreases b
  {
    if y < b - 1 {
      StuckStays(m, t, a, y, b - 1);
    }
  }

  lemma {:induction false} NotClearStays(m: Machine, t: string, b: nat, c: nat)
    requires b <= c && !Clear(m, t, 0, b)
    ensures !Clear(m, t, 0, c)
    decreases c
  {
    if b < c {
      NotClearStays(m, t, b, c - 1);
    }
  }

  /** The loop of `scan_chunks`. */
  method FeedAll(scanner: PatternScanner, chunks: seq<string>) returns (ok: bool)
    requires scanner.Valid() && scanner.seen == ""
    modifies scanner
    ensures ok <==> Clear(scanner.machine, Concat(chunks), 0, |Concat(chunks)|)
    ensures ok ==> scanner.Valid() && scanner.seen == Concat(chunks)
  {
    ghost var m, t := scanner.machine, Concat(chunks);
    ok := true;
    var k := 0;
    assert chunks[..0] == [];
    while k < |chunks|
      invariant 0 <= k <= |chunks| && ok
      invariant scanner.Valid() && scanner.seen == Concat(chunks[..k])
      invariant |scanner.seen| <= |t| && Clear(m, t, 0, |scanner.seen|)
    {
      ghost var before := scanner.seen;
      ConcatSnoc(chunks, k);
      ConcatSplit(chunks, k + 1);
      ghost var after := before + chunks[k];
      assert t == after + Concat(chunks[k + 1..]);
      ClearPrefix(m, after, Concat(chunks[k + 1..]), |before|, |after|);
      ok := scanner.Feed(chunks[k]);
      if !ok {
        NotClearStays(m, t, |after|, |t|);
        return;
      }
      k := k + 1;
    }
    assert chunks[..k] == chunks;
  }

  /**
   `scan_chunks(chunks)`: the answer depends on the whole text only.  It fails exactly when a
   front of some pattern that ends at an unknown anchor matches a span of the text, and
   otherwise is the set of patterns that match one.  Patterns of known anchors never fail.
   */
  method ScanChunks(machine: StreamingPatterns, chunks: seq<string>) returns (ok: bool, result: set<nat>)
    requires machine.Valid()
    ensures ok <==> forall n :: 0 <= n < |machine.patterns| ==> !Halts(machine.alphabet, machine.patterns[n], Concat(chunks))
    ensures ok ==> forall n: nat :: n in result <==>
      (n < |machine.patterns| && Found(machine.alphabet, machine.patterns[n], Concat(chunks)))
    ensures (forall n :: 0 <= n < |machine.patterns| ==> Anchored(machine.patterns[n].tokens)) ==> ok
  {
    hide Halting, Runs, Halts, Anchored;
    result := {};
    forall n | 0 <= n < |machine.patterns| && Anchored(machine.patterns[n].tokens)
      ensures !Halts(machine.alphabet, machine.patterns[n], Concat(chunks)) {
      AnchoredNeverHalts(machine.alphabet, machine.patterns[n], Concat(chunks));
    }
    var scanner := new PatternScanner(machine);
    ClearUnlessHalts(scanner.machine, scanner.lasts, scanner.patterns, scanner.owners, scanner.labels, Concat(chunks));
    ok := FeedAll(scanner, chunks);
    if ok {
      ok, result := scanner.Finish();
    }
  }
}
