/**
 The automaton the compiler builds, as a value: an edge list per state.  Two ideas carry
 the whole correctness proof.  Soundness: label every state with a token list that
 describes the spans after which the state can be occupied, and check one edge at a time.
 Completeness: a matching span is a path.
 */
module RegexAutomaton {
  import opened RegexSyntax

  datatype Edge =
    | Char(matcher: Matcher, target: nat)
    | Epsilon(target: nat)
    | Assert(anchor: Anchor, flags: set<Flag>, target: nat)

  type Edges = seq<seq<Edge>>

  /** State `q` waits on an anchor that a scan refuses. */
  predicate Refused(edges: Edges, q: nat) {
    q < |edges| && exists k :: 0 <= k < |edges[q]| && edges[q][k].Assert? && edges[q][k].anchor == OtherAnchor
  }

  /** Edge `e` may be taken at position `x` of `t`, arriving at position `y`. */
  predicate Fires(al: Alphabet, e: Edge, t: string, x: nat, y: nat) {
    x <= y <= |t| &&
    match e
    case Char(m, _) => y == x + 1 && Accepts(al, m, t[x])
    case Epsilon(_) => x == y
    case Assert(anchor, flags, _) => x == y && HoldsAt(al, anchor, flags, t, x)
  }

  datatype Config = Config(state: nat, position: nat)

  predicate StepBy(al: Alphabet, edges: Edges, t: string, c: Config, d: Config) {
    && c.state < |edges|
    && (exists k :: 0 <= k < |edges[c.state]| && edges[c.state][k].target == d.state
                    && Fires(al, edges[c.state][k], t, c.position, d.position))
  }

  ghost predicate IsPath(al: Alphabet, edges: Edges, t: string, path: seq<Config>) {
    |path| > 0 && forall k :: 0 < k < |path| ==> StepBy(al, edges, t, path[k - 1], path[k])
  }

  ghost predicate Reach(al: Alphabet, edges: Edges, t: string, c: Config, d: Config) {
    exists path: seq<Config> :: IsPath(al, edges, t, path) && path[0] == c && path[|path| - 1] == d
  }

  lemma ReachSelf(al: Alphabet, edges: Edges, t: string, c: Config)
    ensures Reach(al, edges, t, c, c)
  {
    assert IsPath(al, edges, t, [c]);
  }

  lemma ReachEdge(al: Alphabet, edges: Edges, t: string, c: Config, k: nat, y: nat)
    requires c.state < |edges| && k < |edges[c.state]| && Fires(al, edges[c.state][k], t, c.position, y)
    ensures Reach(al, edges, t, c, Config(edges[c.state][k].target, y))
  {
    assert IsPath(al, edges, t, [c, Config(edges[c.state][k].target, y)]);
  }

  lemma ReachTrans(al: Alphabet, edges: Edges, t: string, c: Config, d: Config, e: Config)
    requires Reach(al, edges, t, c, d) && Reach(al, edges, t, d, e)
    ensures Reach(al, edges, t, c, e)
  {
    var p: seq<Config> :| IsPath(al, edges, t, p) && p[0] == c && p[|p| - 1] == d;
    var q: seq<Config> :| IsPath(al, edges, t, q) && q[0] == d && q[|q| - 1] == e;
    var r := p + q[1..];
    forall k | 0 < k < |r| ensures StepBy(al, edges, t, r[k - 1], r[k]) {
      if k >= |p| {
        assert r[k] == q[k - |p| + 1] && r[k - 1] == q[k - |p|];
      }
    }
    assert IsPath(al, edges, t, r);
  }

  /** `after` has at least the edges of `before`. */
  ghost predicate Extends(before: Edges, after: Edges) {
    |before| <= |after| && forall q :: 0 <= q < |before| ==> before[q] <= after[q]
  }

  lemma ReachExtends(al: Alphabet, before: Edges, after: Edges, t: string, c: Config, d: Config)
    requires Extends(before, after) && Reach(al, before, t, c, d)
    ensures Reach(al, after, t, c, d)
  {
    var p: seq<Config> :| IsPath(al, before, t, p) && p[0] == c && p[|p| - 1] == d;
    forall k | 0 < k < |p| ensures StepBy(al, after, t, p[k - 1], p[k]) {
      assert StepBy(al, before, t, p[k - 1], p[k]);
      var q := p[k - 1].state;
      var e :| 0 <= e < |before[q]| && before[q][e].target == p[k].state
               && Fires(al, before[q][e], t, p[k - 1].position, p[k].position);
      assert after[q][e] == before[q][e];
    }
    assert IsPath(al, after, t, p);
  }

  // ---------------------------------------------------------------- Completeness

  /** Every span matched by `ts` is the span of a path from `p` to `q`. */
  ghost predicate Complete(al: Alphabet, edges: Edges, ts: seq<Token>, fl: set<Flag>, p: nat, q: nat) {
    forall t: string, i: nat, j: nat ::
      MatchSeq(al, ts, fl, t, i, j) ==> Reach(al, edges, t, Config(p, i), Config(q, j))
  }

  lemma CompleteExtends(al: Alphabet, before: Edges, after: Edges, ts: seq<Token>, fl: set<Flag>, p: nat, q: nat)
    requires Extends(before, after) && Complete(al, before, ts, fl, p, q)
    ensures Complete(al, after, ts, fl, p, q)
  {
    forall t: string, i: nat, j: nat | MatchSeq(al, ts, fl, t, i, j)
      ensures Reach(al, after, t, Config(p, i), Config(q, j))
    {
      ReachExtends(al, before, after, t, Config(p, i), Config(q, j));
    }
  }

  lemma CompleteNil(al: Alphabet, edges: Edges, fl: set<Flag>, p: nat)
    ensures Complete(al, edges, [], fl, p, p)
  {
    forall t: string, i: nat, j: nat | MatchSeq(al, [], fl, t, i, j)
      ensures Reach(al, edges, t, Config(p, i), Config(p, j))
    {
      ReachSelf(al, edges, t, Config(p, i));
    }
  }

  lemma CompleteSnoc(al: Alphabet, edges: Edges, ts: seq<Token>, tok: Token, fl: set<Flag>, p: nat, q: nat, r: nat)
    requires Complete(al, edges, ts, fl, p, q) && Complete(al, edges, [tok], fl, q, r)
    ensures Complete(al, edges, ts + [tok], fl, p, r)
  {
    forall t: string, i: nat, j: nat | MatchSeq(al, ts + [tok], fl, t, i, j)
      ensures Reach(al, edges, t, Config(p, i), Config(r, j))
    {
      var k := UnSnoc(al, ts, tok, fl, t, i, j);
      MatchOne(al, tok, fl, t, k, j);
      ReachTrans(al, edges, t, Config(p, i), Config(q, k), Config(r, j));
    }
  }

  // ---------------------------------------------------------------- Soundness

  /** `a` matches no span that `b` does not match. */
  ghost predicate Included(al: Alphabet, fl: set<Flag>, a: seq<Token>, b: seq<Token>) {
    forall t: string, i: nat, j: nat :: MatchSeq(al, a, fl, t, i, j) ==> MatchSeq(al, b, fl, t, i, j)
  }

  /** Taking `e` from a state labelled `a` is accounted for by label `b`. */
  ghost predicate SoundEdge(al: Alphabet, fl: set<Flag>, a: seq<Token>, e: Edge, b: seq<Token>) {
    forall t: string, i: nat, x: nat, y: nat ::
      MatchSeq(al, a, fl, t, i, x) && Fires(al, e, t, x, y) ==> MatchSeq(al, b, fl, t, i, y)
  }

  /** The states from `lo` on keep to themselves and every edge respects the labels. */
  ghost predicate Sound(al: Alphabet, fl: set<Flag>, edges: Edges, lo: nat, labels: seq<seq<Token>>) {
    && |edges| == lo + |labels|
    && forall q, k :: lo <= q < |edges| && 0 <= k < |edges[q]| ==>
         && lo <= edges[q][k].target < |edges|
         && SoundEdge(al, fl, labels[q - lo], edges[q][k], labels[edges[q][k].target - lo])
  }

  ghost predicate MatchesEmpty(al: Alphabet, ts: seq<Token>, fl: set<Flag>) {
    forall t: string, i: nat :: i <= |t| ==> MatchSeq(al, ts, fl, t, i, i)
  }

  lemma SoundNewState(al: Alphabet, fl: set<Flag>, edges: Edges, lo: nat, labels: seq<seq<Token>>, ts: seq<Token>)
    requires Sound(al, fl, edges, lo, labels)
    ensures Sound(al, fl, edges + [[]], lo, labels + [ts])
  {
  }

  lemma SoundNewEdge(al: Alphabet, fl: set<Flag>, edges: Edges, lo: nat, labels: seq<seq<Token>>, q: nat, e: Edge)
    requires Sound(al, fl, edges, lo, labels)
    requires lo <= q < |edges| && lo <= e.target < |edges|
    requires SoundEdge(al, fl, labels[q - lo], e, labels[e.target - lo])
    ensures Sound(al, fl, edges[q := edges[q] + [e]], lo, labels)
  {
  }

  /** A state without outgoing edges may be given a wider label. */
  lemma SoundRelabel(al: Alphabet, fl: set<Flag>, edges: Edges, lo: nat, labels: seq<seq<Token>>, q: nat, ts: seq<Token>)
    requires Sound(al, fl, edges, lo, labels)
    requires lo <= q < |edges| && edges[q] == []
    requires Included(al, fl, labels[q - lo], ts)
    ensures Sound(al, fl, edges, lo, labels[q - lo := ts])
  {
    var labels' := labels[q - lo := ts];
    forall p, k | lo <= p < |edges| && 0 <= k < |edges[p]|
      ensures lo <= edges[p][k].target < |edges|
      ensures SoundEdge(al, fl, labels'[p - lo], edges[p][k], labels'[edges[p][k].target - lo])
    {
      assert SoundEdge(al, fl, labels[p - lo], edges[p][k], labels[edges[p][k].target - lo]);
      assert labels'[p - lo] == labels[p - lo];
    }
  }

  /** The label of a state of a nested fragment that is entered after `prefix`. */
  function Nested(prefix: seq<Token>, add: set<Flag>, remove: set<Flag>, ts: seq<Token>): seq<Token> {
    prefix + [Subpattern(add, remove, ts)]
  }

  lemma NestedSplit(al: Alphabet, fl: set<Flag>, prefix: seq<Token>, add: set<Flag>, remove: set<Flag>,
                    ts: seq<Token>, t: string, i: nat, j: nat) returns (k: nat)
    requires MatchSeq(al, Nested(prefix, add, remove, ts), fl, t, i, j)
    ensures MatchSeq(al, prefix, fl, t, i, k) && MatchSeq(al, ts, Scoped(fl, add, remove), t, k, j)
  {
    k := UnSnoc(al, prefix, Subpattern(add, remove, ts), fl, t, i, j);
  }

  lemma NestedJoin(al: Alphabet, fl: set<Flag>, prefix: seq<Token>, add: set<Flag>, remove: set<Flag>,
                   ts: seq<Token>, t: string, i: nat, k: nat, j: nat)
    requires MatchSeq(al, prefix, fl, t, i, k) && MatchSeq(al, ts, Scoped(fl, add, remove), t, k, j)
    ensures MatchSeq(al, Nested(prefix, add, remove, ts), fl, t, i, j)
  {
    Snoc(al, prefix, Subpattern(add, remove, ts), fl, t, i, k, j);
  }

  lemma SoundEdgeNested(al: Alphabet, fl: set<Flag>, prefix: seq<Token>, add: set<Flag>, remove: set<Flag>,
                        a: seq<Token>, e: Edge, b: seq<Token>)
    requires SoundEdge(al, Scoped(fl, add, remove), a, e, b)
    ensures SoundEdge(al, fl, Nested(prefix, add, remove, a), e, Nested(prefix, add, remove, b))
  {
    forall t: string, i: nat, x: nat, y: nat
      | MatchSeq(al, Nested(prefix, add, remove, a), fl, t, i, x) && Fires(al, e, t, x, y)
      ensures MatchSeq(al, Nested(prefix, add, remove, b), fl, t, i, y)
    {
      var k := NestedSplit(al, fl, prefix, add, remove, a, t, i, x);
      NestedJoin(al, fl, prefix, add, remove, b, t, i, k, y);
    }
  }

  function NestedAll(prefix: seq<Token>, add: set<Flag>, remove: set<Flag>, labels: seq<seq<Token>>): (r: seq<seq<Token>>)
  {
    seq(|labels|, k requires 0 <= k < |labels| => Nested(prefix, add, remove, labels[k]))
  }

  /** A sound fragment appended after a sound one, seen from outside, is sound. */
  lemma SoundAppend(al: Alphabet, fl: set<Flag>, before: Edges, after: Edges, lo: nat, labels: seq<seq<Token>>,
                    prefix: seq<Token>, add: set<Flag>, remove: set<Flag>, inner: seq<seq<Token>>)
    requires Sound(al, fl, before, lo, labels)
    requires |before| <= |after| && after[..|before|] == before
    requires Sound(al, Scoped(fl, add, remove), after, |before|, inner)
    ensures Sound(al, fl, after, lo, labels + NestedAll(prefix, add, remove, inner))
  {
    var all := labels + NestedAll(prefix, add, remove, inner);
    forall q, k | lo <= q < |after| && 0 <= k < |after[q]|
      ensures lo <= after[q][k].target < |after|
      ensures SoundEdge(al, fl, all[q - lo], after[q][k], all[after[q][k].target - lo])
    {
      var e := after[q][k];
      if q < |before| {
        assert after[q] == before[q];
      } else {
        SoundEdgeNested(al, fl, prefix, add, remove,
                        inner[q - |before|], e, inner[e.target - |before|]);
      }
    }
  }

  // ---------------------------------------------------------------- Repetition

  /** Every span of `n` body matches, for `low <= n < high`, is the span of a path. */
  ghost predicate CompletePower(al: Alphabet, edges: Edges, body: seq<Token>, fl: set<Flag>,
                                low: nat, high: nat, p: nat, q: nat) {
    forall t: string, i: nat, j: nat, n: nat ::
      low <= n < high && MatchPower(al, body, fl, n, t, i, j) ==> Reach(al, edges, t, Config(p, i), Config(q, j))
  }

  lemma CompletePowerExtends(al: Alphabet, before: Edges, after: Edges, body: seq<Token>, fl: set<Flag>,
                             low: nat, high: nat, p: nat, q: nat)
    requires Extends(before, after) && CompletePower(al, before, body, fl, low, high, p, q)
    ensures CompletePower(al, after, body, fl, low, high, p, q)
  {
    forall t: string, i: nat, j: nat, n: nat | low <= n < high && MatchPower(al, body, fl, n, t, i, j)
      ensures Reach(al, after, t, Config(p, i), Config(q, j))
    {
      ReachExtends(al, before, after, t, Config(p, i), Config(q, j));
    }
  }

  lemma CompletePowerZero(al: Alphabet, edges: Edges, body: seq<Token>, fl: set<Flag>, p: nat)
    ensures CompletePower(al, edges, body, fl, 0, 1, p, p)
  {
    forall t: string, i: nat, j: nat, n: nat | 0 <= n < 1 && MatchPower(al, body, fl, n, t, i, j)
      ensures Reach(al, edges, t, Config(p, i), Config(p, j))
    {
      ReachSelf(al, edges, t, Config(p, i));
    }
  }

  lemma CompletePowerNext(al: Alphabet, edges: Edges, body: seq<Token>, fl: set<Flag>, n: nat, p: nat, q: nat, r: nat)
    requires CompletePower(al, edges, body, fl, n, n + 1, p, q)
    requires Complete(al, edges, body, fl, q, r)
    ensures CompletePower(al, edges, body, fl, n + 1, n + 2, p, r)
  {
    forall t: string, i: nat, j: nat, m: nat | n + 1 <= m < n + 2 && MatchPower(al, body, fl, m, t, i, j)
      ensures Reach(al, edges, t, Config(p, i), Config(r, j))
    {
      var k := PowerUnsnoc(al, body, fl, n, t, i, j);
      ReachTrans(al, edges, t, Config(p, i), Config(q, k), Config(r, j));
    }
  }

  /** Following one more empty edge. */
  lemma ReachEmptyEdge(al: Alphabet, edges: Edges, t: string, c: Config, q: nat, k: nat, y: nat)
    requires q < |edges| && k < |edges[q]| && edges[q][k].Epsilon? && y <= |t|
    requires Reach(al, edges, t, c, Config(q, y))
    ensures Reach(al, edges, t, c, Config(edges[q][k].target, y))
  {
    ReachEdge(al, edges, t, Config(q, y), k, y);
    ReachTrans(al, edges, t, c, Config(q, y), Config(edges[q][k].target, y));
  }

  lemma CompleteEmptyEdge(al: Alphabet, edges: Edges, ts: seq<Token>, fl: set<Flag>, p: nat, q: nat, k: nat)
    requires Complete(al, edges, ts, fl, p, q)
    requires q < |edges| && k < |edges[q]| && edges[q][k].Epsilon?
    ensures Complete(al, edges, ts, fl, p, edges[q][k].target)
  {
    forall t: string, i: nat, j: nat | MatchSeq(al, ts, fl, t, i, j)
      ensures Reach(al, edges, t, Config(p, i), Config(edges[q][k].target, j))
    {
      ReachEmptyEdge(al, edges, t, Config(p, i), q, k, j);
    }
  }

  lemma CompletePowerEmptyEdge(al: Alphabet, edges: Edges, body: seq<Token>, fl: set<Flag>,
                               low: nat, high: nat, p: nat, q: nat, k: nat)
    requires CompletePower(al, edges, body, fl, low, high, p, q)
    requires q < |edges| && k < |edges[q]| && edges[q][k].Epsilon?
    ensures CompletePower(al, edges, body, fl, low, high, p, edges[q][k].target)
  {
    forall t: string, i: nat, j: nat, n: nat | low <= n < high && MatchPower(al, body, fl, n, t, i, j)
      ensures Reach(al, edges, t, Config(p, i), Config(edges[q][k].target, j))
    {
      ReachEmptyEdge(al, edges, t, Config(p, i), q, k, j);
    }
  }

  /** A loop from `q` back to `q` extends the reachable repetition counts without end. */
  lemma {:induction false} ReachLoop(al: Alphabet, edges: Edges, body: seq<Token>, fl: set<Flag>, minimum: nat, n: nat,
                                     p: nat, q: nat, t: string, i: nat, j: nat)
    requires CompletePower(al, edges, body, fl, minimum, minimum + 1, p, q)
    requires Complete(al, edges, body, fl, q, q)
    requires minimum <= n && MatchPower(al, body, fl, n, t, i, j)
    ensures Reach(al, edges, t, Config(p, i), Config(q, j))
    decreases n
  {
    if n > minimum {
      var k := PowerUnsnoc(al, body, fl, n - 1, t, i, j);
      ReachLoop(al, edges, body, fl, minimum, n - 1, p, q, t, i, k);
      ReachTrans(al, edges, t, Config(p, i), Config(q, k), Config(q, j));
    }
  }

  /** Label `a` describes at most a prefix followed by `n` body matches, `low <= n` within `high`. */
  function Repeated(prefix: seq<Token>, low: nat, high: Bound, body: seq<Token>): seq<Token> {
    prefix + [MaxRepeat(low, high, body)]
  }

  lemma RepeatedZero(al: Alphabet, fl: set<Flag>, prefix: seq<Token>, high: Bound, body: seq<Token>)
    ensures Included(al, fl, prefix, Repeated(prefix, 0, high, body))
  {
    forall t: string, i: nat, j: nat | MatchSeq(al, prefix, fl, t, i, j)
      ensures MatchSeq(al, Repeated(prefix, 0, high, body), fl, t, i, j)
    {
      assert MatchPower(al, body, fl, 0, t, j, j);
      Snoc(al, prefix, MaxRepeat(0, high, body), fl, t, i, j, j);
    }
  }

  lemma RepeatedNext(al: Alphabet, fl: set<Flag>, prefix: seq<Token>, at: seq<Token>, n: nat, body: seq<Token>)
    requires Included(al, fl, at, Repeated(prefix, n, AtMost(n), body))
    ensures Included(al, fl, Nested(at, {}, {}, body), Repeated(prefix, n + 1, AtMost(n + 1), body))
  {
    forall t: string, i: nat, j: nat | MatchSeq(al, Nested(at, {}, {}, body), fl, t, i, j)
      ensures MatchSeq(al, Repeated(prefix, n + 1, AtMost(n + 1), body), fl, t, i, j)
    {
      assert Scoped(fl, {}, {}) == fl;
      var k := NestedSplit(al, fl, at, {}, {}, body, t, i, j);
      var m := UnSnoc(al, prefix, MaxRepeat(n, AtMost(n), body), fl, t, i, k);
      PowerSnoc(al, body, fl, n, t, m, k, j);
      Snoc(al, prefix, MaxRepeat(n + 1, AtMost(n + 1), body), fl, t, i, m, j);
    }
  }

  lemma RepeatedWiden(al: Alphabet, fl: set<Flag>, prefix: seq<Token>, n: nat, low: nat, high: Bound, body: seq<Token>)
    requires low <= n && Within(n, high)
    ensures Included(al, fl, Repeated(prefix, n, AtMost(n), body), Repeated(prefix, low, high, body))
  {
    forall t: string, i: nat, j: nat | MatchSeq(al, Repeated(prefix, n, AtMost(n), body), fl, t, i, j)
      ensures MatchSeq(al, Repeated(prefix, low, high, body), fl, t, i, j)
    {
      var m := UnSnoc(al, prefix, MaxRepeat(n, AtMost(n), body), fl, t, i, j);
      Snoc(al, prefix, MaxRepeat(low, high, body), fl, t, i, m, j);
    }
  }

  lemma RepeatedLoop(al: Alphabet, fl: set<Flag>, prefix: seq<Token>, low: nat, body: seq<Token>)
    ensures Included(al, fl, Nested(Repeated(prefix, low, Unbounded, body), {}, {}, body),
                     Repeated(prefix, low, Unbounded, body))
  {
    forall t: string, i: nat, j: nat
      | MatchSeq(al, Nested(Repeated(prefix, low, Unbounded, body), {}, {}, body), fl, t, i, j)
      ensures MatchSeq(al, Repeated(prefix, low, Unbounded, body), fl, t, i, j)
    {
      assert Scoped(fl, {}, {}) == fl;
      var k := NestedSplit(al, fl, Repeated(prefix, low, Unbounded, body), {}, {}, body, t, i, j);
      var m := UnSnoc(al, prefix, MaxRepeat(low, Unbounded, body), fl, t, i, k);
      var n: nat :| low <= n && MatchPower(al, body, fl, n, t, m, k);
      PowerSnoc(al, body, fl, n, t, m, k, j);
      Snoc(al, prefix, MaxRepeat(low, Unbounded, body), fl, t, i, m, j);
    }
  }
}
