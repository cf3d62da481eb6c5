/**
 When a scan refuses a text: a zero-width anchor that it does not know is only met while
 scanning.  The meaning is stated on patterns and texts: some front of a pattern that ends at
 such an anchor matches a span.  The rest of the file says it of the compiler's fragments.
 */
module RegexStops {
  import opened RegexSyntax
  import opened RegexAutomaton

  /** A front of `ts`, read under `fl`, matches the span `[i, x)` of `t`, and an unknown anchor comes next. */
  ghost predicate Stops(al: Alphabet, ts: seq<Token>, fl: set<Flag>, t: string, i: nat, x: nat)
    decreases ts, 0
  {
    i <= x <= |t| && ts != [] &&
    (|| StopsToken(al, ts[0], fl, t, i, x)
     || exists k: nat :: MatchToken(al, ts[0], fl, t, i, k) && Stops(al, ts[1..], fl, t, k, x))
  }

  ghost predicate StopsToken(al: Alphabet, tok: Token, fl: set<Flag>, t: string, i: nat, x: nat)
    decreases tok, 0
  {
    i <= x <= |t| &&
    match tok
    case Subpattern(add, remove, body) => Stops(al, body, Scoped(fl, add, remove), t, i, x)
    case Branch(branches) => exists b :: 0 <= b < |branches| && Stops(al, branches[b].tokens, fl, t, i, x)
    case MaxRepeat(_, maximum, body) =>
      exists n: nat, k: nat :: Within(n + 1, maximum) && MatchPower(al, body, fl, n, t, i, k) && Stops(al, body, fl, t, k, x)
    case At(anchor) => anchor == OtherAnchor && i == x
    case _ => false
  }

  /** Patterns whose anchors are all known never stop. */
  lemma {:induction false} AnchoredGoesOn(al: Alphabet, ts: seq<Token>, fl: set<Flag>, t: string, i: nat, x: nat)
    requires Anchored(ts)
    ensures !Stops(al, ts, fl, t, i, x)
    decreases ts, 0
  {
    if Stops(al, ts, fl, t, i, x) {
      AnchoredTokenGoesOn(al, ts[0], fl, t, i, x);
      var k: nat :| MatchToken(al, ts[0], fl, t, i, k) && Stops(al, ts[1..], fl, t, k, x);
      AnchoredGoesOn(al, ts[1..], fl, t, k, x);
    }
  }

  lemma {:induction false} AnchoredTokenGoesOn(al: Alphabet, tok: Token, fl: set<Flag>, t: string, i: nat, x: nat)
    requires AnchoredToken(tok)
    ensures !StopsToken(al, tok, fl, t, i, x)
    decreases tok, 0
  {
    if StopsToken(al, tok, fl, t, i, x) {
      match tok
      case Subpattern(add, remove, body) =>
        AnchoredGoesOn(al, body, Scoped(fl, add, remove), t, i, x);
      case Branch(branches) =>
        var b :| 0 <= b < |branches| && Stops(al, branches[b].tokens, fl, t, i, x);
        AnchoredGoesOn(al, branches[b].tokens, fl, t, i, x);
      case MaxRepeat(_, maximum, body) =>
        var n: nat, k: nat :| Within(n + 1, maximum) && MatchPower(al, body, fl, n, t, i, k) && Stops(al, body, fl, t, k, x);
        AnchoredGoesOn(al, body, fl, t, k, x);
      case _ =>
    }
  }

  // ---------------------------------------------------------------- Laws

  lemma StopsCons(al: Alphabet, ts: seq<Token>, fl: set<Flag>, t: string, i: nat, k: nat, x: nat)
    requires ts != [] && MatchToken(al, ts[0], fl, t, i, k) && Stops(al, ts[1..], fl, t, k, x)
    ensures Stops(al, ts, fl, t, i, x)
  {
  }

  lemma StopsOne(al: Alphabet, tok: Token, fl: set<Flag>, t: string, i: nat, x: nat)
    ensures Stops(al, [tok], fl, t, i, x) <==> StopsToken(al, tok, fl, t, i, x)
  {
    assert [tok][1..] == [];
  }

  /** What follows does not matter. */
  lemma {:induction false} StopsFront(al: Alphabet, a: seq<Token>, b: seq<Token>, fl: set<Flag>, t: string, i: nat, x: nat)
    requires Stops(al, a, fl, t, i, x)
    ensures Stops(al, a + b, fl, t, i, x)
    decreases |a|
  {
    assert (a + b)[0] == a[0] && (a + b)[1..] == a[1..] + b;
    if !StopsToken(al, a[0], fl, t, i, x) {
      var k: nat :| MatchToken(al, a[0], fl, t, i, k) && Stops(al, a[1..], fl, t, k, x);
      StopsFront(al, a[1..], b, fl, t, k, x);
      StopsCons(al, a + b, fl, t, i, k, x);
    }
  }

  /** Behind a match of `a`, the next token stops. */
  lemma {:induction false} StopsSnoc(al: Alphabet, a: seq<Token>, tok: Token, fl: set<Flag>, t: string, i: nat, k: nat, x: nat)
    requires MatchSeq(al, a, fl, t, i, k) && StopsToken(al, tok, fl, t, k, x)
    ensures Stops(al, a + [tok], fl, t, i, x)
    decreases |a|
  {
    if a == [] {
      assert a + [tok] == [tok];
      StopsOne(al, tok, fl, t, i, x);
    } else {
      assert (a + [tok])[0] == a[0] && (a + [tok])[1..] == a[1..] + [tok];
      var m := Uncons(al, a, fl, t, i, k);
      StopsSnoc(al, a[1..], tok, fl, t, m, k, x);
      StopsCons(al, a + [tok], fl, t, i, m, x);
    }
  }

  /** The tokens before the last stop, or they match and the last stops. */
  ghost predicate StopsLast(al: Alphabet, a: seq<Token>, tok: Token, fl: set<Flag>, t: string, i: nat, x: nat) {
    || Stops(al, a, fl, t, i, x)
    || exists k: nat :: MatchSeq(al, a, fl, t, i, k) && StopsToken(al, tok, fl, t, k, x)
  }

  lemma {:induction false} StopsUnsnoc(al: Alphabet, a: seq<Token>, tok: Token, fl: set<Flag>, t: string, i: nat, x: nat)
    requires Stops(al, a + [tok], fl, t, i, x)
    ensures StopsLast(al, a, tok, fl, t, i, x)
    decreases |a|
  {
    if a == [] {
      assert a + [tok] == [tok];
      StopsOne(al, tok, fl, t, i, x);
      assert MatchSeq(al, a, fl, t, i, i);
    } else {
      assert (a + [tok])[0] == a[0] && (a + [tok])[1..] == a[1..] + [tok];
      if !StopsToken(al, a[0], fl, t, i, x) {
        var m: nat :| MatchToken(al, a[0], fl, t, i, m) && Stops(al, a[1..] + [tok], fl, t, m, x);
        StopsUnsnoc(al, a[1..], tok, fl, t, m, x);
        if Stops(al, a[1..], fl, t, m, x) {
          StopsCons(al, a, fl, t, i, m, x);
        } else {
          var k: nat :| MatchSeq(al, a[1..], fl, t, m, k) && StopsToken(al, tok, fl, t, k, x);
          Cons(al, a, fl, t, i, m, k);
        }
      }
    }
  }

  // ---------------------------------------------------------------- Every stop is reached

  /** From `c`, a state that waits on an unknown anchor can be reached at position `x`. */
  ghost predicate HaltsFrom(al: Alphabet, edges: Edges, t: string, c: Config, x: nat) {
    exists q: nat :: Refused(edges, q) && Reach(al, edges, t, c, Config(q, x))
  }

  ghost predicate StopsReached(al: Alphabet, edges: Edges, ts: seq<Token>, fl: set<Flag>, p: nat) {
    forall t: string, i: nat, x: nat :: Stops(al, ts, fl, t, i, x) ==> HaltsFrom(al, edges, t, Config(p, i), x)
  }

  /** The same for a body after fewer than `high` matches of it. */
  ghost predicate PowerReached(al: Alphabet, edges: Edges, body: seq<Token>, fl: set<Flag>, high: nat, p: nat) {
    forall t: string, i: nat, k: nat, x: nat, n: nat ::
      n < high && MatchPower(al, body, fl, n, t, i, k) && Stops(al, body, fl, t, k, x) ==> HaltsFrom(al, edges, t, Config(p, i), x)
  }

  lemma RefusedExtends(before: Edges, after: Edges, q: nat)
    requires Extends(before, after) && Refused(before, q)
    ensures Refused(after, q)
  {
    var k :| 0 <= k < |before[q]| && before[q][k].Assert? && before[q][k].anchor == OtherAnchor;
    assert after[q][k] == before[q][k];
  }

  lemma HaltsExtends(al: Alphabet, before: Edges, after: Edges, t: string, c: Config, x: nat)
    requires Extends(before, after) && HaltsFrom(al, before, t, c, x)
    ensures HaltsFrom(al, after, t, c, x)
  {
    hide Refused, Reach, Extends;
    var q: nat :| Refused(before, q) && Reach(al, before, t, c, Config(q, x));
    RefusedExtends(before, after, q);
    ReachExtends(al, before, after, t, c, Config(q, x));
  }

  lemma HaltsBehind(al: Alphabet, edges: Edges, t: string, c: Config, d: Config, x: nat)
    requires Reach(al, edges, t, c, d) && HaltsFrom(al, edges, t, d, x)
    ensures HaltsFrom(al, edges, t, c, x)
  {
    hide Refused, Reach;
    var q: nat :| Refused(edges, q) && Reach(al, edges, t, d, Config(q, x));
    ReachTrans(al, edges, t, c, d, Config(q, x));
  }

  lemma ReachedExtends(al: Alphabet, before: Edges, after: Edges, ts: seq<Token>, fl: set<Flag>, p: nat)
    requires Extends(before, after) && StopsReached(al, before, ts, fl, p)
    ensures StopsReached(al, after, ts, fl, p)
  {
    hide HaltsFrom, Stops, Extends;
    forall t: string, i: nat, x: nat | Stops(al, ts, fl, t, i, x) ensures HaltsFrom(al, after, t, Config(p, i), x) {
      HaltsExtends(al, before, after, t, Config(p, i), x);
    }
  }

  lemma PowerReachedExtends(al: Alphabet, before: Edges, after: Edges, body: seq<Token>, fl: set<Flag>, high: nat, p: nat)
    requires Extends(before, after) && PowerReached(al, before, body, fl, high, p)
    ensures PowerReached(al, after, body, fl, high, p)
  {
    hide HaltsFrom, Stops, MatchPower, Extends;
    forall t: string, i: nat, k: nat, x: nat, n: nat
      | n < high && MatchPower(al, body, fl, n, t, i, k) && Stops(al, body, fl, t, k, x)
      ensures HaltsFrom(al, after, t, Config(p, i), x)
    {
      HaltsExtends(al, before, after, t, Config(p, i), x);
    }
  }

  lemma ReachedNil(al: Alphabet, edges: Edges, fl: set<Flag>, p: nat)
    ensures StopsReached(al, edges, [], fl, p)
  {
  }

  lemma ReachedSnoc(al: Alphabet, edges: Edges, ts: seq<Token>, tok: Token, fl: set<Flag>, p: nat, q: nat)
    requires StopsReached(al, edges, ts, fl, p) && Complete(al, edges, ts, fl, p, q) && StopsReached(al, edges, [tok], fl, q)
    ensures StopsReached(al, edges, ts + [tok], fl, p)
  {
    hide HaltsFrom, Stops, MatchSeq, Reach, StopsToken;
    forall t: string, i: nat, x: nat | Stops(al, ts + [tok], fl, t, i, x) ensures HaltsFrom(al, edges, t, Config(p, i), x) {
      StopsUnsnoc(al, ts, tok, fl, t, i, x);
      if !Stops(al, ts, fl, t, i, x) {
        var k: nat :| MatchSeq(al, ts, fl, t, i, k) && StopsToken(al, tok, fl, t, k, x);
        StopsOne(al, tok, fl, t, k, x);
        HaltsBehind(al, edges, t, Config(p, i), Config(q, k), x);
      }
    }
  }

  /** An empty edge in front. */
  lemma ReachedEntry(al: Alphabet, edges: Edges, ts: seq<Token>, fl: set<Flag>, p: nat, k: nat)
    requires p < |edges| && k < |edges[p]| && edges[p][k].Epsilon? && StopsReached(al, edges, ts, fl, edges[p][k].target)
    ensures StopsReached(al, edges, ts, fl, p)
  {
    hide HaltsFrom, Reach;
    forall t: string, i: nat, x: nat | Stops(al, ts, fl, t, i, x) ensures HaltsFrom(al, edges, t, Config(p, i), x) {
      ReachEdge(al, edges, t, Config(p, i), k, i);
      HaltsBehind(al, edges, t, Config(p, i), Config(edges[p][k].target, i), x);
    }
  }

  lemma PowerReachedNext(al: Alphabet, edges: Edges, body: seq<Token>, fl: set<Flag>, n: nat, p: nat, q: nat)
    requires PowerReached(al, edges, body, fl, n, p) && CompletePower(al, edges, body, fl, n, n + 1, p, q)
    requires StopsReached(al, edges, body, fl, q)
    ensures PowerReached(al, edges, body, fl, n + 1, p)
  {
    hide HaltsFrom, Stops, MatchPower, Reach;
    forall t: string, i: nat, k: nat, x: nat, m: nat
      | m < n + 1 && MatchPower(al, body, fl, m, t, i, k) && Stops(al, body, fl, t, k, x)
      ensures HaltsFrom(al, edges, t, Config(p, i), x)
    {
      if m == n {
        HaltsBehind(al, edges, t, Config(p, i), Config(q, k), x);
      }
    }
  }

  /** A loop at `q` reaches the stops of every further match of the body. */
  lemma LoopReached(al: Alphabet, edges: Edges, tok: Token, fl: set<Flag>, p: nat, q: nat)
    requires tok.MaxRepeat?
    requires PowerReached(al, edges, tok.body, fl, tok.minimum, p)
    requires CompletePower(al, edges, tok.body, fl, tok.minimum, tok.minimum + 1, p, q)
    requires Complete(al, edges, tok.body, fl, q, q) && StopsReached(al, edges, tok.body, fl, q)
    ensures StopsReached(al, edges, [tok], fl, p)
  {
    hide HaltsFrom, Stops, MatchPower, Reach, Complete, CompletePower;
    forall t: string, i: nat, x: nat | Stops(al, [tok], fl, t, i, x) ensures HaltsFrom(al, edges, t, Config(p, i), x) {
      StopsOne(al, tok, fl, t, i, x);
      var n: nat, k: nat :| Within(n + 1, tok.maximum) && MatchPower(al, tok.body, fl, n, t, i, k) && Stops(al, tok.body, fl, t, k, x);
      if n >= tok.minimum {
        ReachLoop(al, edges, tok.body, fl, tok.minimum, n, p, q, t, i, k);
        HaltsBehind(al, edges, t, Config(p, i), Config(q, k), x);
      }
    }
  }

  lemma BoundedReached(al: Alphabet, edges: Edges, tok: Token, fl: set<Flag>, p: nat)
    requires tok.MaxRepeat? && tok.maximum.AtMost? && PowerReached(al, edges, tok.body, fl, tok.maximum.n, p)
    ensures StopsReached(al, edges, [tok], fl, p)
  {
    hide HaltsFrom, Stops, MatchPower;
    forall t: string, i: nat, x: nat | Stops(al, [tok], fl, t, i, x) ensures HaltsFrom(al, edges, t, Config(p, i), x) {
      StopsOne(al, tok, fl, t, i, x);
    }
  }

  lemma SubpatternReached(al: Alphabet, edges: Edges, tok: Token, fl: set<Flag>, p: nat)
    requires tok.Subpattern? && StopsReached(al, edges, tok.body, Scoped(fl, tok.add, tok.remove), p)
    ensures StopsReached(al, edges, [tok], fl, p)
  {
    hide HaltsFrom, Stops;
    forall t: string, i: nat, x: nat | Stops(al, [tok], fl, t, i, x) ensures HaltsFrom(al, edges, t, Config(p, i), x) {
      StopsOne(al, tok, fl, t, i, x);
    }
  }

  lemma BranchReached(al: Alphabet, edges: Edges, tok: Token, fl: set<Flag>, p: nat)
    requires tok.Branch? && forall b :: 0 <= b < |tok.branches| ==> StopsReached(al, edges, tok.branches[b].tokens, fl, p)
    ensures StopsReached(al, edges, [tok], fl, p)
  {
    hide HaltsFrom, Stops;
    forall t: string, i: nat, x: nat | Stops(al, [tok], fl, t, i, x) ensures HaltsFrom(al, edges, t, Config(p, i), x) {
      StopsOne(al, tok, fl, t, i, x);
      var b :| 0 <= b < |tok.branches| && Stops(al, tok.branches[b].tokens, fl, t, i, x);
      assert StopsReached(al, edges, tok.branches[b].tokens, fl, p);
    }
  }

  /** A character or anchor: only an unknown anchor stops, and its edge waits at `p`. */
  lemma CharacterReached(al: Alphabet, edges: Edges, tok: Token, fl: set<Flag>, p: nat)
    requires tok.Literal? || tok.In? || (tok.At? && (tok.anchor == OtherAnchor ==> Refused(edges, p)))
    ensures StopsReached(al, edges, [tok], fl, p)
  {
    hide Stops, Reach;
    forall t: string, i: nat, x: nat | Stops(al, [tok], fl, t, i, x) ensures HaltsFrom(al, edges, t, Config(p, i), x) {
      StopsOne(al, tok, fl, t, i, x);
      ReachSelf(al, edges, t, Config(p, i));
    }
  }

  // ---------------------------------------------------------------- Nothing else stops

  /** Every span of `mark` ends where `ts` stops. */
  ghost predicate StopsAfter(al: Alphabet, fl: set<Flag>, mark: seq<Token>, ts: seq<Token>) {
    forall t: string, i: nat, x: nat :: MatchSeq(al, mark, fl, t, i, x) ==> Stops(al, ts, fl, t, i, x)
  }

  /** The labels of the states from `lo` on that wait on an unknown anchor are stops of `ts`. */
  ghost predicate StopsSound(al: Alphabet, fl: set<Flag>, edges: Edges, lo: nat, labels: seq<seq<Token>>, ts: seq<Token>) {
    && |edges| == lo + |labels|
    && forall q :: lo <= q < |edges| && Refused(edges, q) ==> StopsAfter(al, fl, labels[q - lo], ts)
  }

  lemma StopsSoundFront(al: Alphabet, fl: set<Flag>, edges: Edges, lo: nat, labels: seq<seq<Token>>, ts: seq<Token>, more: seq<Token>)
    requires StopsSound(al, fl, edges, lo, labels, ts)
    ensures StopsSound(al, fl, edges, lo, labels, ts + more)
  {
    hide Stops, MatchSeq, Refused;
    forall q | lo <= q < |edges| && Refused(edges, q) ensures StopsAfter(al, fl, labels[q - lo], ts + more) {
      assert StopsAfter(al, fl, labels[q - lo], ts);
      forall t: string, i: nat, x: nat | MatchSeq(al, labels[q - lo], fl, t, i, x) ensures Stops(al, ts + more, fl, t, i, x) {
        StopsFront(al, ts, more, fl, t, i, x);
      }
    }
  }

  lemma StopsSoundState(al: Alphabet, fl: set<Flag>, edges: Edges, lo: nat, labels: seq<seq<Token>>, ts: seq<Token>, mark: seq<Token>)
    requires StopsSound(al, fl, edges, lo, labels, ts)
    ensures StopsSound(al, fl, edges + [[]], lo, labels + [mark], ts)
  {
    hide StopsAfter;
    forall q | lo <= q < |edges + [[]]| && Refused(edges + [[]], q) ensures StopsAfter(al, fl, (labels + [mark])[q - lo], ts) {
      assert Refused(edges, q);
    }
  }

  predicate Unknown(e: Edge) {
    e.Assert? && e.anchor == OtherAnchor
  }

  lemma RefusedAppend(edges: Edges, p: nat, e: Edge, q: nat)
    requires p < |edges|
    ensures Refused(edges[p := edges[p] + [e]], q) <==> Refused(edges, q) || (q == p && Unknown(e))
  {
    var after := edges[p := edges[p] + [e]];
    if Refused(edges, q) {
      var k :| 0 <= k < |edges[q]| && edges[q][k].Assert? && edges[q][k].anchor == OtherAnchor;
      assert after[q][k] == edges[q][k];
    }
    if q == p && Unknown(e) {
      assert after[p][|edges[p]|] == e;
    }
  }

  lemma StopsSoundEdge(al: Alphabet, fl: set<Flag>, edges: Edges, lo: nat, labels: seq<seq<Token>>, ts: seq<Token>, p: nat, e: Edge)
    requires StopsSound(al, fl, edges, lo, labels, ts) && lo <= p < |edges|
    requires Unknown(e) ==> StopsAfter(al, fl, labels[p - lo], ts)
    ensures StopsSound(al, fl, edges[p := edges[p] + [e]], lo, labels, ts)
  {
    hide StopsAfter, Refused;
    var after := edges[p := edges[p] + [e]];
    forall q | lo <= q < |after| && Refused(after, q) ensures StopsAfter(al, fl, labels[q - lo], ts) {
      RefusedAppend(edges, p, e, q);
    }
  }

  lemma StopsSoundRelabel(al: Alphabet, fl: set<Flag>, edges: Edges, lo: nat, labels: seq<seq<Token>>, ts: seq<Token>, q: nat,
                          mark: seq<Token>)
    requires StopsSound(al, fl, edges, lo, labels, ts) && lo <= q < |edges| && edges[q] == []
    ensures StopsSound(al, fl, edges, lo, labels[q - lo := mark], ts)
  {
    hide StopsAfter;
  }

  lemma AnchorStops(al: Alphabet, fl: set<Flag>, prefix: seq<Token>)
    ensures StopsAfter(al, fl, prefix, prefix + [At(OtherAnchor)])
  {
    hide MatchSeq, Stops;
    forall t: string, i: nat, x: nat | MatchSeq(al, prefix, fl, t, i, x)
      ensures Stops(al, prefix + [At(OtherAnchor)], fl, t, i, x) {
      SpanFits(al, prefix, fl, t, i, x);
      StopsSnoc(al, prefix, At(OtherAnchor), fl, t, i, x, x);
    }
  }

  lemma SpanFits(al: Alphabet, ts: seq<Token>, fl: set<Flag>, t: string, i: nat, x: nat)
    requires MatchSeq(al, ts, fl, t, i, x)
    ensures i <= x <= |t|
  {
  }

  /** Behind a span of `mark`, where the body of a nested fragment stops, `goal` stops. */
  ghost predicate StopsVia(al: Alphabet, fl: set<Flag>, mark: seq<Token>, add: set<Flag>, remove: set<Flag>,
                           body: seq<Token>, goal: seq<Token>) {
    forall t: string, i: nat, k: nat, x: nat ::
      MatchSeq(al, mark, fl, t, i, k) && Stops(al, body, Scoped(fl, add, remove), t, k, x) ==> Stops(al, goal, fl, t, i, x)
  }

  lemma NestedStops(al: Alphabet, fl: set<Flag>, prefix: seq<Token>, add: set<Flag>, remove: set<Flag>,
                    mark: seq<Token>, body: seq<Token>, goal: seq<Token>)
    requires StopsAfter(al, Scoped(fl, add, remove), mark, body) && StopsVia(al, fl, prefix, add, remove, body, goal)
    ensures StopsAfter(al, fl, Nested(prefix, add, remove, mark), goal)
  {
    hide MatchSeq, Stops;
    forall t: string, i: nat, x: nat | MatchSeq(al, Nested(prefix, add, remove, mark), fl, t, i, x)
      ensures Stops(al, goal, fl, t, i, x) {
      var k := NestedSplit(al, fl, prefix, add, remove, mark, t, i, x);
    }
  }

  /** A nested fragment, seen from outside. */
  lemma StopsSoundAppend(al: Alphabet, fl: set<Flag>, before: Edges, after: Edges, lo: nat, labels: seq<seq<Token>>,
                         prefix: seq<Token>, add: set<Flag>, remove: set<Flag>, inner: seq<seq<Token>>, body: seq<Token>, goal: seq<Token>)
    requires StopsSound(al, fl, before, lo, labels, goal)
    requires |before| <= |after| && after[..|before|] == before
    requires StopsSound(al, Scoped(fl, add, remove), after, |before|, inner, body)
    requires StopsVia(al, fl, prefix, add, remove, body, goal)
    ensures StopsSound(al, fl, after, lo, labels + NestedAll(prefix, add, remove, inner), goal)
  {
    hide StopsAfter, StopsVia;
    var all := labels + NestedAll(prefix, add, remove, inner);
    forall q | lo <= q < |after| && Refused(after, q) ensures StopsAfter(al, fl, all[q - lo], goal) {
      if q < |before| {
        assert after[q] == before[q];
        assert Refused(before, q);
      } else {
        NestedStops(al, fl, prefix, add, remove, inner[q - |before|], body, goal);
      }
    }
  }

  lemma ViaSubpattern(al: Alphabet, fl: set<Flag>, prefix: seq<Token>, tok: Token)
    requires tok.Subpattern?
    ensures StopsVia(al, fl, prefix, tok.add, tok.remove, tok.body, prefix + [tok])
  {
    hide MatchSeq, Stops;
    forall t: string, i: nat, k: nat, x: nat
      | MatchSeq(al, prefix, fl, t, i, k) && Stops(al, tok.body, Scoped(fl, tok.add, tok.remove), t, k, x)
      ensures Stops(al, prefix + [tok], fl, t, i, x) {
      StopFits(al, tok.body, Scoped(fl, tok.add, tok.remove), t, k, x);
      StopsSnoc(al, prefix, tok, fl, t, i, k, x);
    }
  }

  lemma StopFits(al: Alphabet, ts: seq<Token>, fl: set<Flag>, t: string, i: nat, x: nat)
    requires Stops(al, ts, fl, t, i, x)
    ensures i <= x <= |t|
  {
  }

  lemma ViaBranch(al: Alphabet, fl: set<Flag>, prefix: seq<Token>, tok: Token, b: nat)
    requires tok.Branch? && b < |tok.branches|
    ensures StopsVia(al, fl, prefix, {}, {}, tok.branches[b].tokens, prefix + [tok])
  {
    hide MatchSeq, Stops;
    assert Scoped(fl, {}, {}) == fl;
    forall t: string, i: nat, k: nat, x: nat
      | MatchSeq(al, prefix, fl, t, i, k) && Stops(al, tok.branches[b].tokens, Scoped(fl, {}, {}), t, k, x)
      ensures Stops(al, prefix + [tok], fl, t, i, x) {
      StopFits(al, tok.branches[b].tokens, fl, t, k, x);
      StopsSnoc(al, prefix, tok, fl, t, i, k, x);
    }
  }

  /** One more copy of a repeated body may follow any of `low` to `high` matches. */
  lemma ViaRepeat(al: Alphabet, fl: set<Flag>, prefix: seq<Token>, tok: Token, mark: seq<Token>, low: nat, high: Bound)
    requires tok.MaxRepeat? && Included(al, fl, mark, Repeated(prefix, low, high, tok.body))
    requires forall n: nat :: Within(n, high) ==> Within(n + 1, tok.maximum)
    ensures StopsVia(al, fl, mark, {}, {}, tok.body, prefix + [tok])
  {
    hide MatchSeq, Stops, MatchPower;
    assert Scoped(fl, {}, {}) == fl;
    forall t: string, i: nat, k: nat, x: nat
      | MatchSeq(al, mark, fl, t, i, k) && Stops(al, tok.body, Scoped(fl, {}, {}), t, k, x)
      ensures Stops(al, prefix + [tok], fl, t, i, x) {
      var m := UnSnoc(al, prefix, MaxRepeat(low, high, tok.body), fl, t, i, k);
      StopFits(al, tok.body, fl, t, k, x);
      var n: nat :| low <= n && Within(n, high) && MatchPower(al, tok.body, fl, n, t, m, k);
      assert Within(n + 1, tok.maximum);
      StopsSnoc(al, prefix, tok, fl, t, i, m, x);
    }
  }
}
