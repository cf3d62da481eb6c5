/**
 The compiler of scripts/lit-push-ready.py: `StreamingPatterns.__init__` with its nested
 `state` and `build`, which append to one shared edge list.  A failure (`ok == false`) is
 the source's RuntimeError on syntax it does not know.
 */
module RegexCompiler {
  import opened RegexSyntax
  import opened RegexAutomaton
  import opened RegexStops

  datatype Pattern = Pattern(tokens: seq<Token>, flags: set<Flag>)

  /** The fragment that `Build` leaves behind, in the states from `|before|` on. */
  ghost predicate Fragment(al: Alphabet, fl: set<Flag>, before: Edges, after: Edges, ts: seq<Token>,
                           first: nat, last: nat, labels: seq<seq<Token>>) {
    && |before| <= |after| && after[..|before|] == before
    && |before| <= first < |after| && |before| <= last < |after| && after[last] == []
    && Sound(al, fl, after, |before|, labels)
    && labels[last - |before|] == ts && MatchesEmpty(al, labels[first - |before|], fl)
    && Complete(al, after, ts, fl, first, last)
  }

  /** `after` differs from `before` only by new states and new edges of `q`. */
  ghost predicate GrowsAt(before: Edges, after: Edges, q: nat) {
    Extends(before, after) && forall p :: 0 <= p < |before| && p != q ==> after[p] == before[p]
  }

  /** Labels only get wider. */
  ghost predicate Widened(al: Alphabet, fl: set<Flag>, before: seq<seq<Token>>, after: seq<seq<Token>>) {
    |before| <= |after| && forall k :: 0 <= k < |before| ==> Included(al, fl, before[k], after[k])
  }

  lemma WidenedPrefix(al: Alphabet, fl: set<Flag>, a: seq<seq<Token>>, b: seq<seq<Token>>)
    requires a <= b
    ensures Widened(al, fl, a, b)
  {
  }

  lemma IncludedTrans(al: Alphabet, fl: set<Flag>, a: seq<Token>, b: seq<Token>, c: seq<Token>)
    requires Included(al, fl, a, b) && Included(al, fl, b, c)
    ensures Included(al, fl, a, c)
  {
  }

  /** Where the tokens before `current` and the token in hand stand, inside one `Build`. */
  ghost predicate Ready(al: Alphabet, fl: set<Flag>, edges: Edges, lo: nat, labels: seq<seq<Token>>,
                        current: nat, end: nat, prefix: seq<Token>, tok: Token) {
    && Sound(al, fl, edges, lo, labels)
    && lo <= current < |edges| && lo <= end < |edges| && current != end && edges[end] == []
    && labels[current - lo] == prefix && labels[end - lo] == prefix + [tok]
  }

  /** What handling one token between `current` and `end` achieves. */
  ghost predicate Linked(al: Alphabet, fl: set<Flag>, before: Edges, after: Edges, lo: nat,
                         labels: seq<seq<Token>>, labels': seq<seq<Token>>, current: nat, end: nat, tok: Token) {
    && GrowsAt(before, after, current) && |before| == lo + |labels|
    && Sound(al, fl, after, lo, labels') && Widened(al, fl, labels, labels')
    && lo <= end < |before| && labels'[end - lo] == labels[end - lo]
    && Complete(al, after, [tok], fl, current, end)
  }

  /** What one call of `build` on a nested body, entered from `entry`, achieves. */
  ghost predicate Attached(al: Alphabet, fl: set<Flag>, before: Edges, after: Edges, lo: nat,
                           labels: seq<seq<Token>>, labels': seq<seq<Token>>, entry: nat, exit: nat,
                           add: set<Flag>, remove: set<Flag>, body: seq<Token>) {
    && GrowsAt(before, after, entry) && |before| == lo + |labels|
    && Sound(al, fl, after, lo, labels') && labels <= labels'
    && lo <= entry < |before| <= exit < |after| && after[exit] == []
    && labels'[exit - lo] == Nested(labels[entry - lo], add, remove, body)
    && Complete(al, after, body, Scoped(fl, add, remove), entry, exit)
  }

  lemma LinkCharacter(al: Alphabet, fl: set<Flag>, edges: Edges, lo: nat, labels: seq<seq<Token>>,
                      current: nat, end: nat, prefix: seq<Token>, tok: Token, e: Edge)
    requires Ready(al, fl, edges, lo, labels, current, end, prefix, tok)
    requires !e.Epsilon? && e.target == end
    requires forall t: string, x: nat, y: nat :: Fires(al, e, t, x, y) <==> MatchToken(al, tok, fl, t, x, y)
    ensures Linked(al, fl, edges, edges[current := edges[current] + [e]], lo, labels, labels, current, end, tok)
  {
    var after := edges[current := edges[current] + [e]];
    assert SoundEdge(al, fl, prefix, e, prefix + [tok]) by {
      forall t: string, i: nat, x: nat, y: nat | MatchSeq(al, prefix, fl, t, i, x) && Fires(al, e, t, x, y)
        ensures MatchSeq(al, prefix + [tok], fl, t, i, y)
      {
        Snoc(al, prefix, tok, fl, t, i, x, y);
      }
    }
    SoundNewEdge(al, fl, edges, lo, labels, current, e);
    forall t: string, i: nat, j: nat | MatchSeq(al, [tok], fl, t, i, j)
      ensures Reach(al, after, t, Config(current, i), Config(end, j))
    {
      MatchOne(al, tok, fl, t, i, j);
      ReachEdge(al, after, t, Config(current, i), |edges[current]|, j);
    }
  }

  lemma AttachFragment(al: Alphabet, fl: set<Flag>, before: Edges, built: Edges, lo: nat, labels: seq<seq<Token>>,
                       entry: nat, a: nat, b: nat, inner: seq<seq<Token>>,
                       add: set<Flag>, remove: set<Flag>, body: seq<Token>)
    requires Sound(al, fl, before, lo, labels) && lo <= entry < |before|
    requires Fragment(al, Scoped(fl, add, remove), before, built, body, a, b, inner)
    ensures Attached(al, fl, before, built[entry := built[entry] + [Epsilon(a)]], lo, labels,
                     labels + NestedAll(labels[entry - lo], add, remove, inner), entry, b, add, remove, body)
  {
    var prefix := labels[entry - lo];
    var all := labels + NestedAll(prefix, add, remove, inner);
    var after := built[entry := built[entry] + [Epsilon(a)]];
    SoundAppend(al, fl, before, built, lo, labels, prefix, add, remove, inner);
    assert SoundEdge(al, fl, prefix, Epsilon(a), all[a - lo]) by {
      forall t: string, i: nat, x: nat, y: nat | MatchSeq(al, prefix, fl, t, i, x) && Fires(al, Epsilon(a), t, x, y)
        ensures MatchSeq(al, all[a - lo], fl, t, i, y)
      {
        assert MatchSeq(al, inner[a - |before|], Scoped(fl, add, remove), t, x, x);
        NestedJoin(al, fl, prefix, add, remove, inner[a - |before|], t, i, x, x);
      }
    }
    SoundNewEdge(al, fl, built, lo, all, entry, Epsilon(a));
    CompleteExtends(al, built, after, body, Scoped(fl, add, remove), a, b);
    forall t: string, i: nat, j: nat | MatchSeq(al, body, Scoped(fl, add, remove), t, i, j)
      ensures Reach(al, after, t, Config(entry, i), Config(b, j))
    {
      ReachEdge(al, after, t, Config(entry, i), |built[entry]|, i);
      ReachTrans(al, after, t, Config(entry, i), Config(a, i), Config(b, j));
    }
  }

  /** Adding an empty edge whose source label is included in its target label. */
  lemma EmptyEdge(al: Alphabet, fl: set<Flag>, edges: Edges, lo: nat, labels: seq<seq<Token>>, q: nat, target: nat)
    requires Sound(al, fl, edges, lo, labels)
    requires lo <= q < |edges| && lo <= target < |edges|
    requires Included(al, fl, labels[q - lo], labels[target - lo])
    ensures Sound(al, fl, edges[q := edges[q] + [Epsilon(target)]], lo, labels)
    ensures Extends(edges, edges[q := edges[q] + [Epsilon(target)]])
  {
    assert SoundEdge(al, fl, labels[q - lo], Epsilon(target), labels[target - lo]);
    SoundNewEdge(al, fl, edges, lo, labels, q, Epsilon(target));
  }

  /** What the whole compiled machine guarantees for pattern number `n`. */
  ghost predicate Implements(al: Alphabet, edges: Edges, starts: seq<nat>, lasts: seq<nat>,
                             patterns: seq<Pattern>, owners: seq<nat>, labels: seq<seq<Token>>) {
    && |starts| == |lasts| == |patterns| && |owners| == |labels| == |edges|
    && (forall q, k :: 0 <= q < |edges| && 0 <= k < |edges[q]| ==>
         EdgeKept(al, edges, patterns, owners, labels, q, k))
    && (forall n :: 0 <= n < |patterns| ==>
         && starts[n] < |edges| && owners[starts[n]] == n
         && MatchesEmpty(al, labels[starts[n]], patterns[n].flags)
         && lasts[n] < |edges| && owners[lasts[n]] == n && labels[lasts[n]] == patterns[n].tokens
         && Complete(al, edges, patterns[n].tokens, patterns[n].flags, starts[n], lasts[n]))
  }

  /** Accepting states carry the number of their pattern. */
  ghost predicate Marks(accepts: map<nat, nat>, lasts: seq<nat>) {
    && (forall q :: q in accepts <==> q in lasts)
    && (forall n :: 0 <= n < |lasts| ==> accepts[lasts[n]] == n)
  }

  lemma MarksMore(accepts: map<nat, nat>, lasts: seq<nat>, last: nat)
    requires Marks(accepts, lasts) && last !in lasts
    ensures Marks(accepts[last := |lasts|], lasts + [last])
  {
  }

  /** The states that wait on an unknown anchor are those where a pattern stops. */
  ghost predicate Halting(al: Alphabet, edges: Edges, starts: seq<nat>, patterns: seq<Pattern>,
                          owners: seq<nat>, labels: seq<seq<Token>>) {
    && |starts| == |patterns| && |owners| == |labels| == |edges|
    && (forall q :: 0 <= q < |edges| && Refused(edges, q) ==> HaltKept(al, patterns, owners, labels, q))
    && (forall n :: 0 <= n < |patterns| ==> StopsReached(al, edges, patterns[n].tokens, patterns[n].flags, starts[n]))
  }

  ghost predicate HaltKept(al: Alphabet, patterns: seq<Pattern>, owners: seq<nat>, labels: seq<seq<Token>>, q: nat)
    requires |owners| == |labels| && q < |owners|
  {
    owners[q] < |patterns| && StopsAfter(al, patterns[owners[q]].flags, labels[q], patterns[owners[q]].tokens)
  }

  lemma HaltingMore(al: Alphabet, before: Edges, after: Edges, starts: seq<nat>, patterns: seq<Pattern>,
                    owners: seq<nat>, labels: seq<seq<Token>>, p: Pattern, first: nat, inner: seq<seq<Token>>)
    requires Halting(al, before, starts, patterns, owners, labels)
    requires |before| <= |after| && after[..|before|] == before
    requires StopsSound(al, p.flags, after, |before|, inner, p.tokens) && StopsReached(al, after, p.tokens, p.flags, first)
    ensures Halting(al, after, starts + [first], patterns + [p], owners + seq(|inner|, _ => |patterns|), labels + inner)
  {
    hide StopsAfter, StopsReached;
    var owners', labels', patterns' := owners + seq(|inner|, _ => |patterns|), labels + inner, patterns + [p];
    forall q | 0 <= q < |after| && Refused(after, q) ensures HaltKept(al, patterns', owners', labels', q) {
      if q < |before| {
        assert after[q] == before[q];
        assert Refused(before, q);
        assert HaltKept(al, patterns, owners, labels, q);
      }
    }
    forall n | 0 <= n < |patterns'|
      ensures StopsReached(al, after, patterns'[n].tokens, patterns'[n].flags, (starts + [first])[n]) {
      if n < |patterns| {
        ReachedExtends(al, before, after, patterns[n].tokens, patterns[n].flags, starts[n]);
      }
    }
  }

  lemma ImplementsMore(al: Alphabet, before: Edges, after: Edges, starts: seq<nat>, lasts: seq<nat>,
                       patterns: seq<Pattern>, owners: seq<nat>, labels: seq<seq<Token>>,
                       p: Pattern, first: nat, last: nat, inner: seq<seq<Token>>)
    requires Implements(al, before, starts, lasts, patterns, owners, labels)
    requires Fragment(al, p.flags, before, after, p.tokens, first, last, inner)
    ensures Implements(al, after, starts + [first], lasts + [last], patterns + [p],
                       owners + seq(|inner|, _ => |patterns|), labels + inner)
  {
    hide Complete, SoundEdge;
    var owners', labels', patterns' := owners + seq(|inner|, _ => |patterns|), labels + inner, patterns + [p];
    forall q, k | 0 <= q < |after| && 0 <= k < |after[q]|
      ensures EdgeKept(al, after, patterns', owners', labels', q, k)
    {
      if q < |before| {
        OldEdge(al, before, after, starts, lasts, patterns, owners, labels, p, owners', labels', q, k);
      } else {
        NewEdge(al, before, after, patterns, owners, labels, p, first, last, inner, q, k);
      }
    }
    forall n | 0 <= n < |patterns|
      ensures Complete(al, after, patterns[n].tokens, patterns[n].flags, starts[n], lasts[n])
    {
      CompleteExtends(al, before, after, patterns[n].tokens, patterns[n].flags, starts[n], lasts[n]);
    }
  }

  /** An edge stays with its pattern and is sound for the labels. */
  ghost predicate EdgeKept(al: Alphabet, edges: Edges, patterns: seq<Pattern>, owners: seq<nat>,
                           labels: seq<seq<Token>>, q: nat, k: nat)
    requires |owners| == |labels| == |edges| && q < |edges| && k < |edges[q]|
  {
    && owners[q] < |patterns|
    && edges[q][k].target < |edges| && owners[edges[q][k].target] == owners[q]
    && SoundEdge(al, patterns[owners[q]].flags, labels[q], edges[q][k], labels[edges[q][k].target])
  }

  lemma OldEdge(al: Alphabet, before: Edges, after: Edges, starts: seq<nat>, lasts: seq<nat>, patterns: seq<Pattern>,
                owners: seq<nat>, labels: seq<seq<Token>>, p: Pattern, owners': seq<nat>, labels': seq<seq<Token>>,
                q: nat, k: nat)
    requires Implements(al, before, starts, lasts, patterns, owners, labels)
    requires before <= after && owners <= owners' && labels <= labels' && |owners'| == |labels'| == |after|
    requires q < |before| && k < |after[q]|
    ensures EdgeKept(al, after, patterns + [p], owners', labels', q, k)
  {
    hide Complete, SoundEdge;
    assert after[q] == before[q];
    assert EdgeKept(al, before, patterns, owners, labels, q, k);
  }

  lemma NewEdge(al: Alphabet, before: Edges, after: Edges, patterns: seq<Pattern>, owners: seq<nat>,
                labels: seq<seq<Token>>, p: Pattern, first: nat, last: nat, inner: seq<seq<Token>>, q: nat, k: nat)
    requires Fragment(al, p.flags, before, after, p.tokens, first, last, inner)
    requires |owners| == |labels| == |before| <= q < |after| && k < |after[q]|
    ensures |owners + seq(|inner|, _ => |patterns|)| == |after| == |labels + inner|
    ensures EdgeKept(al, after, patterns + [p], owners + seq(|inner|, _ => |patterns|), labels + inner, q, k)
  {
    hide Complete, SoundEdge;
  }

  lemma LastIsNew(al: Alphabet, before: Edges, after: Edges, starts: seq<nat>, lasts: seq<nat>,
                  patterns: seq<Pattern>, owners: seq<nat>, labels: seq<seq<Token>>,
                  p: Pattern, first: nat, last: nat, inner: seq<seq<Token>>)
    requires Implements(al, before, starts, lasts, patterns, owners, labels)
    requires Fragment(al, p.flags, before, after, p.tokens, first, last, inner)
    ensures |starts| == |lasts| == |patterns| && last !in lasts
  {
    hide EdgeKept, Complete, MatchesEmpty, Sound;
  }

  class StreamingPatterns {
    const alphabet: Alphabet
    var edges: Edges
    var accepts: map<nat, nat>   // state -> the bit it sets
    var starts: seq<nat>
    ghost var lasts: seq<nat>
    ghost var patterns: seq<Pattern>
    ghost var owners: seq<nat>
    ghost var labels: seq<seq<Token>>

    ghost predicate Valid()
      reads this
    {
      && Implements(alphabet, edges, starts, lasts, patterns, owners, labels)
      && Marks(accepts, lasts)
      && Halting(alphabet, edges, starts, patterns, owners, labels)
    }

    constructor (alphabet: Alphabet)
      ensures Valid() && patterns == [] && this.alphabet == alphabet
    {
      this.alphabet := alphabet;
      edges, accepts, starts := [], map[], [];
      lasts, patterns, owners, labels := [], [], [], [];
    }

    /** `state()`: append a state without edges. */
    method State() returns (q: nat)
      modifies this`edges
      ensures edges == old(edges) + [[]] && q == |old(edges)|
    {
      edges := edges + [[]];
      q := |edges| - 1;
    }

    /** `self.edges[q].append(e)`. */
    method Append(q: nat, e: Edge)
      requires q < |edges|
      modifies this`edges
      ensures edges == old(edges)[q := old(edges)[q] + [e]]
    {
      edges := edges[q := edges[q] + [e]];
    }

    /** `build(tokens, flags)`. */
    method Build(tokens: seq<Token>, flags: set<Flag>)
      returns (ok: bool, first: nat, last: nat, ghost inner: seq<seq<Token>>)
      requires Parsed(tokens)
      modifies this`edges
      ensures ok <==> Compilable(tokens)
      ensures ok ==> Fragment(alphabet, flags, old(edges), edges, tokens, first, last, inner)
      ensures ok ==> StopsSound(alphabet, flags, edges, |old(edges)|, inner, tokens)
      ensures ok ==> StopsReached(alphabet, edges, tokens, flags, first)
      decreases tokens, 0
    {
      ghost var before := edges;
      ghost var lo := |before|;
      ok := true;
      first := State();
      var current := first;
      inner := [[]];
      CompleteNil(alphabet, edges, flags, first);
      ReachedNil(alphabet, edges, flags, first);
      assert MatchesEmpty(alphabet, [], flags);
      var k := 0;
      last := current;
      while k < |tokens|
        invariant 0 <= k <= |tokens| && Compilable(tokens[..k]) && ok
        invariant lo <= |edges| && edges[..lo] == before
        invariant lo <= first < |edges| && lo <= current < |edges| && edges[current] == []
        invariant Sound(alphabet, flags, edges, lo, inner)
        invariant inner[current - lo] == tokens[..k]
        invariant MatchesEmpty(alphabet, inner[first - lo], flags)
        invariant Complete(alphabet, edges, tokens[..k], flags, first, current)
        invariant StopsSound(alphabet, flags, edges, lo, inner, tokens[..k])
        invariant StopsReached(alphabet, edges, tokens[..k], flags, first)
      {
        ghost var edges0, inner0 := edges, inner;
        var end := State();
        SoundNewState(alphabet, flags, edges0, lo, inner0, tokens[..k] + [tokens[k]]);
        StopsSoundState(alphabet, flags, edges0, lo, inner0, tokens[..k], tokens[..k] + [tokens[k]]);
        inner := inner0 + [tokens[..k] + [tokens[k]]];
        ghost var edges1, inner1 := edges, inner;
        ok, inner := AddToken(tokens[k], flags, current, end, lo, tokens[..k], inner);
        if !ok {
          assert tokens[k] in tokens;
          return;
        }
        assert tokens[..k + 1] == tokens[..k] + [tokens[k]];
        assert Extends(edges0, edges);
        CompleteExtends(alphabet, edges0, edges, tokens[..k], flags, first, current);
        CompleteSnoc(alphabet, edges, tokens[..k], tokens[k], flags, first, current, end);
        ReachedExtends(alphabet, edges0, edges, tokens[..k], flags, first);
        ReachedSnoc(alphabet, edges, tokens[..k], tokens[k], flags, first, current);
        assert MatchesEmpty(alphabet, inner[first - lo], flags) by {
          assert Included(alphabet, flags, inner1[first - lo], inner[first - lo]);
        }
        assert edges[..lo] == before;
        current := end;
        k := k + 1;
      }
      assert tokens[..k] == tokens;
      last := current;
    }

    /** The body of the token loop: one case per kind of token. */
    method AddToken(tok: Token, flags: set<Flag>, current: nat, end: nat,
                    ghost lo: nat, ghost prefix: seq<Token>, ghost inner: seq<seq<Token>>)
      returns (ok: bool, ghost inner': seq<seq<Token>>)
      requires ParsedToken(tok)
      requires Ready(alphabet, flags, edges, lo, inner, current, end, prefix, tok) && edges[current] == []
      requires StopsSound(alphabet, flags, edges, lo, inner, prefix)
      modifies this`edges
      ensures ok <==> CompilableToken(tok)
      ensures ok ==> Linked(alphabet, flags, old(edges), edges, lo, inner, inner', current, end, tok)
      ensures ok ==> StopsSound(alphabet, flags, edges, lo, inner', prefix + [tok])
      ensures ok ==> StopsReached(alphabet, edges, [tok], flags, current)
      decreases tok, 3
    {
      ok, inner' := true, inner;
      StopsSoundFront(alphabet, flags, edges, lo, inner, prefix, [tok]);
      match tok
      case Literal(c) =>
        ghost var e := Char(Matcher(false, [Single(c)], flags), end);
        LinkCharacter(alphabet, flags, edges, lo, inner, current, end, prefix, tok, e);
        StopsSoundEdge(alphabet, flags, edges, lo, inner, prefix + [tok], current, e);
        Append(current, Char(Matcher(false, [Single(c)], flags), end));
        CharacterReached(alphabet, edges, tok, flags, current);
      case In(negated, items) =>
        ok := KnownCategories(items);
        if ok {
          ghost var e := Char(Matcher(negated, items, flags), end);
          LinkCharacter(alphabet, flags, edges, lo, inner, current, end, prefix, tok, e);
          StopsSoundEdge(alphabet, flags, edges, lo, inner, prefix + [tok], current, e);
          Append(current, Char(Matcher(negated, items, flags), end));
          CharacterReached(alphabet, edges, tok, flags, current);
        }
      case Subpattern(add, remove, body) =>
        ok, inner' := AddSubpattern(tok, flags, current, end, lo, prefix, inner);
      case Branch(branches) =>
        ok, inner' := AddBranches(tok, flags, current, end, lo, prefix, inner);
      case MaxRepeat(minimum, maximum, body) =>
        ok, inner' := AddRepeat(tok, flags, current, end, lo, prefix, inner);
      case At(anchor) =>
        ghost var e := Assert(anchor, flags, end);
        LinkCharacter(alphabet, flags, edges, lo, inner, current, end, prefix, tok, e);
        AnchorStops(alphabet, flags, prefix);
        StopsSoundEdge(alphabet, flags, edges, lo, inner, prefix + [tok], current, e);
        RefusedAppend(edges, current, e, current);
        Append(current, Assert(anchor, flags, end));
        CharacterReached(alphabet, edges, tok, flags, current);
      case Unsupported =>
        ok := false;
    }

    /** `a, b = build(body, ...)` followed by an empty edge from `entry` to `a`. */
    method Attach(body: seq<Token>, outer: set<Flag>, add: set<Flag>, remove: set<Flag>, entry: nat,
                  ghost lo: nat, ghost inner: seq<seq<Token>>, ghost goal: seq<Token>)
      returns (ok: bool, exit: nat, ghost inner': seq<seq<Token>>)
      requires Parsed(body)
      requires Sound(alphabet, outer, edges, lo, inner) && lo <= entry < |edges|
      requires StopsSound(alphabet, outer, edges, lo, inner, goal)
      requires StopsVia(alphabet, outer, inner[entry - lo], add, remove, body, goal)
      modifies this`edges
      ensures ok <==> Compilable(body)
      ensures ok ==> Attached(alphabet, outer, old(edges), edges, lo, inner, inner', entry, exit, add, remove, body)
      ensures ok ==> StopsSound(alphabet, outer, edges, lo, inner', goal)
      ensures ok ==> StopsReached(alphabet, edges, body, Scoped(outer, add, remove), entry)
      decreases body, 1
    {
      ghost var before := edges;
      ghost var nested;
      var a;
      inner' := inner;
      ok, a, exit, nested := Build(body, Scoped(outer, add, remove));
      if ok {
        AttachFragment(alphabet, outer, before, edges, lo, inner, entry, a, exit, nested, add, remove, body);
        inner' := inner + NestedAll(inner[entry - lo], add, remove, nested);
        StopsSoundAppend(alphabet, outer, before, edges, lo, inner, inner[entry - lo], add, remove, nested, body, goal);
        StopsSoundEdge(alphabet, outer, edges, lo, inner', goal, entry, Epsilon(a));
        ghost var built := edges;
        Append(entry, Epsilon(a));
        ReachedExtends(alphabet, built, edges, body, Scoped(outer, add, remove), a);
        ReachedEntry(alphabet, edges, body, Scoped(outer, add, remove), entry, |built[entry]|);
      }
    }

    method AddSubpattern(tok: Token, flags: set<Flag>, current: nat, end: nat,
                         ghost lo: nat, ghost prefix: seq<Token>, ghost inner: seq<seq<Token>>)
      returns (ok: bool, ghost inner': seq<seq<Token>>)
      requires tok.Subpattern? && ParsedToken(tok)
      requires Ready(alphabet, flags, edges, lo, inner, current, end, prefix, tok)
      requires StopsSound(alphabet, flags, edges, lo, inner, prefix + [tok])
      modifies this`edges
      ensures ok <==> CompilableToken(tok)
      ensures ok ==> Linked(alphabet, flags, old(edges), edges, lo, inner, inner', current, end, tok)
      ensures ok ==> StopsSound(alphabet, flags, edges, lo, inner', prefix + [tok])
      ensures ok ==> StopsReached(alphabet, edges, [tok], flags, current)
      decreases tok, 1
    {
      var b;
      ViaSubpattern(alphabet, flags, prefix, tok);
      ok, b, inner' := Attach(tok.body, flags, tok.add, tok.remove, current, lo, inner, prefix + [tok]);
      if ok {
        ghost var edges1 := edges;
        EmptyEdge(alphabet, flags, edges, lo, inner', b, end);
        StopsSoundEdge(alphabet, flags, edges, lo, inner', prefix + [tok], b, Epsilon(end));
        Append(b, Epsilon(end));
        ReachedExtends(alphabet, edges1, edges, tok.body, Scoped(flags, tok.add, tok.remove), current);
        SubpatternReached(alphabet, edges, tok, flags, current);
        CompleteExtends(alphabet, edges1, edges, tok.body, Scoped(flags, tok.add, tok.remove), current, b);
        CompleteEmptyEdge(alphabet, edges, tok.body, Scoped(flags, tok.add, tok.remove), current, b, 0);
        forall t: string, i: nat, j: nat | MatchSeq(alphabet, [tok], flags, t, i, j)
          ensures Reach(alphabet, edges, t, Config(current, i), Config(end, j))
        {
          MatchOne(alphabet, tok, flags, t, i, j);
        }
      }
    }

    method AddBranches(tok: Token, flags: set<Flag>, current: nat, end: nat,
                       ghost lo: nat, ghost prefix: seq<Token>, ghost inner: seq<seq<Token>>)
      returns (ok: bool, ghost inner': seq<seq<Token>>)
      requires tok.Branch? && ParsedToken(tok)
      requires Ready(alphabet, flags, edges, lo, inner, current, end, prefix, tok)
      requires StopsSound(alphabet, flags, edges, lo, inner, prefix + [tok])
      modifies this`edges
      ensures ok <==> CompilableToken(tok)
      ensures ok ==> Linked(alphabet, flags, old(edges), edges, lo, inner, inner', current, end, tok)
      ensures ok ==> StopsSound(alphabet, flags, edges, lo, inner', prefix + [tok])
      ensures ok ==> StopsReached(alphabet, edges, [tok], flags, current)
      decreases tok, 2
    {
      hide Complete, Reach, MatchSeq, Included, SoundEdge, StopsSound, StopsReached;
      ghost var before := edges;
      ok, inner' := true, inner;
      var k := 0;
      while k < |tok.branches|
        invariant 0 <= k <= |tok.branches| && ok
        invariant forall b :: 0 <= b < k ==> Compilable(tok.branches[b].tokens)
        invariant GrowsAt(before, edges, current) && inner <= inner'
        invariant Ready(alphabet, flags, edges, lo, inner', current, end, prefix, tok)
        invariant forall b :: 0 <= b < k ==> Complete(alphabet, edges, tok.branches[b].tokens, flags, current, end)
        invariant StopsSound(alphabet, flags, edges, lo, inner', prefix + [tok])
        invariant forall b :: 0 <= b < k ==> StopsReached(alphabet, edges, tok.branches[b].tokens, flags, current)
      {
        ghost var edges0 := edges;
        ok, inner' := AddBranch(tok, k, flags, current, end, lo, prefix, inner');
        if !ok {
          return;
        }
        forall j | 0 <= j < k
          ensures Complete(alphabet, edges, tok.branches[j].tokens, flags, current, end)
          ensures StopsReached(alphabet, edges, tok.branches[j].tokens, flags, current)
        {
          ReachedExtends(alphabet, edges0, edges, tok.branches[j].tokens, flags, current);
          CompleteExtends(alphabet, edges0, edges, tok.branches[j].tokens, flags, current, end);
        }
        k := k + 1;
      }
      WidenedPrefix(alphabet, flags, inner, inner');
      BranchesComplete(edges, tok, flags, current, end);
      BranchReached(alphabet, edges, tok, flags, current);
    }

    lemma BranchesComplete(edges: Edges, tok: Token, flags: set<Flag>, current: nat, end: nat)
      requires tok.Branch?
      requires forall b :: 0 <= b < |tok.branches| ==> Complete(alphabet, edges, tok.branches[b].tokens, flags, current, end)
      ensures Complete(alphabet, edges, [tok], flags, current, end)
    {
      hide Reach;
      forall t: string, i: nat, j: nat | MatchSeq(alphabet, [tok], flags, t, i, j)
        ensures Reach(alphabet, edges, t, Config(current, i), Config(end, j))
      {
        MatchOne(alphabet, tok, flags, t, i, j);
        var b :| 0 <= b < |tok.branches| && MatchSeq(alphabet, tok.branches[b].tokens, flags, t, i, j);
        assert Complete(alphabet, edges, tok.branches[b].tokens, flags, current, end);
      }
    }

    method AddBranch(tok: Token, k: nat, flags: set<Flag>, current: nat, end: nat,
                     ghost lo: nat, ghost prefix: seq<Token>, ghost inner: seq<seq<Token>>)
      returns (ok: bool, ghost inner': seq<seq<Token>>)
      requires tok.Branch? && k < |tok.branches| && Parsed(tok.branches[k].tokens)
      requires Ready(alphabet, flags, edges, lo, inner, current, end, prefix, tok)
      requires StopsSound(alphabet, flags, edges, lo, inner, prefix + [tok])
      modifies this`edges
      ensures ok <==> Compilable(tok.branches[k].tokens)
      ensures ok ==> GrowsAt(old(edges), edges, current) && inner <= inner'
      ensures ok ==> Ready(alphabet, flags, edges, lo, inner', current, end, prefix, tok)
      ensures ok ==> Complete(alphabet, edges, tok.branches[k].tokens, flags, current, end)
      ensures ok ==> StopsSound(alphabet, flags, edges, lo, inner', prefix + [tok])
      ensures ok ==> StopsReached(alphabet, edges, tok.branches[k].tokens, flags, current)
      decreases tok, 1
    {
      assert Scoped(flags, {}, {}) == flags;
      var body, b := tok.branches[k].tokens, 0;
      ViaBranch(alphabet, flags, prefix, tok, k);
      ok, b, inner' := Attach(body, flags, {}, {}, current, lo, inner, prefix + [tok]);
      if ok {
        ghost var edges1 := edges;
        BranchIncluded(prefix, tok, flags, k);
        EmptyEdge(alphabet, flags, edges, lo, inner', b, end);
        StopsSoundEdge(alphabet, flags, edges, lo, inner', prefix + [tok], b, Epsilon(end));
        Append(b, Epsilon(end));
        ReachedExtends(alphabet, edges1, edges, body, flags, current);
        CompleteExtends(alphabet, edges1, edges, body, flags, current, b);
        CompleteEmptyEdge(alphabet, edges, body, flags, current, b, 0);
      }
    }

    lemma BranchIncluded(prefix: seq<Token>, tok: Token, flags: set<Flag>, k: nat)
      requires tok.Branch? && k < |tok.branches|
      ensures Included(alphabet, flags, Nested(prefix, {}, {}, tok.branches[k].tokens), prefix + [tok])
    {
      assert Scoped(flags, {}, {}) == flags;
      forall t: string, i: nat, j: nat
        | MatchSeq(alphabet, Nested(prefix, {}, {}, tok.branches[k].tokens), flags, t, i, j)
        ensures MatchSeq(alphabet, prefix + [tok], flags, t, i, j)
      {
        var m := NestedSplit(alphabet, flags, prefix, {}, {}, tok.branches[k].tokens, t, i, j);
        Snoc(alphabet, prefix, tok, flags, t, i, m, j);
      }
    }

    method AddRepeat(tok: Token, flags: set<Flag>, current: nat, end: nat,
                     ghost lo: nat, ghost prefix: seq<Token>, ghost inner: seq<seq<Token>>)
      returns (ok: bool, ghost inner': seq<seq<Token>>)
      requires tok.MaxRepeat? && ParsedToken(tok)
      requires Ready(alphabet, flags, edges, lo, inner, current, end, prefix, tok) && edges[current] == []
      requires StopsSound(alphabet, flags, edges, lo, inner, prefix + [tok])
      modifies this`edges
      ensures ok <==> CompilableToken(tok)
      ensures ok ==> Linked(alphabet, flags, old(edges), edges, lo, inner, inner', current, end, tok)
      ensures ok ==> StopsSound(alphabet, flags, edges, lo, inner', prefix + [tok])
      ensures ok ==> StopsReached(alphabet, edges, [tok], flags, current)
      decreases tok, 2
    {
      assert Scoped(flags, {}, {}) == flags;
      ghost var before := edges;
      ok, inner' := true, inner;
      var cursor, k := current, 0;
      CompletePowerZero(alphabet, edges, tok.body, flags, current);
      RepeatedZero(alphabet, flags, prefix, AtMost(0), tok.body);
      while k < tok.minimum
        invariant 0 <= k <= tok.minimum && ok && (k > 0 ==> Compilable(tok.body))
        invariant Copying(tok, flags, before, edges, lo, prefix, inner, inner', current, end, cursor, k)
        invariant edges[cursor] == []
        invariant StopsSound(alphabet, flags, edges, lo, inner', prefix + [tok])
        invariant PowerReached(alphabet, edges, tok.body, flags, k, current)
      {
        ok, cursor, inner' := Copy(tok, flags, before, lo, prefix, inner, inner', current, end, cursor, k);
        if !ok {
          return;
        }
        k := k + 1;
      }
      if tok.maximum.Unbounded? {
        ok, inner' := Loop(tok, flags, before, lo, prefix, inner, inner', current, end, cursor);
      } else {
        ok, inner' := Options(tok, flags, before, lo, prefix, inner, inner', current, end, cursor);
      }
    }

    /** After `k` copies of the body in a row, ending in `cursor`. */
    ghost predicate Copying(tok: Token, flags: set<Flag>, before: Edges, edges: Edges, lo: nat, prefix: seq<Token>,
                            inner: seq<seq<Token>>, inner': seq<seq<Token>>,
                            current: nat, end: nat, cursor: nat, k: nat) {
      && tok.MaxRepeat? && current < |before| && lo <= current && end < |before| && lo <= end && end != current
      && |before| == lo + |inner|
      && GrowsAt(before, edges, current)
      && Sound(alphabet, flags, edges, lo, inner') && inner <= inner'
      && (cursor == current || |before| <= cursor < |edges|)
      && inner[end - lo] == prefix + [tok]
      && Included(alphabet, flags, inner'[cursor - lo], Repeated(prefix, k, AtMost(k), tok.body))
      && CompletePower(alphabet, edges, tok.body, flags, k, k + 1, current, cursor)
    }

    /** One more copy of the body behind `cursor`. */
    method Copy(tok: Token, flags: set<Flag>, ghost before: Edges, ghost lo: nat, ghost prefix: seq<Token>,
                ghost inner: seq<seq<Token>>, ghost inner0: seq<seq<Token>>,
                ghost current: nat, ghost end: nat, cursor: nat, ghost k: nat)
      returns (ok: bool, cursor': nat, ghost inner': seq<seq<Token>>)
      requires tok.MaxRepeat? && Parsed(tok.body)
      requires Copying(tok, flags, before, edges, lo, prefix, inner, inner0, current, end, cursor, k)
      requires StopsSound(alphabet, flags, edges, lo, inner0, prefix + [tok])
      requires PowerReached(alphabet, edges, tok.body, flags, k, current) && Within(k + 1, tok.maximum)
      modifies this`edges
      ensures ok <==> Compilable(tok.body)
      ensures ok ==> Copying(tok, flags, before, edges, lo, prefix, inner, inner', current, end, cursor', k + 1)
      ensures ok ==> edges[cursor'] == [] && GrowsAt(old(edges), edges, cursor)
      ensures ok ==> StopsSound(alphabet, flags, edges, lo, inner', prefix + [tok])
      ensures ok ==> PowerReached(alphabet, edges, tok.body, flags, k + 1, current)
      decreases tok, 0
    {
      assert Scoped(flags, {}, {}) == flags;
      ghost var edges0 := edges;
      ViaRepeat(alphabet, flags, prefix, tok, inner0[cursor - lo], k, AtMost(k));
      ok, cursor', inner' := Attach(tok.body, flags, {}, {}, cursor, lo, inner0, prefix + [tok]);
      if ok {
        CompletePowerExtends(alphabet, edges0, edges, tok.body, flags, k, k + 1, current, cursor);
        PowerReachedExtends(alphabet, edges0, edges, tok.body, flags, k, current);
        PowerReachedNext(alphabet, edges, tok.body, flags, k, current, cursor);
        CompletePowerNext(alphabet, edges, tok.body, flags, k, current, cursor, cursor');
        RepeatedNext(alphabet, flags, prefix, inner0[cursor - lo], k, tok.body);
      }
    }

    /** `maximum == MAXREPEAT`: a loop at `cursor`. */
    method Loop(tok: Token, flags: set<Flag>, ghost before: Edges, ghost lo: nat, ghost prefix: seq<Token>,
                ghost inner: seq<seq<Token>>, ghost inner0: seq<seq<Token>>,
                ghost current: nat, end: nat, cursor: nat)
      returns (ok: bool, ghost inner': seq<seq<Token>>)
      requires tok.MaxRepeat? && tok.maximum.Unbounded? && Parsed(tok.body)
      requires Copying(tok, flags, before, edges, lo, prefix, inner, inner0, current, end, cursor, tok.minimum)
      requires edges[cursor] == [] && inner[current - lo] == prefix
      requires StopsSound(alphabet, flags, edges, lo, inner0, prefix + [tok])
      requires PowerReached(alphabet, edges, tok.body, flags, tok.minimum, current)
      modifies this`edges
      ensures ok <==> Compilable(tok.body)
      ensures ok ==> Linked(alphabet, flags, before, edges, lo, inner, inner', current, end, tok)
      ensures ok ==> StopsSound(alphabet, flags, edges, lo, inner', prefix + [tok])
      ensures ok ==> StopsReached(alphabet, edges, [tok], flags, current)
      decreases tok, 1
    {
      hide Complete, CompletePower, Reach, MatchSeq, Included, SoundEdge, Compilable, Parsed;
      hide StopsSound, StopsReached, PowerReached, StopsVia;
      assert Scoped(flags, {}, {}) == flags;
      ghost var edges0 := edges;
      ghost var wide := Repeated(prefix, tok.minimum, Unbounded, tok.body);
      ghost var inner1 := inner0[cursor - lo := wide];
      LoopLabels(edges, tok, flags, before, lo, prefix, inner, inner0, current, end, cursor);
      EmptyEdge(alphabet, flags, edges, lo, inner1, cursor, end);
      StopsSoundRelabel(alphabet, flags, edges, lo, inner0, prefix + [tok], cursor, wide);
      StopsSoundEdge(alphabet, flags, edges, lo, inner1, prefix + [tok], cursor, Epsilon(end));
      Append(cursor, Epsilon(end));
      ghost var edges1 := edges;
      var b;
      IncludedSelf(flags, wide);
      ViaRepeat(alphabet, flags, prefix, tok, wide, tok.minimum, Unbounded);
      ok, b, inner' := Attach(tok.body, flags, {}, {}, cursor, lo, inner1, prefix + [tok]);
      if ok {
        ghost var edges2 := edges;
        RepeatedLoop(alphabet, flags, prefix, tok.minimum, tok.body);
        EmptyEdge(alphabet, flags, edges, lo, inner', b, cursor);
        StopsSoundEdge(alphabet, flags, edges, lo, inner', prefix + [tok], b, Epsilon(cursor));
        Append(b, Epsilon(cursor));
        LoopCloses(edges0, edges1, edges2, edges, tok, flags, current, cursor, b);
        LoopComplete(edges, tok, flags, current, cursor);
        assert Extends(edges0, edges) && Extends(edges2, edges);
        PowerReachedExtends(alphabet, edges0, edges, tok.body, flags, tok.minimum, current);
        ReachedExtends(alphabet, edges2, edges, tok.body, flags, cursor);
        LoopReached(alphabet, edges, tok, flags, current, cursor);
      }
    }

    lemma IncludedSelf(flags: set<Flag>, ts: seq<Token>)
      ensures Included(alphabet, flags, ts, ts)
    {
    }

    /** The label of the loop's state widens to any number of further copies. */
    lemma LoopLabels(edges: Edges, tok: Token, flags: set<Flag>, before: Edges, lo: nat, prefix: seq<Token>,
                     inner: seq<seq<Token>>, inner0: seq<seq<Token>>, current: nat, end: nat, cursor: nat)
      requires tok.MaxRepeat? && tok.maximum.Unbounded?
      requires Copying(tok, flags, before, edges, lo, prefix, inner, inner0, current, end, cursor, tok.minimum)
      requires edges[cursor] == []
      ensures var inner1 := inner0[cursor - lo := Repeated(prefix, tok.minimum, Unbounded, tok.body)];
              Sound(alphabet, flags, edges, lo, inner1) && Widened(alphabet, flags, inner, inner1)
    {
      hide CompletePower;
      var wide := Repeated(prefix, tok.minimum, Unbounded, tok.body);
      RepeatedWiden(alphabet, flags, prefix, tok.minimum, tok.minimum, Unbounded, tok.body);
      IncludedTrans(alphabet, flags, inner0[cursor - lo],
                    Repeated(prefix, tok.minimum, AtMost(tok.minimum), tok.body), wide);
      SoundRelabel(alphabet, flags, edges, lo, inner0, cursor, wide);
      LoopWidened(inner, inner0, flags, cursor - lo, wide);
    }

    /** The edge back from the body's end closes the loop. */
    lemma LoopCloses(edges0: Edges, edges1: Edges, edges2: Edges, edges: Edges, tok: Token, flags: set<Flag>,
                     current: nat, cursor: nat, b: nat)
      requires Extends(edges0, edges1) && Extends(edges1, edges2) && Extends(edges2, edges)
      requires tok.MaxRepeat?
      requires CompletePower(alphabet, edges0, tok.body, flags, tok.minimum, tok.minimum + 1, current, cursor)
      requires Complete(alphabet, edges2, tok.body, flags, cursor, b)
      requires b < |edges| && 0 < |edges[b]| && edges[b][0] == Epsilon(cursor)
      ensures CompletePower(alphabet, edges, tok.body, flags, tok.minimum, tok.minimum + 1, current, cursor)
      ensures Complete(alphabet, edges, tok.body, flags, cursor, cursor)
    {
      hide Complete, CompletePower;
      assert Extends(edges0, edges);
      CompletePowerExtends(alphabet, edges0, edges, tok.body, flags, tok.minimum, tok.minimum + 1, current, cursor);
      CompleteExtends(alphabet, edges2, edges, tok.body, flags, cursor, b);
      CompleteEmptyEdge(alphabet, edges, tok.body, flags, cursor, b, 0);
    }

    lemma LoopComplete(edges: Edges, tok: Token, flags: set<Flag>, current: nat, cursor: nat)
      requires tok.MaxRepeat? && tok.maximum.Unbounded?
      requires CompletePower(alphabet, edges, tok.body, flags, tok.minimum, tok.minimum + 1, current, cursor)
      requires Complete(alphabet, edges, tok.body, flags, cursor, cursor)
      requires cursor < |edges| && 0 < |edges[cursor]| && edges[cursor][0].Epsilon?
      ensures Complete(alphabet, edges, [tok], flags, current, edges[cursor][0].target)
    {
      forall t: string, i: nat, j: nat | MatchSeq(alphabet, [tok], flags, t, i, j)
        ensures Reach(alphabet, edges, t, Config(current, i), Config(edges[cursor][0].target, j))
      {
        MatchOne(alphabet, tok, flags, t, i, j);
        var n: nat :| tok.minimum <= n && MatchPower(alphabet, tok.body, flags, n, t, i, j);
        ReachLoop(alphabet, edges, tok.body, flags, tok.minimum, n, current, cursor, t, i, j);
        ReachEmptyEdge(alphabet, edges, t, Config(current, i), cursor, 0, j);
      }
    }

    lemma LoopWidened(inner: seq<seq<Token>>, inner0: seq<seq<Token>>, flags: set<Flag>, k: nat, wide: seq<Token>)
      requires inner <= inner0 && k < |inner0| && Included(alphabet, flags, inner0[k], wide)
      ensures Widened(alphabet, flags, inner, inner0[k := wide])
    {
    }

    /** A bounded maximum: `maximum - minimum` optional copies. */
    method Options(tok: Token, flags: set<Flag>, ghost before: Edges, ghost lo: nat, ghost prefix: seq<Token>,
                   ghost inner: seq<seq<Token>>, ghost inner0: seq<seq<Token>>,
                   ghost current: nat, end: nat, start: nat)
      returns (ok: bool, ghost inner': seq<seq<Token>>)
      requires tok.MaxRepeat? && tok.maximum.AtMost? && ParsedToken(tok)
      requires Copying(tok, flags, before, edges, lo, prefix, inner, inner0, current, end, start, tok.minimum)
      requires tok.minimum > 0 ==> Compilable(tok.body)
      requires StopsSound(alphabet, flags, edges, lo, inner0, prefix + [tok])
      requires PowerReached(alphabet, edges, tok.body, flags, tok.minimum, current)
      modifies this`edges
      ensures ok <==> CompilableToken(tok)
      ensures ok ==> Linked(alphabet, flags, before, edges, lo, inner, inner', current, end, tok)
      ensures ok ==> StopsSound(alphabet, flags, edges, lo, inner', prefix + [tok])
      ensures ok ==> StopsReached(alphabet, edges, [tok], flags, current)
      decreases tok, 1
    {
      ok, inner' := true, inner0;
      var cursor, k := start, tok.minimum;
      while k < tok.maximum.n
        invariant tok.minimum <= k <= tok.maximum.n && ok && (k > 0 ==> Compilable(tok.body))
        invariant Copying(tok, flags, before, edges, lo, prefix, inner, inner', current, end, cursor, k)
        invariant CompletePower(alphabet, edges, tok.body, flags, tok.minimum, k, current, end)
        invariant StopsSound(alphabet, flags, edges, lo, inner', prefix + [tok])
        invariant PowerReached(alphabet, edges, tok.body, flags, k, current)
      {
        ghost var edges0 := edges;
        Skip(tok, flags, before, lo, prefix, inner, inner', current, end, cursor, k);
        ghost var edges1 := edges;
        ok, cursor, inner' := Copy(tok, flags, before, lo, prefix, inner, inner', current, end, cursor, k);
        if !ok {
          return;
        }
        CompletePowerExtends(alphabet, edges1, edges, tok.body, flags, tok.minimum, k + 1, current, end);
        k := k + 1;
      }
      Skip(tok, flags, before, lo, prefix, inner, inner', current, end, cursor, k);
      forall t: string, i: nat, j: nat | MatchSeq(alphabet, [tok], flags, t, i, j)
        ensures Reach(alphabet, edges, t, Config(current, i), Config(end, j))
      {
        MatchOne(alphabet, tok, flags, t, i, j);
      }
      BoundedReached(alphabet, edges, tok, flags, current);
      assert Widened(alphabet, flags, inner, inner');
    }

    /** The empty edge that stops an optional repetition at `cursor`. */
    method Skip(tok: Token, flags: set<Flag>, ghost before: Edges, ghost lo: nat, ghost prefix: seq<Token>,
                ghost inner: seq<seq<Token>>, ghost inner': seq<seq<Token>>,
                ghost current: nat, end: nat, cursor: nat, ghost k: nat)
      requires tok.MaxRepeat? && tok.minimum <= k && Within(k, tok.maximum)
      requires Copying(tok, flags, before, edges, lo, prefix, inner, inner', current, end, cursor, k)
      requires CompletePower(alphabet, edges, tok.body, flags, tok.minimum, k, current, end)
      requires StopsSound(alphabet, flags, edges, lo, inner', prefix + [tok])
      requires PowerReached(alphabet, edges, tok.body, flags, k, current)
      modifies this`edges
      ensures Copying(tok, flags, before, edges, lo, prefix, inner, inner', current, end, cursor, k)
      ensures CompletePower(alphabet, edges, tok.body, flags, tok.minimum, k + 1, current, end)
      ensures StopsSound(alphabet, flags, edges, lo, inner', prefix + [tok])
      ensures PowerReached(alphabet, edges, tok.body, flags, k, current)
    {
      ghost var edges0 := edges;
      RepeatedWiden(alphabet, flags, prefix, k, tok.minimum, tok.maximum, tok.body);
      EmptyEdge(alphabet, flags, edges, lo, inner', cursor, end);
      StopsSoundEdge(alphabet, flags, edges, lo, inner', prefix + [tok], cursor, Epsilon(end));
      Append(cursor, Epsilon(end));
      PowerReachedExtends(alphabet, edges0, edges, tok.body, flags, k, current);
      CompletePowerExtends(alphabet, edges0, edges, tok.body, flags, k, k + 1, current, cursor);
      CompletePowerExtends(alphabet, edges0, edges, tok.body, flags, tok.minimum, k, current, end);
      CompletePowerEmptyEdge(alphabet, edges, tok.body, flags, k, k + 1, current, cursor, |edges[cursor]| - 1);
    }

    /** One iteration of the constructor's loop over the patterns. */
    method AddPattern(p: Pattern) returns (ok: bool)
      requires Valid() && Parsed(p.tokens)
      modifies this
      ensures ok <==> Compilable(p.tokens)
      ensures ok ==> Valid() && patterns == old(patterns) + [p]
    {
      hide Implements, Fragment, Marks, Parsed;
      ghost var before := edges;
      var first, last;
      ghost var inner;
      ok, first, last, inner := Build(p.tokens, p.flags);
      if ok {
        LastIsNew(alphabet, before, edges, starts, lasts, patterns, owners, labels, p, first, last, inner);
        ImplementsMore(alphabet, before, edges, starts, lasts, patterns, owners, labels, p, first, last, inner);
        HaltingMore(alphabet, before, edges, starts, patterns, owners, labels, p, first, inner);
        MarksMore(accepts, lasts, last);
        ghost var earlier := patterns;
        accepts := accepts[last := |starts|];
        starts := starts + [first];
        lasts := lasts + [last];
        owners := owners + seq(|inner|, _ => |earlier|);
        labels := labels + inner;
        patterns := patterns + [p];
      }
    }
  }

  /** `StreamingPatterns(patterns)`: fails exactly on syntax the compiler does not know. */
  method Compile(alphabet: Alphabet, patterns: seq<Pattern>) returns (ok: bool, machine: StreamingPatterns)
    requires forall n :: 0 <= n < |patterns| ==> Parsed(patterns[n].tokens)
    ensures ok <==> forall n :: 0 <= n < |patterns| ==> Compilable(patterns[n].tokens)
    ensures ok ==> machine.Valid() && machine.patterns == patterns && machine.alphabet == alphabet && fresh(machine)
  {
    machine := new StreamingPatterns(alphabet);
    ok := true;
    var n := 0;
    while n < |patterns|
      invariant 0 <= n <= |patterns| && ok && fresh(machine)
      invariant forall k :: 0 <= k < n ==> Compilable(patterns[k].tokens)
      invariant machine.Valid() && machine.patterns == patterns[..n] && machine.alphabet == alphabet
    {
      ok := machine.AddPattern(patterns[n]);
      if !ok {
        return;
      }
      n := n + 1;
    }
  }
}
