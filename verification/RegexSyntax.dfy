/**
 The supported subset of Python's parsed regular expressions, and what it means for a
 token list to match a span of a text.  The meaning is the ordinary one: it mentions
 spans of the whole text only, never states, edges or chunks.
 */
module RegexSyntax {

  import opened Common

  datatype Flag = IgnoreCase | Multiline

  datatype Category = Space | NotSpace | Word | Digit | OtherCategory

  datatype ClassItem =
    | Single(c: char)
    | Range(lo: char, hi: char)
    | InCategory(category: Category)

  datatype Anchor = Boundary | Beginning | BeginningString | EndString | OtherAnchor

  datatype Bound = Unbounded | AtMost(n: nat)

  datatype Token =
    | Literal(c: char)
    | In(negated: bool, items: seq<ClassItem>)
    | Subpattern(add: set<Flag>, remove: set<Flag>, body: seq<Token>)
    | Branch(branches: seq<Alternative>)
    | MaxRepeat(minimum: nat, maximum: Bound, body: seq<Token>)
    | At(anchor: Anchor)
    | Unsupported

  datatype Alternative = Alternative(tokens: seq<Token>)

  /** A one-character test: what `re.compile("[...]", flags).fullmatch` decides. */
  datatype Matcher = Matcher(negated: bool, items: seq<ClassItem>, flags: set<Flag>)

  /**
   The character tables of the host language: which characters a class item accepts under
   some flags, and which characters are alphanumeric.
   */
  datatype Alphabet = Alphabet(item: (ClassItem, set<Flag>, char) -> bool, alnum: char -> bool)

  predicate Accepts(al: Alphabet, m: Matcher, c: char) {
    m.negated != exists k :: 0 <= k < |m.items| && al.item(m.items[k], m.flags, c)
  }

  predicate IsWord(al: Alphabet, c: Option<char>) {
    c.Some? && (al.alnum(c.value) || c.value == '_')
  }

  /** Whether a zero-width anchor holds between `previous` and `next`. */
  predicate Holds(al: Alphabet, anchor: Anchor, fl: set<Flag>,
                  previous: Option<char>, next: Option<char>, beginning: bool) {
    match anchor
    case Boundary => IsWord(al, previous) != IsWord(al, next)
    case Beginning => beginning || (Multiline in fl && previous == Some('\n'))
    case BeginningString => beginning
    case EndString => next.None?
    case OtherAnchor => false
  }

  function Before(t: string, x: nat): Option<char> {
    if 0 < x <= |t| then Some(t[x - 1]) else None
  }

  function After(t: string, x: nat): Option<char> {
    if x < |t| then Some(t[x]) else None
  }

  predicate HoldsAt(al: Alphabet, anchor: Anchor, fl: set<Flag>, t: string, x: nat) {
    Holds(al, anchor, fl, Before(t, x), After(t, x), x == 0)
  }

  function Scoped(fl: set<Flag>, add: set<Flag>, remove: set<Flag>): set<Flag> {
    (fl + add) - remove
  }

  predicate Within(n: nat, b: Bound) {
    b.Unbounded? || n <= b.n
  }

  // ---------------------------------------------------------------- Denotation

  /** The token list `ts`, read under flags `fl`, matches the span `[i, j)` of `t`. */
  ghost predicate MatchSeq(al: Alphabet, ts: seq<Token>, fl: set<Flag>, t: string, i: nat, j: nat)
    decreases ts, 0
  {
    i <= j <= |t| &&
    if ts == [] then i == j
    else exists k: nat :: MatchToken(al, ts[0], fl, t, i, k) && MatchSeq(al, ts[1..], fl, t, k, j)
  }

  ghost predicate MatchToken(al: Alphabet, tok: Token, fl: set<Flag>, t: string, i: nat, j: nat)
    decreases tok, 0
  {
    i <= j <= |t| &&
    match tok
    case Literal(c) => j == i + 1 && Accepts(al, Matcher(false, [Single(c)], fl), t[i])
    case In(negated, items) => j == i + 1 && Accepts(al, Matcher(negated, items, fl), t[i])
    case Subpattern(add, remove, body) => MatchSeq(al, body, Scoped(fl, add, remove), t, i, j)
    case Branch(branches) => exists b :: 0 <= b < |branches| && MatchSeq(al, branches[b].tokens, fl, t, i, j)
    case MaxRepeat(minimum, maximum, body) =>
      exists n: nat :: minimum <= n && Within(n, maximum) && MatchPower(al, body, fl, n, t, i, j)
    case At(anchor) => i == j && HoldsAt(al, anchor, fl, t, i)
    case Unsupported => false
  }

  /** Exactly `n` consecutive matches of `body`. */
  ghost predicate MatchPower(al: Alphabet, body: seq<Token>, fl: set<Flag>, n: nat, t: string, i: nat, j: nat)
    decreases body, n + 1
  {
    i <= j <= |t| &&
    if n == 0 then i == j
    else exists k: nat :: MatchSeq(al, body, fl, t, i, k) && MatchPower(al, body, fl, n - 1, t, k, j)
  }

  // ---------------------------------------------------------------- What single tokens match

  predicate WordChar(al: Alphabet, c: char) {
    c in "_" || al.alnum(c)
  }

  /** Between which characters of the text an anchor matches. */
  lemma AnchorsMatch(al: Alphabet, fl: set<Flag>, t: string, x: nat)
    requires x <= |t|
    ensures MatchToken(al, At(BeginningString), fl, t, x, x) <==> x == 0
    ensures MatchToken(al, At(EndString), fl, t, x, x) <==> x == |t|
    ensures MatchToken(al, At(Beginning), fl, t, x, x) <==> x == 0 || (t[x - 1] == '\n' && Multiline in fl)
    ensures MatchToken(al, At(Boundary), fl, t, x, x) <==>
      (x > 0 && WordChar(al, t[x - 1]) && (x == |t| || !WordChar(al, t[x])))
      || (x < |t| && WordChar(al, t[x]) && (x == 0 || !WordChar(al, t[x - 1])))
  {
  }

  /** A set matches one character that an item of it accepts, a negated set one that none of them does. */
  lemma SetMatches(al: Alphabet, items: seq<ClassItem>, fl: set<Flag>, t: string, i: nat, j: nat)
    ensures MatchToken(al, In(false, items), fl, t, i, j) <==>
      i < |t| && j == i + 1 && exists k :: 0 <= k < |items| && al.item(items[k], fl, t[i])
    ensures MatchToken(al, In(true, items), fl, t, i, j) <==>
      i < |t| && j == i + 1 && forall k :: 0 <= k < |items| ==> !al.item(items[k], fl, t[i])
  {
  }

  /** The flags of a group hold inside it: those around it and its own, but not those it removes. */
  lemma GroupMatches(al: Alphabet, add: set<Flag>, remove: set<Flag>, c: char, fl: set<Flag>, t: string, i: nat)
    requires i < |t|
    ensures var inner := set f: Flag | f !in remove && (f in add || f in fl);
      MatchToken(al, Subpattern(add, remove, [Literal(c)]), fl, t, i, i + 1) <==> al.item(Single(c), inner, t[i])
  {
    var inner := set f: Flag | f !in remove && (f in add || f in fl);
    assert inner == Scoped(fl, add, remove);
    var items, body := [Single(c)], [Literal(c)];
    assert items[0] == Single(c) && body[0] == Literal(c) && body[1..] == [];
    assert Accepts(al, Matcher(false, items, inner), t[i]) <==> al.item(items[0], inner, t[i]);
    assert MatchSeq(al, [], inner, t, i + 1, i + 1);
    assert MatchSeq(al, body, inner, t, i, i + 1) <==> MatchToken(al, body[0], inner, t, i, i + 1);
  }

  /** What the parser promises: bounds in order.  Unsupported syntax may still occur. */
  predicate Parsed(ts: seq<Token>)
    decreases ts
  {
    forall k :: 0 <= k < |ts| ==> ParsedToken(ts[k])
  }

  predicate ParsedToken(tok: Token)
    decreases tok
  {
    match tok
    case Subpattern(_, _, body) => Parsed(body)
    case Branch(branches) => forall b :: 0 <= b < |branches| ==> Parsed(branches[b].tokens)
    case MaxRepeat(minimum, maximum, body) => Within(minimum, maximum) && Parsed(body)
    case _ => true
  }

  /** The syntax the compiler knows.  Zero-width anchors are only rejected while scanning. */
  predicate Compilable(ts: seq<Token>)
    decreases ts
  {
    forall k :: 0 <= k < |ts| ==> CompilableToken(ts[k])
  }

  predicate CompilableToken(tok: Token)
    decreases tok
  {
    match tok
    case In(_, items) => KnownCategories(items)
    case Subpattern(_, _, body) => Compilable(body)
    case Branch(branches) => forall b :: 0 <= b < |branches| ==> Compilable(branches[b].tokens)
    case MaxRepeat(minimum, maximum, body) =>
      (minimum == 0 && maximum == AtMost(0)) || Compilable(body)
    case Unsupported => false
    case _ => true
  }

  /** Every zero-width anchor is one that a scan can decide. */
  predicate Anchored(ts: seq<Token>)
    decreases ts
  {
    forall k :: 0 <= k < |ts| ==> AnchoredToken(ts[k])
  }

  predicate AnchoredToken(tok: Token)
    decreases tok
  {
    match tok
    case Subpattern(_, _, body) => Anchored(body)
    case Branch(branches) => forall b :: 0 <= b < |branches| ==> Anchored(branches[b].tokens)
    case MaxRepeat(_, _, body) => Anchored(body)
    case At(anchor) => anchor != OtherAnchor
    case _ => true
  }

  predicate KnownCategories(items: seq<ClassItem>) {
    forall k :: 0 <= k < |items| ==> items[k] != InCategory(OtherCategory)
  }

  /** A set is supported exactly if it names no other category. */
  lemma SetsSupported(negated: bool, items: seq<ClassItem>)
    ensures Compilable([In(negated, items)]) <==> InCategory(OtherCategory) !in items
  {
    var ts := [In(negated, items)];
    assert ts[0] == In(negated, items) && ts[1..] == [];
    assert Compilable(ts) <==> KnownCategories(items);
  }

  // ---------------------------------------------------------------- Laws

  lemma Uncons(al: Alphabet, ts: seq<Token>, fl: set<Flag>, t: string, i: nat, j: nat) returns (k: nat)
    requires ts != [] && MatchSeq(al, ts, fl, t, i, j)
    ensures MatchToken(al, ts[0], fl, t, i, k) && MatchSeq(al, ts[1..], fl, t, k, j)
  {
    k :| MatchToken(al, ts[0], fl, t, i, k) && MatchSeq(al, ts[1..], fl, t, k, j);
  }

  lemma Cons(al: Alphabet, ts: seq<Token>, fl: set<Flag>, t: string, i: nat, k: nat, j: nat)
    requires ts != [] && MatchToken(al, ts[0], fl, t, i, k) && MatchSeq(al, ts[1..], fl, t, k, j)
    ensures MatchSeq(al, ts, fl, t, i, j)
  {
  }

  /** Splitting a match of a concatenation, and joining two matches back together. */
  lemma {:induction false} SplitMatch(al: Alphabet, a: seq<Token>, b: seq<Token>, fl: set<Flag>, t: string, i: nat, j: nat)
    returns (k: nat)
    requires MatchSeq(al, a + b, fl, t, i, j)
    ensures MatchSeq(al, a, fl, t, i, k) && MatchSeq(al, b, fl, t, k, j)
    decreases a
  {
    if a == [] {
      assert a + b == b;
      k := i;
    } else {
      assert (a + b)[0] == a[0] && (a + b)[1..] == a[1..] + b;
      var m := Uncons(al, a + b, fl, t, i, j);
      k := SplitMatch(al, a[1..], b, fl, t, m, j);
      Cons(al, a, fl, t, i, m, k);
    }
  }

  lemma {:induction false} JoinMatch(al: Alphabet, a: seq<Token>, b: seq<Token>, fl: set<Flag>, t: string, i: nat, k: nat, j: nat)
    requires MatchSeq(al, a, fl, t, i, k) && MatchSeq(al, b, fl, t, k, j)
    ensures MatchSeq(al, a + b, fl, t, i, j)
    decreases a
  {
    if a == [] {
      assert a + b == b;
    } else {
      assert (a + b)[0] == a[0] && (a + b)[1..] == a[1..] + b;
      var m := Uncons(al, a, fl, t, i, k);
      JoinMatch(al, a[1..], b, fl, t, m, k, j);
      Cons(al, a + b, fl, t, i, m, j);
    }
  }

  lemma MatchOne(al: Alphabet, tok: Token, fl: set<Flag>, t: string, i: nat, j: nat)
    ensures MatchSeq(al, [tok], fl, t, i, j) <==> MatchToken(al, tok, fl, t, i, j)
  {
    assert [tok][1..] == [];
    if MatchToken(al, tok, fl, t, i, j) {
      Cons(al, [tok], fl, t, i, j, j);
    }
    if MatchSeq(al, [tok], fl, t, i, j) {
      var k := Uncons(al, [tok], fl, t, i, j);
    }
  }

  /** The same two laws for one more token on the right. */
  lemma UnSnoc(al: Alphabet, a: seq<Token>, tok: Token, fl: set<Flag>, t: string, i: nat, j: nat) returns (k: nat)
    requires MatchSeq(al, a + [tok], fl, t, i, j)
    ensures MatchSeq(al, a, fl, t, i, k) && MatchToken(al, tok, fl, t, k, j)
  {
    k := SplitMatch(al, a, [tok], fl, t, i, j);
    MatchOne(al, tok, fl, t, k, j);
  }

  lemma Snoc(al: Alphabet, a: seq<Token>, tok: Token, fl: set<Flag>, t: string, i: nat, k: nat, j: nat)
    requires MatchSeq(al, a, fl, t, i, k) && MatchToken(al, tok, fl, t, k, j)
    ensures MatchSeq(al, a + [tok], fl, t, i, j)
  {
    MatchOne(al, tok, fl, t, k, j);
    JoinMatch(al, a, [tok], fl, t, i, k, j);
  }

  lemma PowerUncons(al: Alphabet, body: seq<Token>, fl: set<Flag>, n: nat, t: string, i: nat, j: nat) returns (k: nat)
    requires MatchPower(al, body, fl, n + 1, t, i, j)
    ensures MatchSeq(al, body, fl, t, i, k) && MatchPower(al, body, fl, n, t, k, j)
  {
    k :| MatchSeq(al, body, fl, t, i, k) && MatchPower(al, body, fl, n, t, k, j);
  }

  lemma PowerCons(al: Alphabet, body: seq<Token>, fl: set<Flag>, n: nat, t: string, i: nat, k: nat, j: nat)
    requires MatchSeq(al, body, fl, t, i, k) && MatchPower(al, body, fl, n, t, k, j)
    ensures MatchPower(al, body, fl, n + 1, t, i, j)
  {
  }

  lemma {:induction false} PowerUnsnoc(al: Alphabet, body: seq<Token>, fl: set<Flag>, n: nat, t: string, i: nat, j: nat)
    returns (k: nat)
    requires MatchPower(al, body, fl, n + 1, t, i, j)
    ensures MatchPower(al, body, fl, n, t, i, k) && MatchSeq(al, body, fl, t, k, j)
    decreases n
  {
    var m := PowerUncons(al, body, fl, n, t, i, j);
    if n == 0 {
      k := i;
    } else {
      k := PowerUnsnoc(al, body, fl, n - 1, t, m, j);
      PowerCons(al, body, fl, n - 1, t, i, m, k);
    }
  }

  lemma {:induction false} PowerSnoc(al: Alphabet, body: seq<Token>, fl: set<Flag>, n: nat, t: string, i: nat, k: nat, j: nat)
    requires MatchPower(al, body, fl, n, t, i, k) && MatchSeq(al, body, fl, t, k, j)
    ensures MatchPower(al, body, fl, n + 1, t, i, j)
    decreases n
  {
    if n == 0 {
      PowerCons(al, body, fl, 0, t, i, j, j);
    } else {
      var m := PowerUncons(al, body, fl, n - 1, t, i, k);
      PowerSnoc(al, body, fl, n - 1, t, m, k, j);
      PowerCons(al, body, fl, n, t, i, m, j);
    }
  }
}
