/**
 The term search of `classify_review_profile` in scripts/lit-push-ready.py.  The stream is
 searched chunk by chunk with a short overlap.  It never reports a term that is not there.
 Some terms that overlap themselves between word boundaries can be hidden from it; every other
 term is found exactly when it is there.
 */
module TermSearch {
  import opened Common

  /** `[a-z0-9]`; the stream is lower-cased. */
  predicate Alnum(c: char) {
    'a' <= c <= 'z' || '0' <= c <= '9'
  }

  /** `[a-z][a-z0-9_]{1,63}` */
  predicate ValidTerm(t: string) {
    2 <= |t| <= 64 && 'a' <= t[0] <= 'z' && forall k :: 0 <= k < |t| ==> Alnum(t[k]) || t[k] == '_'
  }

  /** `(?<![a-z0-9])term(?![a-z0-9])` matches at `p`. */
  predicate MatchAt(text: string, t: string, p: nat) {
    && p + |t| <= |text| && text[p..p + |t|] == t
    && (p == 0 || !Alnum(text[p - 1])) && (p + |t| == |text| || !Alnum(text[p + |t|]))
  }

  const LETTERS := "abcdefghijklmnopqrstuvwxyz"
  const DIGITS := "0123456789"

  predicate Word(c: char) {
    c in LETTERS || c in DIGITS
  }

  lemma LettersAre()
    ensures |LETTERS| == 26 && forall k :: 0 <= k < 26 ==> LETTERS[k] as int == 97 + k
  {
  }

  lemma DigitsAre()
    ensures |DIGITS| == 10 && forall k :: 0 <= k < 10 ==> DIGITS[k] as int == 48 + k
  {
  }

  lemma WordIs(c: char)
    ensures Word(c) <==> Alnum(c)
  {
    hide LETTERS, DIGITS;
    LettersAre();
    DigitsAre();
    if 'a' <= c <= 'z' {
      assert LETTERS[c as int - 97] == c;
    }
    if '0' <= c <= '9' {
      assert DIGITS[c as int - 48] == c;
    }
  }

  /** `front` and `back` stand around the term, and neither touches it with a letter or a digit. */
  predicate Around(text: string, t: string, front: string, back: string) {
    text == front + t + back && (front == "" || !Word(front[|front| - 1])) && (back == "" || !Word(back[0]))
  }

  /** A match is the term by itself. */
  lemma MatchIs(text: string, t: string, p: nat)
    ensures MatchAt(text, t, p) <==> exists front, back :: |front| == p && Around(text, t, front, back)
  {
    hide Word, Alnum;
    if p > 0 && p <= |text| {
      WordIs(text[p - 1]);
    }
    if p + |t| < |text| {
      WordIs(text[p + |t|]);
    }
    if MatchAt(text, t, p) {
      var front, back := text[..p], text[p + |t|..];
      assert text == front + t + back;
      assert Around(text, t, front, back);
    }
    forall front, back | |front| == p && Around(text, t, front, back) ensures MatchAt(text, t, p) {
      assert text[p..p + |t|] == t;
    }
  }

  /** The starts of `re.finditer`'s matches from `from` on: leftmost first, none inside another. */
  function Matches(text: string, t: string, from: nat): (ps: seq<nat>)
    decreases |text| - from
  {
    if t == [] || from + |t| > |text| then []
    else if MatchAt(text, t, from) then [from] + Matches(text, t, from + |t|)
    else Matches(text, t, from + 1)
  }

  lemma {:induction false} MatchesMatch(text: string, t: string, from: nat)
    ensures forall p :: p in Matches(text, t, from) ==> from <= p && MatchAt(text, t, p)
    decreases |text| - from
  {
    if t != [] && from + |t| <= |text| {
      MatchesMatch(text, t, if MatchAt(text, t, from) then from + |t| else from + 1);
    }
  }

  /** A match is found unless an earlier one overlaps it. */
  lemma {:induction false} MatchFound(text: string, t: string, from: nat, p: nat)
    requires t != [] && from <= p && MatchAt(text, t, p)
    requires forall q :: from <= q < p && MatchAt(text, t, q) ==> q + |t| <= p
    ensures p in Matches(text, t, from)
    decreases |text| - from
  {
    if from < p {
      MatchFound(text, t, if MatchAt(text, t, from) then from + |t| else from + 1, p);
    }
  }

  // ---------------------------------------------------------------- Terms that can overlap themselves

  /** Two matches can stand `k` apart, one inside the other: a border between two word boundaries. */
  predicate OverlapsAt(t: string, k: nat) {
    0 < k < |t| && t[k..] == t[..|t| - k] && !Alnum(t[k - 1]) && !Alnum(t[|t| - k])
  }

  predicate Overlaps(t: string) {
    exists k :: 0 < k < |t| && OverlapsAt(t, k)
  }

  /** No term without an underscore does. */
  lemma PlainTerms(t: string)
    requires ValidTerm(t) && '_' !in t
    ensures !Overlaps(t)
  {
    forall k | 0 < k < |t| ensures !OverlapsAt(t, k) {
      assert t[k - 1] in t;
    }
  }

  /** Two overlapping matches show an overlap of the term. */
  lemma OverlapShown(text: string, t: string, q: nat, p: nat)
    requires MatchAt(text, t, q) && MatchAt(text, t, p) && q < p < q + |t|
    ensures OverlapsAt(t, p - q) && Overlaps(t)
  {
    var k, a, b := p - q, text[q..q + |t|], text[p..p + |t|];
    assert forall i :: 0 <= i < |t| ==> a[i] == text[q + i];
    assert forall i :: 0 <= i < |t| ==> b[i] == text[p + i];
    forall i | 0 <= i < |t| - k ensures t[k..][i] == t[..|t| - k][i] {
      assert a[k + i] == b[i];
    }
    assert t[k - 1] == a[k - 1] && t[|t| - k] == b[|t| - k];
    assert OverlapsAt(t, k);
  }

  /**
   With `n` characters kept, a false start at their edge can hide a match that stands `k`
   behind it: that match ends in the next chunk, and there is none between the two.
   */
  predicate HidesAt(t: string, n: nat, k: nat) {
    OverlapsAt(t, k) && n <= |t| + k && forall j :: 0 < j < k ==> !Between(t, j, k)
  }

  /** Of two matches `k` apart, a third lies between. */
  predicate Between(t: string, j: nat, k: nat) {
    j < k && OverlapsAt(t, j) && OverlapsAt(t, k - j)
  }

  predicate Hideable(t: string, n: nat) {
    exists k :: 0 < k < |t| && HidesAt(t, n, k)
  }

  /** For the longest term of a policy, this is to overlap itself at all. */
  lemma LongestHides(t: string)
    requires ValidTerm(t)
    ensures Hideable(t, |t| + 2) <==> Overlaps(t)
  {
    if Overlaps(t) {
      var k :| 0 < k < |t| && OverlapsAt(t, k);
      k := LeastOverlap(t, k);
      assert k >= 2 by {
        assert !Alnum(t[k - 1]) && Alnum(t[0]);
      }
      assert HidesAt(t, |t| + 2, k);
    }
  }

  lemma LeastOverlap(t: string, k: nat) returns (least: nat)
    requires OverlapsAt(t, k)
    ensures OverlapsAt(t, least) && forall j :: 0 < j < least ==> !OverlapsAt(t, j)
    decreases k
  {
    if j :| 0 < j < k && OverlapsAt(t, j) {
      least := LeastOverlap(t, j);
    } else {
      least := k;
    }
  }

  /** Where a match may lie between two others, it does. */
  lemma BetweenMatches(text: string, t: string, j: nat, k: nat)
    requires MatchAt(text, t, 0) && MatchAt(text, t, k) && OverlapsAt(t, k) && Between(t, j, k)
    ensures MatchAt(text, t, j)
  {
    var a, b := text[0..|t|], text[k..k + |t|];
    assert forall i :: 0 <= i < |t| ==> a[i] == text[i];
    assert forall i :: 0 <= i < |t| ==> b[i] == text[k + i];
    forall i | 0 <= i < |t| ensures text[j + i] == t[i] {
      if j + i < |t| {
        assert t[j..][i] == t[..|t| - j][i];
      } else {
        assert text[j + i] == b[j + i - k];
        assert t[k - j..][j + i - k] == t[..|t| - (k - j)][j + i - k];
      }
    }
    assert text[j..j + |t|] == t;
    assert text[j - 1] == a[j - 1];
    assert text[j + |t|] == b[j + |t| - k];
  }

  // ---------------------------------------------------------------- The chunked search

  function Longest(terms: seq<string>): (n: nat)
    ensures forall t :: t in terms ==> |t| <= n
  {
    if terms == [] then 0
    else if |terms[0]| > Longest(terms[1..]) then |terms[0]| else Longest(terms[1..])
  }

  /** `max(len(term)) + 2` */
  function Overlap(terms: seq<string>): nat {
    Longest(terms) + 2
  }

  /** `text[-n:]` for positive `n`. */
  function Last(n: nat, text: string): string {
    if |text| <= n then text else text[|text| - n..]
  }

  /** Some match ends at or after the old boundary and before the end of the text. */
  predicate Hit(tail: string, chunk: string, t: string) {
    exists i :: 0 <= i < |Matches(tail + chunk, t, 0)|
      && |tail| <= Matches(tail + chunk, t, 0)[i] + |t| < |tail + chunk|
  }

  /** The terms found in a list of chunks. */
  function Searched(terms: seq<string>, chunks: seq<string>): set<string>
    decreases |chunks|
  {
    if chunks == [] then {}
    else
      var before := chunks[..|chunks| - 1];
      Searched(terms, before)
      + (set t | t in terms && Hit(Last(Overlap(terms), Concat(before)), chunks[|chunks| - 1], t))
  }

  /** A bounded occurrence whose right context has arrived. */
  predicate Occurs(text: string, t: string) {
    exists p: nat :: p < |text| && Settled(text, t, p)
  }

  predicate Settled(text: string, t: string, p: nat) {
    MatchAt(text, t, p) && p + |t| < |text|
  }

  lemma LastMore(n: nat, text: string, chunk: string)
    ensures Last(n, text + chunk) == Last(n, Last(n, text) + chunk)
  {
  }

  lemma MatchShifts(all: string, n: nat, chunk: string, t: string, p: nat)
    requires t != [] && |t| + 2 <= n
    requires var tail := Last(n, all); MatchAt(tail + chunk, t, p) && |tail| <= p + |t| < |tail + chunk|
    ensures |Last(n, all)| <= |all| && Settled(all + chunk, t, |all| - |Last(n, all)| + p)
  {
    var text, o := Last(n, all) + chunk, |all| - |Last(n, all)|;
    assert forall k :: 0 <= k < |text| ==> text[k] == (all + chunk)[o + k];
    assert (all + chunk)[o + p..o + p + |t|] == text[p..p + |t|];
  }

  /** A match in the overlap and the chunk that ends after the boundary is a match of the stream. */
  lemma HitOccurs(all: string, n: nat, chunk: string, t: string)
    requires t != [] && |t| + 2 <= n && Hit(Last(n, all), chunk, t)
    ensures Occurs(all + chunk, t)
  {
    hide Last, Matches, MatchAt;
    var tail := Last(n, all);
    var text := tail + chunk;
    var i :| 0 <= i < |Matches(text, t, 0)| && |tail| <= Matches(text, t, 0)[i] + |t| < |text|;
    var p := Matches(text, t, 0)[i];
    MatchesMatch(text, t, 0);
    assert p in Matches(text, t, 0);
    MatchShifts(all, n, chunk, t, p);
    SettledOccurs(all + chunk, t, |all| - |tail| + p);
  }

  lemma SettledOccurs(text: string, t: string, p: nat)
    requires Settled(text, t, p) && t != []
    ensures Occurs(text, t)
  {
  }

  lemma {:induction false} FirstSettled(text: string, t: string, p: nat) returns (first: nat)
    requires Settled(text, t, p)
    ensures first <= p && Settled(text, t, first) && forall q: nat :: q < first ==> !Settled(text, t, q)
    decreases p
  {
    if q: nat :| q < p && Settled(text, t, q) {
      first := FirstSettled(text, t, q);
    } else {
      first := p;
    }
  }

  /** The kept characters and the chunk, as the end of the stream. */
  lemma WindowMatches(all: string, n: nat, chunk: string, t: string, q: nat)
    requires t != [] && n > 0
    ensures var tail := Last(n, all); var o := |all| - |tail|; var text := tail + chunk;
      && (MatchAt(all + chunk, t, o + q) ==> MatchAt(text, t, q))
      && (MatchAt(text, t, q) && (q > 0 || o == 0) ==> MatchAt(all + chunk, t, o + q))
  {
    var tail := Last(n, all);
    var text, o := tail + chunk, |all| - |tail|;
    assert forall k :: 0 <= k < |text| ==> text[k] == (all + chunk)[o + k];
    if q + |t| <= |text| {
      assert (all + chunk)[o + q..o + q + |t|] == text[q..q + |t|];
    }
  }

  lemma LastLength(n: nat, all: string)
    ensures |Last(n, all)| <= |all| && (|Last(n, all)| < |all| ==> |Last(n, all)| == n)
  {
  }

  /** No earlier match in the window reaches into the first match of the stream. */
  lemma EarlierEnds(all: string, n: nat, chunk: string, t: string, q: nat, r: nat)
    requires t != [] && |t| + 2 <= n && !Hideable(t, n)
    requires |Last(n, all)| <= |all| <= |all| - |Last(n, all)| + q + |t|
    requires MatchAt(all + chunk, t, |all| - |Last(n, all)| + q)
    requires forall p: nat :: p < |all| - |Last(n, all)| + q ==> !MatchAt(all + chunk, t, p)
    requires r < q && MatchAt(Last(n, all) + chunk, t, r)
    ensures r + |t| <= q
  {
    hide Last, MatchAt, Hideable, OverlapsAt, Overlaps, Between;
    var tail, o := Last(n, all), |all| - |Last(n, all)|;
    var text := tail + chunk;
    WindowMatches(all, n, chunk, t, q);
    WindowMatches(all, n, chunk, t, r);
    LastLength(n, all);
    if r > 0 || o == 0 {
      assert false;
    } else if q < |t| {
      OverlapShown(text, t, 0, q);
      var j := NotHidden(t, n, q);
      BetweenMatches(text, t, j, q);
      WindowMatches(all, n, chunk, t, j);
      assert false;
    }
  }

  lemma NotHidden(t: string, n: nat, k: nat) returns (j: nat)
    requires !Hideable(t, n) && OverlapsAt(t, k) && n <= |t| + k
    ensures 0 < j < k && Between(t, j, k)
  {
    assert !HidesAt(t, n, k);
    j :| 0 < j < k && Between(t, j, k);
  }

  /** If the term cannot be hidden, its first occurrence is hit by the chunk that completes it. */
  lemma OccursHit(all: string, n: nat, chunk: string, t: string, p: nat)
    requires t != [] && |t| + 2 <= n && !Hideable(t, n) && Settled(all + chunk, t, p) && |all| <= p + |t|
    requires forall q: nat :: q < p ==> !Settled(all + chunk, t, q)
    ensures Hit(Last(n, all), chunk, t)
  {
    hide MatchAt, Hideable, Last;
    LastLength(n, all);
    var tail := Last(n, all);
    var text, o := tail + chunk, |all| - |tail|;
    var q := p - o;
    WindowMatches(all, n, chunk, t, q);
    forall p': nat | p' < p ensures !MatchAt(all + chunk, t, p') {
      assert !Settled(all + chunk, t, p');
    }
    forall r | 0 <= r < q && MatchAt(text, t, r) ensures r + |t| <= q {
      EarlierEnds(all, n, chunk, t, q, r);
    }
    MatchFound(text, t, 0, q);
    var i :| 0 <= i < |Matches(text, t, 0)| && Matches(text, t, 0)[i] == q;
  }

  lemma OccursEarlier(all: string, chunk: string, t: string, p: nat)
    requires Settled(all + chunk, t, p) && p + |t| < |all|
    ensures Settled(all, t, p)
  {
    assert (all + chunk)[p..p + |t|] == all[p..p + |t|];
  }

  lemma OccursLater(all: string, chunk: string, t: string)
    requires Occurs(all, t)
    ensures Occurs(all + chunk, t)
  {
    var p: nat :| p < |all| && Settled(all, t, p);
    assert (all + chunk)[p..p + |t|] == all[p..p + |t|];
    assert Settled(all + chunk, t, p);
  }

  /**
   The chunked search against the whole stream, for every chunking.  What it finds is there;
   and a term that cannot be hidden is found exactly when it is there.
   */
  lemma {:induction false} SearchedIsThere(terms: seq<string>, chunks: seq<string>, t: string)
    requires t in terms && t != []
    ensures t in Searched(terms, chunks) ==> Occurs(Concat(chunks), t)
    ensures !Hideable(t, Overlap(terms)) ==> (t in Searched(terms, chunks) <==> Occurs(Concat(chunks), t))
    decreases |chunks|
  {
    hide Occurs, Hit, Hideable, Last;
    if chunks == [] {
      NothingOccurs(t);
    } else {
      var n := |chunks| - 1;
      var before, chunk := chunks[..n], chunks[n];
      var all := Concat(before);
      SearchedIsThere(terms, before, t);
      ConcatSnoc(chunks, n);
      assert chunks[..n + 1] == chunks;
      if t in Searched(terms, before) {
        OccursLater(all, chunk, t);
      }
      if Hit(Last(Overlap(terms), all), chunk, t) {
        HitOccurs(all, Overlap(terms), chunk, t);
      }
      if !Hideable(t, Overlap(terms)) && Occurs(all + chunk, t) {
        Completes(all, Overlap(terms), chunk, t);
      }
    }
  }

  lemma NothingOccurs(t: string)
    ensures !Occurs([], t)
  {
  }

  lemma Completes(all: string, n: nat, chunk: string, t: string)
    requires t != [] && |t| + 2 <= n && !Hideable(t, n) && Occurs(all + chunk, t)
    ensures Occurs(all, t) || Hit(Last(n, all), chunk, t)
  {
    hide Hideable, Hit, Last;
    var p: nat :| p < |all + chunk| && Settled(all + chunk, t, p);
    p := FirstSettled(all + chunk, t, p);
    if p + |t| < |all| {
      OccursEarlier(all, chunk, t, p);
    } else {
      OccursHit(all, n, chunk, t, p);
    }
  }

  /** In a stream that ends with a line end, every bounded occurrence counts. */
  lemma EveryMatchSettles(text: string, t: string)
    requires ValidTerm(t)
    ensures Occurs(text + ['\n'], t) <==> exists p: nat :: p < |text| + 1 && MatchAt(text + ['\n'], t, p)
  {
    var s := text + ['\n'];
    forall p: nat | p < |s| && MatchAt(s, t, p) ensures Settled(s, t, p) {
      assert s[p..p + |t|][|t| - 1] == s[p + |t| - 1];
    }
  }

  // ---------------------------------------------------------------- The condition is needed

  /** `t` after its own first `k` characters: it stands at 0 and, overlapping, at `k`. */
  function Doubled(t: string, k: nat): string
    requires k <= |t|
  {
    t[..k] + t
  }

  lemma DoubledStarts(t: string, k: nat)
    requires OverlapsAt(t, k)
    ensures Doubled(t, k)[..|t|] == t && Doubled(t, k)[|t|] == t[|t| - k] && Doubled(t, k)[k..] == t
  {
    var w := Doubled(t, k);
    forall i | 0 <= i < |t| ensures w[i] == t[i] {
      if i >= k {
        assert w[i] == t[i - k] == t[k..][i - k];
      }
    }
  }

  /** The search of the second chunk meets the false start at its tail's edge and looks no further into it. */
  lemma FalseStart(t: string, k: nat)
    requires ValidTerm(t) && OverlapsAt(t, k)
    ensures Matches(Doubled(t, k) + ['\n'], t, 0) == [0]
  {
    var text := Doubled(t, k) + ['\n'];
    DoubledStarts(t, k);
    assert text[0..|t|] == t && text[|t|] == t[|t| - k];
    assert MatchAt(text, t, 0);
    NoMore(text, t, |t|);
  }

  lemma {:induction false} NoMore(text: string, t: string, from: nat)
    requires ValidTerm(t) && text != [] && text[|text| - 1] == '\n' && |text| < from + |t| + 1
    ensures Matches(text, t, from) == []
    decreases |text| - from
  {
    if from + |t| <= |text| {
      assert text[from..from + |t|][|t| - 1] == '\n';
      assert !MatchAt(text, t, from);
      NoMore(text, t, from + 1);
    }
  }

  /** A letter other than `c`. */
  function Other(c: char): (d: char)
    ensures d != c && Alnum(d)
  {
    if c == 'x' then 'y' else 'x'
  }

  // ---------------------------------------------------------------- How the rest is hidden

  const CHUNK_CHARS := 65536

  /** `patch_chunks` of a text. */
  function Slices(patch: string): seq<string>
    decreases |patch|
  {
    if patch == [] then []
    else if |patch| <= CHUNK_CHARS then [patch]
    else [patch[..CHUNK_CHARS]] + Slices(patch[CHUNK_CHARS..])
  }

  /** What is searched: the changed paths, one on each line, the slices of the patch, and a last line end. */
  function Stream(paths: string, patch: string): seq<string> {
    [paths + ['\n']] + Slices(patch) + [['\n']]
  }

  function Padding(n: nat): string {
    seq(n, _ => '\n')
  }

  /** A slice that ends `n` characters into two overlapping matches, of which the first is none: a letter stands before it. */
  function FalseSlice(t: string, n: nat, k: nat): (slice: string)
    requires k < |t| && |t| < n <= |t| + k && n + 1 <= CHUNK_CHARS
    ensures |slice| == CHUNK_CHARS
  {
    Padding(CHUNK_CHARS - 1 - n) + [Other(t[0])] + Doubled(t, k)[..n]
  }

  /** The rest of the two, and the end of the line. */
  function RestSlice(t: string, n: nat, k: nat): (slice: string)
    requires k < |t| && |t| < n <= |t| + k
    ensures 0 < |slice| <= |t| + k
  {
    Doubled(t, k)[n..] + ['\n']
  }

  predicate Closed(text: string) {
    text == [] || text[|text| - 1] == '\n'
  }

  /** The term stands at `j`, inside `w` and between boundaries. */
  predicate StandsIn(w: string, t: string, j: nat) {
    0 < j && j + |t| < |w| && w[j..j + |t|] == t && !Alnum(w[j - 1]) && !Alnum(w[j + |t|])
  }

  lemma StandsBetween(t: string, k: nat, j: nat)
    requires t != [] && OverlapsAt(t, k) && StandsIn(Doubled(t, k), t, j)
    ensures Between(t, j, k)
  {
    var w, text := Doubled(t, k), Doubled(t, k) + ['\n'];
    DoubledStarts(t, k);
    assert text[0..|t|] == t && text[j..j + |t|] == t && text[k..k + |t|] == w[k..];
    assert MatchAt(text, t, 0) && MatchAt(text, t, j) && MatchAt(text, t, k);
    OverlapShown(text, t, 0, j);
    OverlapShown(text, t, j, k);
  }

  lemma NoneBehind(t: string, n: nat, k: nat, j: nat)
    requires t != [] && k < |t| && HidesAt(t, n, k)
    ensures !StandsIn(Doubled(t, k), t, j)
  {
    hide StandsIn, OverlapsAt;
    if StandsIn(Doubled(t, k), t, j) {
      StandsBetween(t, k, j);
      StandsEarly(t, k, j);
      assert false;
    }
  }

  lemma StandsEarly(t: string, k: nat, j: nat)
    requires k <= |t| && StandsIn(Doubled(t, k), t, j)
    ensures 0 < j < k
  {
  }

  lemma Mismatch(text: string, t: string, p: nat, x: nat)
    requires p <= x < p + |t| && x < |text| && text[x] != t[x - p]
    ensures !MatchAt(text, t, p)
  {
    assert p + |t| <= |text| ==> text[p..p + |t|][x - p] == text[x];
  }

  lemma MatchStands(text: string, t: string, w: string, n: nat, m: nat, j: nat)
    requires n <= |w| && m + n == |text| && text[m..] == w[..n] && 0 < j && j + |t| < n
    requires MatchAt(text, t, m + j)
    ensures StandsIn(w, t, j)
  {
    assert forall i :: 0 <= i < n ==> text[m..][i] == text[m + i];
    assert text[m + j..m + j + |t|] == text[m..][j..j + |t|] == w[j..j + |t|];
  }

  /** No match ends inside the false slice. */
  lemma FalseSliceMatch(t: string, n: nat, k: nat, tail: string, p: nat)
    requires ValidTerm(t) && HidesAt(t, n, k) && k < |t| && |t| + 2 <= n <= |t| + k && n + 1 <= CHUNK_CHARS && Closed(tail)
    requires |tail| <= p + |t| < |tail + FalseSlice(t, n, k)|
    ensures !MatchAt(tail + FalseSlice(t, n, k), t, p)
  {
    hide HidesAt, MatchAt, StandsIn, OverlapsAt;
    var text, m := tail + FalseSlice(t, n, k), |tail| + CHUNK_CHARS - 1 - n;
    assert text[m] == Other(t[0]);
    if p < m {
      var x := if p + |t| <= m then p + |t| - 1 else m - 1;
      assert text[x] == '\n';
      Mismatch(text, t, p, x);
    } else if p == m {
      Mismatch(text, t, p, p);
    } else if p == m + 1 {
      BehindAlnum(text, t, p);
    } else {
      var j := p - m - 1;
      NoneBehind(t, n, k, j);
      assert text[m + 1..] == Doubled(t, k)[..n];
      if MatchAt(text, t, p) {
        MatchStands(text, t, Doubled(t, k), n, m + 1, j);
        assert false;
      }
    }
  }

  lemma BehindAlnum(text: string, t: string, p: nat)
    requires 0 < p <= |text| && Alnum(text[p - 1])
    ensures !MatchAt(text, t, p)
  {
  }

  lemma FalseSliceHides(t: string, n: nat, k: nat, tail: string)
    requires ValidTerm(t) && HidesAt(t, n, k) && k < |t| && |t| + 2 <= n <= |t| + k && n + 1 <= CHUNK_CHARS && Closed(tail)
    ensures !Hit(tail, FalseSlice(t, n, k), t)
  {
    hide HidesAt, MatchAt, ValidTerm, FalseSlice;
    var text := tail + FalseSlice(t, n, k);
    MatchesMatch(text, t, 0);
    forall p: nat | |tail| <= p + |t| < |text| ensures !MatchAt(text, t, p) {
      FalseSliceMatch(t, n, k, tail, p);
    }
    assert forall i :: 0 <= i < |Matches(text, t, 0)| ==> Matches(text, t, 0)[i] in Matches(text, t, 0);
  }

  /** A line end behind a line end completes nothing. */
  lemma LastEndHides(t: string, tail: string)
    requires ValidTerm(t) && tail != [] && Closed(tail)
    ensures !Hit(tail, ['\n'], t)
  {
    hide MatchAt;
    var text := tail + ['\n'];
    MatchesMatch(text, t, 0);
    assert forall i :: 0 <= i < |Matches(text, t, 0)| ==> Matches(text, t, 0)[i] in Matches(text, t, 0);
    if |t| <= |tail| {
      Mismatch(text, t, |tail| - |t|, |tail| - 1);
    }
  }

  lemma SearchedSnoc(terms: seq<string>, chunks: seq<string>, chunk: string, t: string)
    requires t !in Searched(terms, chunks) && !Hit(Last(Overlap(terms), Concat(chunks)), chunk, t)
    ensures t !in Searched(terms, chunks + [chunk]) && Concat(chunks + [chunk]) == Concat(chunks) + chunk
  {
    hide Hit, Overlap, Last;
    ConcatSnoc(chunks + [chunk], |chunks|);
    assert (chunks + [chunk])[..|chunks|] == chunks && (chunks + [chunk])[..|chunks| + 1] == chunks + [chunk];
  }

  lemma LastOf(n: nat, a: string, b: string)
    requires |b| >= n
    ensures Last(n, a + b) == Last(n, b)
  {
  }

  lemma SlicesOfTwo(a: string, b: string)
    requires |a| == CHUNK_CHARS && 0 < |b| <= CHUNK_CHARS
    ensures Slices(a + b) == [a, b]
  {
    assert (a + b)[..CHUNK_CHARS] == a && (a + b)[CHUNK_CHARS..] == b;
  }

  lemma SettledBehind(head: string, text: string, t: string, p: nat)
    requires Settled(text, t, p) && p > 0
    ensures Settled(head + text, t, |head| + p)
  {
    assert (head + text)[|head| + p..|head| + p + |t|] == text[p..p + |t|];
  }

  /** The term stands in the patch. */
  lemma PatchHolds(t: string, n: nat, k: nat)
    requires ValidTerm(t) && OverlapsAt(t, k) && |t| < n <= |t| + k && n + 1 <= CHUNK_CHARS
    ensures exists p: nat :: p > 0 && Settled(FalseSlice(t, n, k) + RestSlice(t, n, k), t, p)
  {
    var w, o := Doubled(t, k), CHUNK_CHARS - n;
    var patch := FalseSlice(t, n, k) + RestSlice(t, n, k);
    DoubledStarts(t, k);
    assert patch == Padding(CHUNK_CHARS - 1 - n) + [Other(t[0])] + w + ['\n'];
    assert patch[o + k..o + k + |t|] == w[k..];
    assert patch[o + k - 1] == w[k - 1] == t[k - 1];
    assert Settled(patch, t, o + k);
  }

  lemma OverlapBounds(terms: seq<string>, t: string)
    requires t in terms
    ensures |t| + 2 <= Overlap(terms)
  {
  }

  lemma ConcatOne(chunk: string)
    ensures Concat([chunk]) == chunk
  {
    assert [chunk][1..] == [] && chunk + [] == chunk;
  }

  lemma TailClosed(n: nat, text: string)
    requires n > 0 && text != [] && Closed(text)
    ensures Last(n, text) != [] && Closed(Last(n, text))
  {
  }

  lemma RestClosed(t: string, n: nat, k: nat, before: string)
    requires k < |t| && |t| < n <= |t| + k
    ensures before + RestSlice(t, n, k) != [] && Closed(before + RestSlice(t, n, k))
  {
  }

  lemma TailOfFalse(t: string, n: nat, k: nat, before: string)
    requires k < |t| && |t| < n <= |t| + k && n + 1 <= CHUNK_CHARS
    ensures Last(n, before + FalseSlice(t, n, k)) == Doubled(t, k)[..n]
  {
    LastOf(n, before + (Padding(CHUNK_CHARS - 1 - n) + [Other(t[0])]), Doubled(t, k)[..n]);
    Regroup(before, Padding(CHUNK_CHARS - 1 - n) + [Other(t[0])], Doubled(t, k)[..n]);
  }

  /** In the rest, the search meets the false start at its edge and looks no further into it. */
  lemma RestHides(t: string, n: nat, k: nat)
    requires ValidTerm(t) && OverlapsAt(t, k) && |t| < n <= |t| + k
    ensures !Hit(Doubled(t, k)[..n], RestSlice(t, n, k), t)
  {
    assert Doubled(t, k)[..n] + RestSlice(t, n, k) == Doubled(t, k) + ['\n'];
    FalseStart(t, k);
  }

  lemma LoneEnd(t: string)
    requires ValidTerm(t)
    ensures !Occurs([] + ['\n'], t)
  {
  }

  /**
   For every term that can be hidden and every list of paths without it, a patch that holds it
   between boundaries and hides it from the whole search.
   */
  lemma OverlapHides(terms: seq<string>, t: string, k: nat, paths: string) returns (patch: string)
    requires t in terms && ValidTerm(t) && HidesAt(t, Overlap(terms), k) && !Occurs(paths + ['\n'], t)
    ensures Occurs(Concat(Stream(paths, patch)), t) && t !in Searched(terms, Stream(paths, patch))
  {
    hide Hit, Occurs, Overlap, FalseSlice, RestSlice, Searched, Slices, Last;
    var n := Overlap(terms);
    OverlapBounds(terms, t);
    var first, second, start := FalseSlice(t, n, k), RestSlice(t, n, k), paths + ['\n'];
    patch := first + second;
    SlicesOfTwo(first, second);
    var one, two, three := [start], [start, first], [start, first, second];
    ConcatOne(start);
    SearchedIsThere(terms, one, t);
    TailClosed(n, start);
    FalseSliceHides(t, n, k, Last(n, start));
    assert one + [first] == two && two + [second] == three;
    SearchedSnoc(terms, one, first, t);
    TailOfFalse(t, n, k, start);
    RestHides(t, n, k);
    SearchedSnoc(terms, two, second, t);
    RestClosed(t, n, k, start + first);
    TailClosed(n, start + first + second);
    LastEndHides(t, Last(n, start + first + second));
    SearchedSnoc(terms, three, ['\n'], t);
    assert three + [['\n']] == Stream(paths, patch);
    PatchHolds(t, n, k);
    var p: nat :| p > 0 && Settled(first + second, t, p);
    SettledBehind(start, first + second, t, p);
    Regroup(start, first, second);
    SettledOccurs(start + first + second, t, |start| + p);
    OccursLater(start + first + second, ['\n'], t);
  }

  /** A term is found on every stream that holds it exactly if it cannot be hidden. */
  lemma FoundUnlessHideable(terms: seq<string>, t: string)
    requires t in terms && ValidTerm(t)
    ensures (forall paths, patch :: Occurs(Concat(Stream(paths, patch)), t) ==> t in Searched(terms, Stream(paths, patch)))
       <==> !Hideable(t, Overlap(terms))
  {
    hide Occurs, Searched, Stream, Overlap;
    if Hideable(t, Overlap(terms)) {
      var k :| 0 < k < |t| && HidesAt(t, Overlap(terms), k);
      LoneEnd(t);
      var patch := OverlapHides(terms, t, k, []);
    } else {
      forall paths, patch | Occurs(Concat(Stream(paths, patch)), t) ensures t in Searched(terms, Stream(paths, patch)) {
        SearchedIsThere(terms, Stream(paths, patch), t);
      }
    }
  }

  // ---------------------------------------------------------------- The code

  /** `any(len(tail) <= match.end() < len(text) for match in re.finditer(pattern, text))` */
  method AnyMatch(tail: string, chunk: string, t: string) returns (hit: bool)
    ensures hit == Hit(tail, chunk, t)
  {
    var text := tail + chunk;
    var found := Matches(text, t, 0);
    hit := false;
    for i := 0 to |found|
      invariant !hit
      invariant forall j :: 0 <= j < i ==> !(|tail| <= found[j] + |t| < |text|)
    {
      if |tail| <= found[i] + |t| && found[i] + |t| < |text| {
        return true;
      }
    }
  }

  /** One chunk: the terms that it adds. */
  method SearchChunk(terms: seq<string>, tail: string, chunk: string, matched0: set<string>) returns (matched: set<string>)
    ensures matched == matched0 + (set t | t in terms && Hit(tail, chunk, t))
  {
    hide Hit;
    matched := matched0;
    for i := 0 to |terms|
      invariant matched == matched0 + (set t | t in terms[..i] && Hit(tail, chunk, t))
    {
      var hit := AnyMatch(tail, chunk, terms[i]);
      assert terms[..i + 1] == terms[..i] + [terms[i]];
      if hit {
        matched := matched + {terms[i]};
      }
    }
    assert terms[..|terms|] == terms;
  }

  /** The loop over the chunks. */
  method SearchChunks(terms: seq<string>, chunks: seq<string>) returns (matched: set<string>)
    ensures matched == Searched(terms, chunks)
  {
    hide Hit, Overlap, Last;
    var overlap, tail := Overlap(terms), [];
    matched := {};
    assert chunks[..0] == [];
    NoTail(overlap);
    for k := 0 to |chunks|
      invariant matched == Searched(terms, chunks[..k]) && tail == Last(overlap, Concat(chunks[..k]))
    {
      ghost var before := chunks[..k];
      assert chunks[..k + 1][..k] == before;
      matched := SearchChunk(terms, tail, chunks[k], matched);
      ConcatSnoc(chunks, k);
      LastMore(overlap, Concat(before), chunks[k]);
      tail := Last(overlap, tail + chunks[k]);
    }
    assert chunks[..|chunks|] == chunks;
  }

  lemma NoTail(n: nat)
    ensures Last(n, []) == [] && Concat<char>([]) == []
  {
  }

  /** Term `k` is there, and no earlier one that cannot be hidden is. */
  predicate FirstFound(terms: seq<string>, chunks: seq<string>, t: string, k: nat) {
    && k < |terms| && terms[k] == t && Occurs(Concat(chunks), t)
    && forall j :: 0 <= j < k && !Hideable(terms[j], Overlap(terms)) ==> !Occurs(Concat(chunks), terms[j])
  }

  /** The first term, in the order of the policy, that the stream contains. */
  method FindTerms(terms: seq<string>, chunks: seq<string>) returns (first: Option<string>)
    requires forall t :: t in terms ==> ValidTerm(t) && t != []
    ensures first.Some? ==> exists k :: 0 <= k < |terms| && FirstFound(terms, chunks, first.value, k)
    ensures first.None? ==> forall j :: 0 <= j < |terms| && !Hideable(terms[j], Overlap(terms)) ==> !Occurs(Concat(chunks), terms[j])
  {
    hide Hit, ValidTerm, Occurs, Hideable, Searched;
    var matched := SearchChunks(terms, chunks);
    first := None;
    for i := 0 to |terms|
      invariant first.None? && forall j :: 0 <= j < i && !Hideable(terms[j], Overlap(terms)) ==> !Occurs(Concat(chunks), terms[j])
    {
      SearchedIsThere(terms, chunks, terms[i]);
      if terms[i] in matched {
        assert FirstFound(terms, chunks, terms[i], i);
        return Some(terms[i]);
      }
    }
  }
}
