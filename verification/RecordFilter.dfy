/**
 `InstructionInventoryFilter` of scripts/materialize-exact-revision-review.py: select the
 instruction files from a NUL-terminated listing that arrives in chunks, holding no more than
 a bounded prefix and a short suffix of the record it is in.
 */
module RecordFilter {
  import opened Common
  import opened Utf8
  import Splitter

  const BUDGET := 1000000
  const SUFFIX := 32
  const TAB: Byte := 9

  const AGENTS: Bytes := [65, 71, 69, 78, 84, 83, 46, 109, 100]  // 'AGENTS.md'
  const SLASH_AGENTS: Bytes := [47, 65, 71, 69, 78, 84, 83, 46, 109, 100]  // '/AGENTS.md'
  const COPILOT: Bytes := [46, 103, 105, 116, 104, 117, 98, 47, 99, 111, 112, 105, 108, 111, 116, 45, 105, 110, 115, 116, 114, 117, 99, 116, 105, 111, 110, 115, 46, 109, 100]  // '.github/copilot-instructions.md'
  const DIRECTORY: Bytes := [46, 103, 105, 116, 104, 117, 98, 47, 105, 110, 115, 116, 114, 117, 99, 116, 105, 111, 110, 115, 47]  // '.github/instructions/'
  const EXTENSION: Bytes := [46, 105, 110, 115, 116, 114, 117, 99, 116, 105, 111, 110, 115, 46, 109, 100]  // '.instructions.md'

  predicate EndsWith(s: Bytes, end: Bytes) {
    |end| <= |s| && s[|s| - |end|..] == end
  }

  /** What follows the first TAB. */
  function PathOf(s: Bytes): Bytes
    requires TAB in s
  {
    s[First(s, TAB) + 1..]
  }

  // ---------------------------------------------------------------- The rule on whole records

  /** The instruction files: by exact path, by name, or by directory and extension. */
  predicate Instruction(path: Bytes) {
    path == AGENTS || path == COPILOT || EndsWith(path, SLASH_AGENTS) || (DIRECTORY <= path && EndsWith(path, EXTENSION))
  }

  lemma Spelled()
    ensures AGENTS == Splitter.Ascii("AGENTS.md") && SLASH_AGENTS == Splitter.Ascii("/AGENTS.md") && COPILOT == Splitter.Ascii(".github/copilot-instructions.md")
    ensures DIRECTORY == Splitter.Ascii(".github/instructions/") && EXTENSION == Splitter.Ascii(".instructions.md")
  {
  }

  /** A directory and an extension do not share characters. */
  lemma Apart(path: Bytes)
    requires DIRECTORY <= path && EndsWith(path, EXTENSION)
    ensures |DIRECTORY| + |EXTENSION| <= |path|
  {
    var n := |path| - |EXTENSION|;
    assert path[n] == EXTENSION[0] && path[n + 1] == EXTENSION[1];
  }

  /** The instruction files: AGENTS.md in any directory, Copilot's own file, and those of its directory with its extension. */
  lemma InstructionIs(path: Bytes)
    ensures Instruction(path) <==>
      || path == Splitter.Ascii("AGENTS.md") || (exists front: Bytes :: path == front + Splitter.Ascii("/AGENTS.md"))
      || path == Splitter.Ascii(".github/copilot-instructions.md")
      || exists name: Bytes :: path == Splitter.Ascii(".github/instructions/") + name + Splitter.Ascii(".instructions.md")
  {
    Spelled();
    hide Splitter.Ascii;
    if EndsWith(path, SLASH_AGENTS) {
      assert path == path[..|path| - |SLASH_AGENTS|] + SLASH_AGENTS;
    }
    if DIRECTORY <= path && EndsWith(path, EXTENSION) {
      Apart(path);
      assert path == DIRECTORY + path[|DIRECTORY|..|path| - |EXTENSION|] + EXTENSION;
    }
    forall front: Bytes | path == front + SLASH_AGENTS ensures EndsWith(path, SLASH_AGENTS) {
    }
    forall name: Bytes | path == DIRECTORY + name + EXTENSION ensures DIRECTORY <= path && EndsWith(path, EXTENSION) {
    }
  }

  /** A record without a TAB is malformed; an instruction record that does not fit the budget fails; others are kept or dropped. */
  function Rule(r: Bytes): Result<Bytes> {
    if TAB !in r then Err
    else if !Instruction(PathOf(r)) then Ok([])
    else if |r| + 1 > BUDGET then Err
    else Ok(r + [0])
  }

  function Chosen(decide: Bytes -> Result<Bytes>, records: seq<Bytes>): Result<Bytes> {
    if records == [] then Ok([])
    else if decide(records[0]).Err? || Chosen(decide, records[1..]).Err? then Err
    else Ok(decide(records[0]).value + Chosen(decide, records[1..]).value)
  }

  // ---------------------------------------------------------------- What the filter decides on

  function PrefixOf(r: Bytes): Bytes {
    if |r| <= BUDGET + 1 then r else r[..BUDGET + 1]
  }

  function SuffixOf(r: Bytes): Bytes {
    if |r| <= SUFFIX then r else r[|r| - SUFFIX..]
  }

  predicate Wanted(prefix: Bytes, suffix: Bytes, size: nat)
    requires TAB in prefix
  {
    || (size == |prefix| && (PathOf(prefix) == AGENTS || PathOf(prefix) == COPILOT))
    || EndsWith(suffix, SLASH_AGENTS)
    || (DIRECTORY <= PathOf(prefix) && EndsWith(suffix, EXTENSION))
  }

  /** The decision from a record's prefix, suffix and size. */
  function Decide(prefix: Bytes, suffix: Bytes, size: nat): Result<Bytes> {
    if TAB !in prefix then Err
    else if !Wanted(prefix, suffix, size) then Ok([])
    else if size + 1 > BUDGET then Err
    else Ok(prefix + [0])
  }

  function Decision(r: Bytes): Result<Bytes> {
    Decide(PrefixOf(r), SuffixOf(r), |r|)
  }

  /**
   Records on which prefix and suffix tell as much as the whole: the record fits the prefix,
   or what precedes its path leaves room for the longest name to be recognized.
   */
  predicate ShortIdentity(r: Bytes) {
    |r| <= BUDGET + 1 || TAB !in r || First(r, TAB) + 1 + |COPILOT| <= BUDGET + 1
  }

  lemma SuffixEnds(r: Bytes, end: Bytes)
    requires |end| <= SUFFIX
    ensures EndsWith(SuffixOf(r), end) <==> EndsWith(r, end)
  {
    if |r| > SUFFIX {
      assert SuffixOf(r)[SUFFIX - |end|..] == r[|r| - |end|..];
    }
  }

  /** An ending without TAB lies in the path. */
  lemma PathEnds(r: Bytes, end: Bytes)
    requires TAB in r && TAB !in end && end != []
    ensures EndsWith(PathOf(r), end) <==> EndsWith(r, end)
  {
    var t := First(r, TAB);
    if EndsWith(r, end) {
      assert forall k :: |r| - |end| <= k < |r| ==> r[k] == end[k - (|r| - |end|)];
      assert PathOf(r)[|PathOf(r)| - |end|..] == r[|r| - |end|..];
    }
    if EndsWith(PathOf(r), end) {
      assert PathOf(r)[|PathOf(r)| - |end|..] == r[|r| - |end|..];
    }
  }

  lemma PrefixTab(r: Bytes, n: nat)
    requires n <= |r| && TAB in r && First(r, TAB) < n
    ensures TAB in r[..n] && First(r[..n], TAB) == First(r, TAB) && PathOf(r[..n]) == r[First(r, TAB) + 1..n]
  {
    var t, p := First(r, TAB), r[..n];
    assert p[t] == TAB;
    var u := First(p, TAB);
    assert forall k :: 0 <= k < u ==> p[..u][k] == r[k];
    assert forall k :: 0 <= k < t ==> r[..t][k] == p[k];
    assert r[u] == TAB;
  }

  lemma WantedIsInstruction(r: Bytes)
    requires TAB in r && ShortIdentity(r)
    ensures TAB in PrefixOf(r) && (Wanted(PrefixOf(r), SuffixOf(r), |r|) <==> Instruction(PathOf(r)))
  {
    hide EndsWith, AGENTS, COPILOT, DIRECTORY, EXTENSION, SLASH_AGENTS, First, SuffixOf;
    Words();
    PrefixTab(r, |PrefixOf(r)|);
    assert r[..|PrefixOf(r)|] == PrefixOf(r);
    SuffixEnds(r, SLASH_AGENTS);
    SuffixEnds(r, EXTENSION);
    PathEnds(r, SLASH_AGENTS);
    PathEnds(r, EXTENSION);
    if |r| > BUDGET + 1 {
      var t := First(r, TAB);
      assert |PathOf(r)| > |COPILOT| > |DIRECTORY|;
      assert PathOf(PrefixOf(r))[..|DIRECTORY|] == PathOf(r)[..|DIRECTORY|];
    }
  }

  /** On such records the bounded decision is the rule. */
  lemma DecisionIsRule(r: Bytes)
    requires ShortIdentity(r)
    ensures Decision(r) == Rule(r)
  {
    hide Wanted, Instruction, PathOf;
    if TAB in r {
      WantedIsInstruction(r);
    }
  }

  /** Its suffix names it, or its directory stands within the prefix. */
  predicate Recognized(r: Bytes)
    requires TAB in r
  {
    || EndsWith(r, SLASH_AGENTS)
    || (First(r, TAB) + 1 + |DIRECTORY| <= BUDGET + 1 && DIRECTORY <= PathOf(r) && EndsWith(r, EXTENSION))
  }

  lemma Words()
    ensures |AGENTS| == 9 && |COPILOT| == 31 && |DIRECTORY| == 21
    ensures 0 < |SLASH_AGENTS| <= SUFFIX && 0 < |EXTENSION| <= SUFFIX && TAB !in SLASH_AGENTS && TAB !in EXTENSION
  {
  }

  /** On every other record it differs exactly where the rule's verdict needed the bytes between prefix and suffix. */
  lemma DecisionElsewhere(r: Bytes)
    requires !ShortIdentity(r)
    ensures Decision(r) == Rule(r) <==>
      (if First(r, TAB) > BUDGET then Instruction(PathOf(r))
       else (Instruction(PathOf(r)) ==> Recognized(r)))
  {
    hide EndsWith, AGENTS, COPILOT, DIRECTORY, EXTENSION, SLASH_AGENTS;
    Words();
    var t, p := First(r, TAB), PrefixOf(r);
    SuffixEnds(r, SLASH_AGENTS);
    SuffixEnds(r, EXTENSION);
    PathEnds(r, SLASH_AGENTS);
    PathEnds(r, EXTENSION);
    if t <= BUDGET {
      PrefixTab(r, BUDGET + 1);
      assert PathOf(p) == PathOf(r)[..BUDGET - t];
      if t + 1 + |DIRECTORY| <= BUDGET + 1 {
        assert PathOf(p)[..|DIRECTORY|] == PathOf(r)[..|DIRECTORY|];
      }
    } else {
      assert TAB !in p by {
        assert forall k :: 0 <= k < |p| ==> p[k] == r[..t][k];
      }
    }
  }

  // ---------------------------------------------------------------- Listings

  /** The terminated records of a listing. */
  function Records(s: Bytes): seq<Bytes>
    decreases |s|
  {
    if 0 !in s then [] else [s[..First(s, 0)]] + Records(s[First(s, 0) + 1..])
  }

  /** What follows the last NUL. */
  function Tail(s: Bytes): Bytes
    decreases |s|
  {
    if 0 !in s then s else Tail(s[First(s, 0) + 1..])
  }

  /** Filtering a whole listing: an unterminated record fails. */
  function Filtered(decide: Bytes -> Result<Bytes>, listing: Bytes): Result<Bytes> {
    if Tail(listing) != [] then Err else Chosen(decide, Records(listing))
  }

  /** `chunk.split(b"\0")` */
  function Pieces(s: Bytes): (r: seq<Bytes>)
    ensures r != []
    decreases |s|
  {
    if 0 !in s then [s] else [s[..First(s, 0)]] + Pieces(s[First(s, 0) + 1..])
  }

  function Rejoin(pieces: seq<Bytes>): Bytes
    requires pieces != []
  {
    if |pieces| == 1 then pieces[0] else pieces[0] + [0] + Rejoin(pieces[1..])
  }

  lemma {:induction false} PiecesRejoin(s: Bytes)
    ensures Rejoin(Pieces(s)) == s && forall k :: 0 <= k < |Pieces(s)| ==> 0 !in Pieces(s)[k]
    decreases |s|
  {
    if 0 in s {
      var n := First(s, 0);
      PiecesRejoin(s[n + 1..]);
      assert Pieces(s)[1..] == Pieces(s[n + 1..]);
      assert s == s[..n] + [0] + s[n + 1..];
    }
  }

  lemma RecordEnds(tail: Bytes, rest: Bytes)
    requires 0 !in tail
    ensures Records(tail + [0] + rest) == [tail] + Records(rest) && Tail(tail + [0] + rest) == Tail(rest)
  {
    var s, n := tail + [0] + rest, |tail|;
    assert s[..n] == tail && s[n] == 0 && s[n + 1..] == rest;
    FirstIs(s, 0, n);
  }

  lemma NoRecord(s: Bytes)
    requires 0 !in s
    ensures Records(s) == [] && Tail(s) == s
  {
  }

  lemma {:induction false} RecordsJoin(s: Bytes, t: Bytes)
    ensures Records(s + t) == Records(s) + Records(Tail(s) + t) && Tail(s + t) == Tail(Tail(s) + t) && 0 !in Tail(s)
    decreases |s|
  {
    hide Records, Tail;
    if 0 in s {
      var n := First(s, 0);
      RecordsJoin(s[n + 1..], t);
      assert s == s[..n] + [0] + s[n + 1..];
      assert s + t == s[..n] + [0] + (s[n + 1..] + t);
      RecordEnds(s[..n], s[n + 1..] + t);
      RecordEnds(s[..n], s[n + 1..]);
    } else {
      NoRecord(s);
      assert [] + Records(s + t) == Records(s + t);
    }
  }

  lemma {:induction false} ChosenJoin(decide: Bytes -> Result<Bytes>, a: seq<Bytes>, b: seq<Bytes>)
    ensures Chosen(decide, a + b) ==
      if Chosen(decide, a).Err? || Chosen(decide, b).Err? then Err else Ok(Chosen(decide, a).value + Chosen(decide, b).value)
    decreases |a|
  {
    if a == [] {
      assert a + b == b;
      if Chosen(decide, b).Ok? {
        assert [] + Chosen(decide, b).value == Chosen(decide, b).value;
      }
    } else {
      ChosenJoin(decide, a[1..], b);
      assert (a + b)[1..] == a[1..] + b;
      if decide(a[0]).Ok? && Chosen(decide, a[1..]).Ok? && Chosen(decide, b).Ok? {
        Associates(decide(a[0]).value, Chosen(decide, a[1..]).value, Chosen(decide, b));
      }
    }
  }

  // ---------------------------------------------------------------- When the listing's result is the rule's

  /** The path starts behind the prefix and names no instruction file: the filter calls the record malformed. */
  predicate LostPath(r: Bytes) {
    !ShortIdentity(r) && First(r, TAB) > BUDGET && !Instruction(PathOf(r))
  }

  /** An instruction record that the filter does not recognize, and drops where the rule fails. */
  predicate LostName(r: Bytes) {
    !ShortIdentity(r) && First(r, TAB) <= BUDGET && Instruction(PathOf(r)) && !Recognized(r)
  }

  /** How the two verdicts on one record are related. */
  lemma Verdicts(r: Bytes)
    ensures Decision(r) == (if LostPath(r) then Err else if LostName(r) then Ok([]) else Rule(r))
    ensures LostPath(r) ==> Rule(r) == Ok([])
    ensures LostName(r) ==> Rule(r).Err?
  {
    hide Instruction, Recognized, Wanted;
    if ShortIdentity(r) {
      DecisionIsRule(r);
    } else {
      DecisionElsewhere(r);
      Oversized(r);
    }
  }

  /** Where the decision is not the rule's, the one fails and the other drops the record. */
  lemma Oversized(r: Bytes)
    requires !ShortIdentity(r)
    ensures First(r, TAB) > BUDGET ==> Decision(r).Err?
    ensures Rule(r) == (if Instruction(PathOf(r)) then Err else Ok([]))
    ensures Decision(r).Err? || Decision(r) == Ok([])
  {
    hide Instruction, Wanted;
    var t := First(r, TAB);
    if t > BUDGET {
      assert forall k :: 0 <= k < |PrefixOf(r)| ==> PrefixOf(r)[k] == r[..t][k];
    }
  }

  predicate SomeFails(decide: Bytes -> Result<Bytes>, records: seq<Bytes>) {
    exists k :: 0 <= k < |records| && decide(records[k]).Err?
  }

  predicate SomeLost(records: seq<Bytes>) {
    exists k :: 0 <= k < |records| && (LostPath(records[k]) || LostName(records[k]))
  }

  /** Some record fails by the rule, and some record fails in the filter. */
  predicate BothFail(records: seq<Bytes>) {
    && (exists k :: 0 <= k < |records| && Rule(records[k]).Err?)
    && (exists k :: 0 <= k < |records| && (LostPath(records[k]) || (Rule(records[k]).Err? && !LostName(records[k]))))
  }

  /** The exact condition: the listing is cut short, or loses no record, or fails either way. */
  predicate SameOutcome(listing: Bytes) {
    Tail(listing) != [] || !SomeLost(Records(listing)) || BothFail(Records(listing))
  }

  lemma {:induction false} ChosenFails(decide: Bytes -> Result<Bytes>, records: seq<Bytes>)
    ensures Chosen(decide, records).Err? <==> SomeFails(decide, records)
    decreases |records|
  {
    if records != [] {
      ChosenFails(decide, records[1..]);
      if k :| 0 <= k < |records| && decide(records[k]).Err? {
        assert k > 0 ==> decide(records[1..][k - 1]).Err?;
      }
      if k :| 0 <= k < |records[1..]| && decide(records[1..][k]).Err? {
        assert decide(records[k + 1]).Err?;
      }
    }
  }

  lemma {:induction false} NoneLost(records: seq<Bytes>)
    requires !SomeLost(records)
    ensures Chosen(Decision, records) == Chosen(Rule, records)
    decreases |records|
  {
    hide Decision, Rule, LostPath, LostName;
    if records != [] {
      Verdicts(records[0]);
      assert forall k :: 0 <= k < |records[1..]| ==> records[1..][k] == records[k + 1];
      NoneLost(records[1..]);
    }
  }

  /** The filter's result on a listing is the rule's exactly under that condition. */
  lemma ListingAgrees(listing: Bytes)
    ensures Filtered(Decision, listing) == Filtered(Rule, listing) <==> SameOutcome(listing)
  {
    hide Decision, Rule, LostPath, LostName, Chosen, Records, Tail;
    var records := Records(listing);
    ChosenFails(Decision, records);
    ChosenFails(Rule, records);
    forall k | 0 <= k < |records|
      ensures Decision(records[k]).Err? <==> LostPath(records[k]) || (Rule(records[k]).Err? && !LostName(records[k]))
      ensures LostPath(records[k]) || LostName(records[k]) ==> Decision(records[k]).Err? || Rule(records[k]).Err? {
      Verdicts(records[k]);
    }
    if !SomeLost(records) {
      NoneLost(records);
    }
  }

  /** A record as Git prints it: a mode, a type and an object name of at most 64 digits stand before the path. */
  predicate TreeRecord(r: Bytes) {
    TAB in r && First(r, TAB) <= 78
  }

  /** So on the listings that Git prints, the filter is the rule. */
  lemma TreeListing(listing: Bytes)
    requires forall k :: 0 <= k < |Records(listing)| ==> TreeRecord(Records(listing)[k])
    ensures Filtered(Decision, listing) == Filtered(Rule, listing)
  {
    hide Decision, Rule, Chosen, Records, Tail;
    ListingAgrees(listing);
  }

  /** A record whose path starts just before the end of the prefix. */
  function LateRecord(): Bytes {
    seq(BUDGET - 5, _ => 120) + [TAB] + AGENTS
  }

  /** On a listing of that record the rule fails and the filter finds nothing. */
  lemma LateRecordDiffers()
    ensures Filtered(Rule, LateRecord() + [0]).Err? && Filtered(Decision, LateRecord() + [0]) == Ok([])
  {
    hide Decision, Rule, LostPath, LostName;
    var r := LateRecord();
    LateIsLost();
    Verdicts(r);
    RecordEnds(r, []);
    assert r + [0] + [] == r + [0];
    NoRecord([]);
    OneRecord(Rule, r);
    OneRecord(Decision, r);
  }

  lemma OneRecord(decide: Bytes -> Result<Bytes>, r: Bytes)
    ensures Chosen(decide, [r] + []) == decide(r)
  {
    assert ([r] + [])[1..] == [] && ([r] + [])[0] == r;
    if decide(r).Ok? {
      assert decide(r).value + [] == decide(r).value;
    }
  }

  lemma LateIsLost()
    ensures LostName(LateRecord()) && 0 !in LateRecord()
  {
    hide EXTENSION, DIRECTORY;
    var r, n := LateRecord(), BUDGET - 5;
    assert r[..n] == seq(n, _ => 120);
    FirstIs(r, TAB, n);
    Words();
    assert PathOf(r) == AGENTS;
    assert r[|r| - 10] == TAB;
    assert r[|r| - 10..][0] == TAB != SLASH_AGENTS[0];
  }

  // ---------------------------------------------------------------- The code

  lemma PrefixMore(r: Bytes, piece: Bytes)
    ensures var room := BUDGET + 1 - |PrefixOf(r)|;
            PrefixOf(r + piece) == PrefixOf(r) + (if |piece| <= room then piece else piece[..room])
  {
  }

  lemma SuffixMore(r: Bytes, piece: Bytes)
    ensures SuffixOf(r + piece) == SuffixOf(SuffixOf(r) + piece)
  {
  }

  class Filter {
    var prefix: Bytes
    var suffix: Bytes
    var size: nat
    ghost var held: Bytes

    /** `held` is the record being read; only its ends are stored. */
    ghost predicate Valid()
      reads this
    {
      prefix == PrefixOf(held) && suffix == SuffixOf(held) && size == |held| && 0 !in held
    }

    constructor ()
      ensures Valid() && held == []
    {
      prefix, suffix, size, held := [], [], 0, [];
    }

    /** `filter(chunk)`.  Between pieces it stores at most the budget and one byte, and 32 bytes. */
    method Feed(chunk: Bytes) returns (r: Result<Bytes>)
      requires Valid()
      modifies this
      ensures r == Chosen(Decision, Records(old(held) + chunk))
      ensures r.Ok? ==> Valid() && held == Tail(old(held) + chunk)
      ensures |prefix| <= BUDGET + 1 && |suffix| <= SUFFIX
    {
      hide Chosen, Records, Tail, Pieces, PrefixOf, SuffixOf, Decide;
      var selected: Bytes := [];
      var pieces := Pieces(chunk);
      PiecesRejoin(chunk);
      ghost var start := held;
      ghost var all := Records(held + chunk);
      assert pieces[0..] == pieces;
      NoneChosen(Decision, all);
      for index := 0 to |pieces|
        invariant index < |pieces| ==> Valid()
        invariant index < |pieces| ==> Tail(start + chunk) == Tail(held + Rejoin(pieces[index..]))
        invariant index < |pieces| ==>
          Chosen(Decision, all) == Prepended(selected, Chosen(Decision, Records(held + Rejoin(pieces[index..]))))
        invariant index == |pieces| ==> Valid() && held == Tail(start + chunk) && Chosen(Decision, all) == Ok(selected)
      {
        var piece := pieces[index];
        ghost var rest := pieces[index..];
        assert rest[1..] == pieces[index + 1..];
        PrefixMore(held, piece);
        SuffixMore(held, piece);
        Sizes(held);
        var room := BUDGET + 1 - |prefix|;
        size := size + |piece|;
        prefix := prefix + (if |piece| <= room then piece else piece[..room]);
        suffix := SuffixOf(suffix + piece);
        ghost var before := held;
        held := held + piece;
        Sizes(held);
        if index == |pieces| - 1 {
          LastPiece(held, selected);
          assert before + Rejoin(rest) == held;
          continue;
        }
        ghost var next := Rejoin(pieces[index + 1..]);
        assert before + Rejoin(rest) == held + [0] + next;
        RecordEnds(held, next);
        OneChosen(Decision, held, Records(next));
        var decision := Decide(prefix, suffix, size);
        assert decision == Decision(held);
        if decision.Err? {
          return Err;
        }
        Associates(selected, decision.value, Chosen(Decision, Records(next)));
        selected := selected + decision.value;
        prefix := [];
        suffix := [];
        size := 0;
        held := [];
        Nothing();
        assert held + next == next;
      }
      Sizes(held);
      r := Ok(selected);
    }

    /** `finish()` */
    method Finish() returns (ok: bool)
      requires Valid()
      ensures ok <==> held == []
    {
      ok := size == 0;
    }
  }

  function Prepended(s: Bytes, r: Result<Bytes>): Result<Bytes> {
    if r.Ok? then Ok(s + r.value) else Err
  }

  lemma NoneChosen(decide: Bytes -> Result<Bytes>, records: seq<Bytes>)
    ensures Chosen(decide, records) == Prepended([], Chosen(decide, records))
  {
    if Chosen(decide, records).Ok? {
      assert [] + Chosen(decide, records).value == Chosen(decide, records).value;
    }
  }

  lemma OneChosen(decide: Bytes -> Result<Bytes>, r: Bytes, rest: seq<Bytes>)
    ensures Chosen(decide, [r] + rest) == if decide(r).Err? then Err else Prepended(decide(r).value, Chosen(decide, rest))
  {
    assert ([r] + rest)[1..] == rest;
  }

  lemma Associates(a: Bytes, b: Bytes, r: Result<Bytes>)
    ensures Prepended(a, Prepended(b, r)) == Prepended(a + b, r)
  {
    if r.Ok? {
      assert a + (b + r.value) == a + b + r.value;
    }
  }

  lemma Sizes(r: Bytes)
    ensures |PrefixOf(r)| <= BUDGET + 1 && |SuffixOf(r)| <= SUFFIX
  {
  }

  lemma Nothing()
    ensures PrefixOf([]) == [] && SuffixOf([]) == []
  {
  }

  lemma LastPiece(held: Bytes, selected: Bytes)
    requires 0 !in held
    ensures Records(held) == [] && Tail(held) == held && Prepended(selected, Chosen(Decision, [])) == Ok(selected)
  {
    assert selected + [] == selected;
  }

  /** The filter over a whole stream: however it is cut, the result is that of the whole listing. */
  method FilterStream(chunks: seq<Bytes>) returns (r: Result<Bytes>)
    ensures r == Filtered(Decision, Concat(chunks))
    ensures r == Filtered(Rule, Concat(chunks)) <==> SameOutcome(Concat(chunks))
  {
    hide Chosen, Records, Tail, SameOutcome, Decision, Rule;
    var filter := new Filter();
    var selected: Bytes := [];
    ghost var all := Concat(chunks);
    ListingAgrees(all);
    Started(all);
    assert chunks[..0] == [];
    for k := 0 to |chunks|
      invariant filter.Valid() && filter.held == Tail(Concat(chunks[..k]))
      invariant Chosen(Decision, Records(Concat(chunks[..k]))) == Ok(selected)
    {
      var more := filter.Feed(chunks[k]);
      ghost var before := Concat(chunks[..k]);
      ConcatSnoc(chunks, k);
      RecordsJoin(before, chunks[k]);
      ChosenJoin(Decision, Records(before), Records(Tail(before) + chunks[k]));
      if more.Err? {
        Stopped(chunks, k + 1);
        return Err;
      }
      selected := selected + more.value;
    }
    assert chunks[..|chunks|] == chunks;
    var ok := filter.Finish();
    if !ok {
      return Err;
    }
    r := Ok(selected);
  }

  lemma Started(all: Bytes)
    ensures Records([]) == [] && Tail([]) == [] && Chosen(Decision, []) == Ok([])
  {
  }

  lemma Stopped(chunks: seq<Bytes>, k: nat)
    requires k <= |chunks| && Chosen(Decision, Records(Concat(chunks[..k]))).Err?
    ensures Chosen(Decision, Records(Concat(chunks))).Err?
  {
    hide Chosen, Records, Tail;
    ConcatSplit(chunks, k);
    RecordsJoin(Concat(chunks[..k]), Concat(chunks[k..]));
    ChosenJoin(Decision, Records(Concat(chunks[..k])), Records(Tail(Concat(chunks[..k])) + Concat(chunks[k..])));
  }
}
