/**
 Masking of documented fixture lines in scripts/lit-push-ready.py: the whole-text forms
 (`mask_documented_secret_fixture_lines` and `…_diff`) and the streaming form
 (`filtered_scan_chunks`), which keeps only a digest and a bounded prefix of the line it is in.
 */
module Masker {
  import opened Common
  import opened Utf8
  import opened Splitter
  import opened DiffText

  const CHUNK_BYTES := 65536

  /** The digests of documented lines, by path and line number. */
  type Documented = map<Bytes, map<nat, Digest<Chars>>>

  /** Where in a diff the masker is. */
  datatype Place = Place(oldPath: Option<Bytes>, newPath: Option<Bytes>, oldNumber: nat, newNumber: nat, inHunk: bool)

  const START := Place(None, None, 0, 0, false)

  function Mark(): Chars {
    Ascii("DOCUMENTED_SYNTHETIC_FIXTURE")
  }

  predicate Starts(line: Chars, word: string) {
    Ascii(word) <= line
  }

  /** Python's `a or b` for paths and for numbers. */
  function OrPath(a: Option<Bytes>, b: Option<Bytes>): Option<Bytes> {
    if a.Some? && a.value != [] then a else b
  }

  function OrNumber(a: nat, b: nat): nat {
    if a != 0 then a else b
  }

  function From(s: Chars, n: nat): Chars {
    if n <= |s| then s[n..] else []
  }

  // ---------------------------------------------------------------- The whole-text forms

  /** `documented_secret_fixture_matches` */
  predicate Matches(documented: Documented, path: Option<Bytes>, number: nat, line: Chars) {
    && path.Some? && path.value in documented && number in documented[path.value]
    && Sha(line) == documented[path.value][number]
  }

  /** One line of a diff: the new place, and whether the line is masked. */
  function DiffLine(tables: Tables, documented: Documented, p: Place, line: Chars): Result<(Place, bool)> {
    if Starts(line, "diff --git ") then Ok((p.(oldPath := None, newPath := None, inHunk := false), false))
    else if !p.inHunk && Starts(line, "--- ") then
      match Unquote(tables, From(line, 4), OLD)
      case Err => Err
      case Ok(path) => Ok((p.(oldPath := path), false))
    else if !p.inHunk && Starts(line, "+++ ") then
      match Unquote(tables, From(line, 4), NEW)
      case Err => Err
      case Ok(path) => Ok((p.(newPath := path), false))
    else if Starts(line, "@@") then
      if (p.oldPath.None? && p.newPath.None?) || ReadHeader(tables, line).None? then Err
      else Ok((p.(oldNumber := ReadHeader(tables, line).value.0, newNumber := ReadHeader(tables, line).value.1, inHunk := true), false))
    else if p.inHunk && Starts(line, "+") then
      Ok((p.(newNumber := p.newNumber + 1), Matches(documented, p.newPath, p.newNumber, From(line, 1))))
    else if p.inHunk && Starts(line, "-") then
      Ok((p.(oldNumber := p.oldNumber + 1), Matches(documented, p.oldPath, p.oldNumber, From(line, 1))))
    else if p.inHunk && Starts(line, " ") then
      Ok((p.(oldNumber := p.oldNumber + 1, newNumber := p.newNumber + 1),
          Matches(documented, OrPath(p.oldPath, p.newPath), OrNumber(p.oldNumber, p.newNumber), From(line, 1))))
    else Ok((p, false))
  }

  /** The lines of a text, without their breaks. */
  function Texts(lines: seq<Line>): seq<Chars> {
    if lines == [] then [] else [lines[0].text] + Texts(lines[1..])
  }

  function Shown(line: Chars, masked: bool): Chars {
    if masked then Mark() else line
  }

  function MaskedDiff(tables: Tables, documented: Documented, p: Place, lines: seq<Chars>): Result<seq<Chars>>
    decreases |lines|
  {
    if lines == [] then Ok([])
    else
      match DiffLine(tables, documented, p, lines[0])
      case Err => Err
      case Ok(next) =>
        match MaskedDiff(tables, documented, next.0, lines[1..])
        case Err => Err
        case Ok(rest) => Ok([Shown(lines[0], next.1)] + rest)
  }

  function MaskedLines(documented: Documented, path: Option<Bytes>, number: nat, lines: seq<Chars>): seq<Chars>
    decreases |lines|
  {
    if lines == [] then []
    else [Shown(lines[0], Matches(documented, path, number, lines[0]))] + MaskedLines(documented, path, number + 1, lines[1..])
  }

  /** `"\n".join(lines)` */
  function Join(lines: seq<Chars>): Chars {
    if lines == [] then [] else if |lines| == 1 then lines[0] else lines[0] + [NL] + Join(lines[1..])
  }

  /** `documented.get(path or "", {})` is not empty. */
  predicate HasEntries(documented: Documented, path: Option<Bytes>) {
    var key := if path.Some? then path.value else [];
    key in documented && documented[key] != map[]
  }

  /** `mask_documented_secret_fixture_lines(value, documented, path=path, diff=diff)` */
  function Masked(tables: Tables, documented: Documented, path: Option<Bytes>, diff: bool, value: Chars): Result<Chars> {
    if diff then
      if documented == map[] then Ok(value)
      else
        match MaskedDiff(tables, documented, START, Texts(SplitLines(value)))
        case Err => Err
        case Ok(lines) => Ok(Join(lines))
    else if !HasEntries(documented, path) then Ok(value)
    else Ok(Join(MaskedLines(documented, path, 1, Texts(SplitLines(value)))))
  }

  // ---------------------------------------------------------------- The streaming form

  /** `documented.get(path or "", {}).get(number)` */
  function Entry(documented: Documented, path: Option<Bytes>, number: nat): Option<Digest<Chars>> {
    var key := if path.Some? then path.value else [];
    if key in documented && number in documented[key] then Some(documented[key][number]) else None
  }

  /** What the streaming form does when a line ends: the new place, and the path and number to look up. */
  function EndLine(tables: Tables, documented: Documented, path: Option<Bytes>, diff: bool, p: Place, number: nat,
                   prefix: Chars): Result<(Place, Option<Bytes>, nat)> {
    if !diff then Ok((p, path, number))
    else if Starts(prefix, "diff --git ") then Ok((p.(oldPath := None, newPath := None, inHunk := false), None, number))
    else if !p.inHunk && Starts(prefix, "--- ") then
      match Unquote(tables, From(prefix, 4), OLD)
      case Err => Err
      case Ok(found) => Ok((p.(oldPath := found), None, number))
    else if !p.inHunk && Starts(prefix, "+++ ") then
      if documented == map[] then Ok((p.(newPath := None), None, number))
      else
        match Unquote(tables, From(prefix, 4), NEW)
        case Err => Err
        case Ok(found) => Ok((p.(newPath := found), None, number))
    else if Starts(prefix, "@@") then
      if ReadHeader(tables, prefix).None? || (documented != map[] && p.oldPath.None? && p.newPath.None?) then Err
      else Ok((p.(oldNumber := ReadHeader(tables, prefix).value.0, newNumber := ReadHeader(tables, prefix).value.1, inHunk := true),
               None, number))
    else if p.inHunk && Starts(prefix, "+") then Ok((p.(newNumber := p.newNumber + 1), p.newPath, p.newNumber))
    else if p.inHunk && Starts(prefix, "-") then Ok((p.(oldNumber := p.oldNumber + 1), p.oldPath, p.oldNumber))
    else if p.inHunk && Starts(prefix, " ") then
      Ok((p.(oldNumber := p.oldNumber + 1, newNumber := p.newNumber + 1),
          OrPath(p.oldPath, p.newPath), OrNumber(p.oldNumber, p.newNumber)))
    else Ok((p, None, number))
  }

  /** The part of a line that is kept, and the part that is digested. */
  function Prefix(line: Chars): Chars {
    if |line| <= CHUNK_BYTES then line else line[..CHUNK_BYTES]
  }

  function Digested(line: Chars, diff: bool): Chars {
    if diff then From(line, 1) else line
  }

  function StreamedLine(tables: Tables, documented: Documented, path: Option<Bytes>, diff: bool, p: Place, number: nat,
                        line: Chars): Result<(Place, Chars)> {
    match EndLine(tables, documented, path, diff, p, number, Prefix(line))
    case Err => Err
    case Ok(e) => Ok((e.0, Shown(line, Entry(documented, e.1, e.2) == Some(Sha(Digested(line, diff)))) + [NL]))
  }

  /** The streaming form's output on a list of lines. */
  function Streamed(tables: Tables, documented: Documented, path: Option<Bytes>, diff: bool, p: Place, number: nat,
                    lines: seq<Chars>): Result<Chars>
    decreases |lines|
  {
    if lines == [] then Ok([])
    else
      match StreamedLine(tables, documented, path, diff, p, number, lines[0])
      case Err => Err
      case Ok(e) =>
        match Streamed(tables, documented, path, diff, e.0, number + 1, lines[1..])
        case Err => Err
        case Ok(rest) => Ok(e.1 + rest)
  }

  // ---------------------------------------------------------------- When they agree

  /** What `parse_secret_fixture_manifest` says of a path: at most 500 characters, under one of three directories. */
  predicate FixturePath(path: Bytes) {
    && |path| <= 2000
    && (|| Encode(Ascii("examples/")) <= path || Encode(Ascii("molecule/")) <= path || Encode(Ascii("tests/")) <= path)
  }

  /** What a parsed manifest is. */
  ghost predicate IsManifest(documented: Documented) {
    documented != map[] && forall path :: path in documented ==> FixturePath(path) && documented[path] != map[]
  }

  lemma FixturePathNamed(path: Bytes)
    requires FixturePath(path)
    ensures path != []
  {
    EncodeLength(Ascii("examples/"));
    EncodeLength(Ascii("molecule/"));
    EncodeLength(Ascii("tests/"));
  }

  predicate IsPathLine(p: Place, line: Chars) {
    !p.inHunk && (Starts(line, "--- ") || Starts(line, "+++ "))
  }

  function SideOf(line: Chars): Byte {
    if Starts(line, "--- ") then OLD else NEW
  }

  predicate HasPath(p: Place) {
    p.oldPath.Some? || p.newPath.Some?
  }

  /**
   The exact condition on which the kept prefix of a line reads like the line: the line is
   kept whole, or it is a path line whose name is refused whole and cut, or a hunk header
   that is refused or whose match ends within the prefix, or no header at all.
   */
  predicate PrefixSuffices(tables: Tables, p: Place, line: Chars) {
    || |line| <= CHUNK_BYTES
    || if IsPathLine(p, line)
       then Refused(tables, line[4..], SideOf(line)) && Refused(tables, line[4..CHUNK_BYTES], SideOf(line))
       else HeaderEnds(tables, p, line)
  }

  /** A hunk header that is not refused ends within the prefix. */
  predicate HeaderEnds(tables: Tables, p: Place, line: Chars) {
    Starts(line, "@@") && HasPath(p) && ReadHeader(tables, line).Some? ==> MatchHeader(tables, line).value.end <= CHUNK_BYTES
  }

  /**
   The exact condition on which line and prefix are refused alike.  It is wider: a name may
   be accepted whole and cut, as two names.
   */
  predicate SameRefusal(tables: Tables, p: Place, line: Chars) {
    || |line| <= CHUNK_BYTES
    || if IsPathLine(p, line)
       then (Refused(tables, line[4..], SideOf(line)) <==> Refused(tables, line[4..CHUNK_BYTES], SideOf(line)))
       else HeaderEnds(tables, p, line)
  }

  lemma PrefixStarts(line: Chars, word: string)
    requires |word| <= CHUNK_BYTES
    ensures Starts(Prefix(line), word) <==> Starts(line, word)
  {
    if Starts(line, word) && |line| > CHUNK_BYTES {
      assert Ascii(word) == line[..|word|] == Prefix(line)[..|word|];
    }
    if Starts(Prefix(line), word) {
      assert Ascii(word) == Prefix(line)[..|word|] == line[..|word|];
    }
  }

  lemma SamePrefixStarts(line: Chars)
    ensures forall word :: word in {"diff --git ", "--- ", "+++ ", "@@", "+", "-", " "} ==>
              (Starts(Prefix(line), word) <==> Starts(line, word))
  {
    forall word | word in {"diff --git ", "--- ", "+++ ", "@@", "+", "-", " "}
      ensures Starts(Prefix(line), word) <==> Starts(line, word) {
      PrefixStarts(line, word);
    }
  }

  lemma EntryMatches(documented: Documented, path: Option<Bytes>, number: nat, line: Chars)
    requires IsManifest(documented)
    ensures (Entry(documented, path, number) == Some(Sha(line))) <==> Matches(documented, path, number, line)
  {
    if [] in documented {
      FixturePathNamed([]);
    }
  }

  lemma NoPath(documented: Documented, number: nat, line: Chars)
    ensures !Matches(documented, None, number, line)
  {
  }

  /** What the kept prefix gives, in terms of the line. */
  lemma PrefixReads(tables: Tables, line: Chars)
    ensures |line| <= CHUNK_BYTES ==> Prefix(line) == line
    ensures |line| > CHUNK_BYTES ==> From(line, 4) == line[4..] && From(Prefix(line), 4) == line[4..CHUNK_BYTES]
    ensures ReadHeader(tables, Prefix(line)) ==
            if MatchHeader(tables, line).Some? && MatchHeader(tables, line).value.end > CHUNK_BYTES then None
            else ReadHeader(tables, line)
  {
    hide ReadHeader, MatchHeader;
    if |line| > CHUNK_BYTES {
      HeaderCut(tables, line, CHUNK_BYTES);
    }
  }

  /** A cut name is never the whole one, and both are longer than any manifest's. */
  lemma NamesRead(tables: Tables, line: Chars, side: Byte)
    requires |line| > CHUNK_BYTES
    ensures Unquote(tables, line[4..], side) == Unquote(tables, line[4..CHUNK_BYTES], side)
       <==> Refused(tables, line[4..], side) && Refused(tables, line[4..CHUNK_BYTES], side)
    ensures !Refused(tables, line[4..], side) ==> LongName(Unquote(tables, line[4..], side).value)
    ensures !Refused(tables, line[4..CHUNK_BYTES], side) ==> LongName(Unquote(tables, line[4..CHUNK_BYTES], side).value)
  {
    hide Unquote, LongName;
    assert line[4..][..CHUNK_BYTES - 4] == line[4..CHUNK_BYTES];
    CutNames(tables, line[4..], CHUNK_BYTES - 4, side);
  }

  /** The whole-text form's verdict on a line, as the streaming form would give it. */
  function WholeLine(tables: Tables, documented: Documented, p: Place, line: Chars): Result<(Place, Chars)> {
    match DiffLine(tables, documented, p, line)
    case Err => Err
    case Ok(next) => Ok((next.0, Shown(line, next.1) + [NL]))
  }

  /** The whole-text form decides a line by the same rule, read off the whole line. */
  lemma WholeEnd(tables: Tables, documented: Documented, p: Place, number: nat, line: Chars)
    requires documented != map[]
    ensures DiffLine(tables, documented, p, line) ==
      match EndLine(tables, documented, None, true, p, number, line) {
        case Err => Err
        case Ok(e) => Ok((e.0, Matches(documented, e.1, e.2, From(line, 1))))
      }
  {
    hide Starts, Matches, Unquote, ReadHeader, From;
    NoPath(documented, number, From(line, 1));
  }

  /** Line and prefix lead to the same verdict exactly when the prefix suffices, and otherwise to different places. */
  lemma SameEnd(tables: Tables, documented: Documented, p: Place, number: nat, line: Chars)
    requires documented != map[]
    ensures var whole, cut := EndLine(tables, documented, None, true, p, number, line),
                              EndLine(tables, documented, None, true, p, number, Prefix(line));
      && (whole == cut <==> PrefixSuffices(tables, p, line))
      && (whole.Ok? && cut.Ok? && whole.value.0 == cut.value.0 ==> whole == cut)
  {
    hide Starts, Prefix, Unquote, ReadHeader, MatchHeader, From;
    PrefixReads(tables, line);
    if |line| > CHUNK_BYTES {
      SamePrefixStarts(line);
      HeaderWords(line);
      HeaderMatched(tables, line);
      NamesRead(tables, line, OLD);
      NamesRead(tables, line, NEW);
    }
  }

  /** What each form shows depends on the verdict alone. */
  lemma SameShown(documented: Documented, a: Option<Bytes>, b: Option<Bytes>, number: nat, line: Chars)
    requires IsManifest(documented) && AlikePath(documented, a, b)
    ensures Shown(line, Matches(documented, a, number, From(line, 1)))
         == Shown(line, Entry(documented, b, number) == Some(Sha(Digested(line, true))))
  {
    AlikeMatches(documented, a, b, number, From(line, 1));
  }

  /** The fallback for a mode without diffs plays no part in a diff. */
  lemma EndLineOfDiff(tables: Tables, documented: Documented, path: Option<Bytes>, p: Place, number: nat, line: Chars)
    ensures EndLine(tables, documented, path, true, p, number, line) == EndLine(tables, documented, None, true, p, number, line)
  {
    hide Starts, Unquote, ReadHeader, From;
  }

  /** On one line the two forms agree exactly when the prefix suffices. */
  lemma SameDiffLine(tables: Tables, documented: Documented, path: Option<Bytes>, p: Place, number: nat, line: Chars)
    requires IsManifest(documented)
    ensures StreamedLine(tables, documented, path, true, p, number, line) == WholeLine(tables, documented, p, line)
       <==> PrefixSuffices(tables, p, line)
  {
    hide EndLine, DiffLine, PrefixSuffices, Entry, Matches, Shown, Prefix, Digested;
    WholeEnd(tables, documented, p, number, line);
    SameEnd(tables, documented, p, number, line);
    EndLineOfDiff(tables, documented, path, p, number, Prefix(line));
    var whole, cut := EndLine(tables, documented, None, true, p, number, line),
                      EndLine(tables, documented, None, true, p, number, Prefix(line));
    if whole.Ok? && cut.Ok? {
      SameShown(documented, whole.value.1, whole.value.1, whole.value.2, line);
    }
  }

  /** No line starts with two of these words. */
  lemma HeaderWords(line: Chars)
    ensures Starts(line, "diff --git ") ==> !Starts(line, "--- ") && !Starts(line, "+++ ") && !Starts(line, "@@")
    ensures Starts(line, "--- ") ==> !Starts(line, "+++ ") && !Starts(line, "@@")
    ensures Starts(line, "+++ ") ==> !Starts(line, "@@")
  {
    assert Starts(line, "diff --git ") ==> line[0] == Ascii("diff --git ")[0] == 100;
    assert Starts(line, "--- ") ==> line[0] == Ascii("--- ")[0] == 45;
    assert Starts(line, "+++ ") ==> line[0] == Ascii("+++ ")[0] == 43;
    assert Starts(line, "@@") ==> line[0] == Ascii("@@")[0] == 64;
  }

  function Ended(lines: seq<Chars>): Chars {
    if lines == [] then [] else lines[0] + [NL] + Ended(lines[1..])
  }

  // ---------------------------------------------------------------- What a cut name can do

  predicate Unlisted(documented: Documented, path: Option<Bytes>) {
    path.Some? && path.value != [] && path.value !in documented
  }

  /** The same path, or two that no manifest lists. */
  predicate AlikePath(documented: Documented, a: Option<Bytes>, b: Option<Bytes>) {
    a == b || (Unlisted(documented, a) && Unlisted(documented, b))
  }

  predicate Alike(documented: Documented, p: Place, q: Place) {
    && AlikePath(documented, p.oldPath, q.oldPath) && AlikePath(documented, p.newPath, q.newPath)
    && p.oldNumber == q.oldNumber && p.newNumber == q.newNumber && p.inHunk == q.inHunk
  }

  lemma LongUnlisted(documented: Documented, path: Option<Bytes>)
    requires IsManifest(documented) && LongName(path)
    ensures Unlisted(documented, path)
  {
  }

  lemma AlikeMatches(documented: Documented, a: Option<Bytes>, b: Option<Bytes>, number: nat, line: Chars)
    requires IsManifest(documented) && AlikePath(documented, a, b)
    ensures (Entry(documented, b, number) == Some(Sha(line))) <==> Matches(documented, a, number, line)
  {
    EntryMatches(documented, b, number, line);
  }

  /** The same name, or two long ones, if neither is refused. */
  lemma AlikeNames(tables: Tables, documented: Documented, line: Chars, side: Byte)
    requires IsManifest(documented)
    requires Unquote(tables, From(line, 4), side).Ok? && Unquote(tables, From(Prefix(line), 4), side).Ok?
    ensures AlikePath(documented, Unquote(tables, From(line, 4), side).value, Unquote(tables, From(Prefix(line), 4), side).value)
  {
    hide Unquote, IsManifest, LongName, Unlisted;
    PrefixReads(tables, line);
    if |line| > CHUNK_BYTES {
      NamesRead(tables, line, side);
      LongUnlisted(documented, Unquote(tables, line[4..], side).value);
      LongUnlisted(documented, Unquote(tables, line[4..CHUNK_BYTES], side).value);
    }
  }

  lemma AlikePathEnd(tables: Tables, documented: Documented, p: Place, q: Place, number: nat, line: Chars)
    requires IsManifest(documented) && Alike(documented, p, q) && IsPathLine(p, line)
    ensures var whole, cut := EndLine(tables, documented, None, true, p, number, line),
                              EndLine(tables, documented, None, true, q, number, Prefix(line));
      whole.Ok? && cut.Ok? ==>
        && Alike(documented, whole.value.0, cut.value.0) && AlikePath(documented, whole.value.1, cut.value.1)
        && whole.value.2 == cut.value.2
  {
    hide Starts, Prefix, Unquote, ReadHeader, MatchHeader, From, IsManifest, Unlisted, OrPath;
    SamePrefixStarts(line);
    HeaderWords(line);
    var side := SideOf(line);
    if Unquote(tables, From(line, 4), side).Ok? && Unquote(tables, From(Prefix(line), 4), side).Ok? {
      AlikeNames(tables, documented, line, side);
    }
  }

  lemma AlikeOtherEnd(tables: Tables, documented: Documented, p: Place, q: Place, number: nat, line: Chars)
    requires IsManifest(documented) && Alike(documented, p, q) && !IsPathLine(p, line)
    ensures var whole, cut := EndLine(tables, documented, None, true, p, number, line),
                              EndLine(tables, documented, None, true, q, number, Prefix(line));
      whole.Ok? && cut.Ok? ==>
        && Alike(documented, whole.value.0, cut.value.0) && AlikePath(documented, whole.value.1, cut.value.1)
        && whole.value.2 == cut.value.2
  {
    hide Starts, Prefix, Unquote, ReadHeader, MatchHeader, From, IsManifest, AlikePath, OrPath;
    SamePrefixStarts(line);
    PrefixReads(tables, line);
    SelfAlike(documented, None);
    OrAlike(documented, p.oldPath, p.newPath, q.oldPath, q.newPath);
  }

  lemma AlikeEnd(tables: Tables, documented: Documented, p: Place, q: Place, number: nat, line: Chars)
    requires IsManifest(documented) && Alike(documented, p, q)
    ensures var whole, cut := EndLine(tables, documented, None, true, p, number, line),
                              EndLine(tables, documented, None, true, q, number, Prefix(line));
      whole.Ok? && cut.Ok? ==>
        && Alike(documented, whole.value.0, cut.value.0) && AlikePath(documented, whole.value.1, cut.value.1)
        && whole.value.2 == cut.value.2
  {
    hide EndLine, Alike, AlikePath, IsManifest, Starts, Prefix;
    if IsPathLine(p, line) {
      AlikePathEnd(tables, documented, p, q, number, line);
    } else {
      AlikeOtherEnd(tables, documented, p, q, number, line);
    }
  }

  lemma SelfAlike(documented: Documented, a: Option<Bytes>)
    ensures AlikePath(documented, a, a)
  {
  }

  lemma OrAlike(documented: Documented, a: Option<Bytes>, b: Option<Bytes>, c: Option<Bytes>, d: Option<Bytes>)
    requires AlikePath(documented, a, c) && AlikePath(documented, b, d)
    ensures AlikePath(documented, OrPath(a, b), OrPath(c, d))
  {
  }

  /** From places that are alike, a line that neither form refuses is shown alike and leads to places that are alike. */
  lemma AlikeLine(tables: Tables, documented: Documented, path: Option<Bytes>, p: Place, q: Place, number: nat, line: Chars)
    requires IsManifest(documented) && Alike(documented, p, q)
    ensures var whole, streamed := WholeLine(tables, documented, p, line), StreamedLine(tables, documented, path, true, q, number, line);
      whole.Ok? && streamed.Ok? ==> Alike(documented, whole.value.0, streamed.value.0) && whole.value.1 == streamed.value.1
  {
    hide EndLine, DiffLine, Entry, Matches, Shown, Prefix, Digested, Alike, AlikePath;
    WholeEnd(tables, documented, p, number, line);
    AlikeEnd(tables, documented, p, q, number, line);
    EndLineOfDiff(tables, documented, path, q, number, Prefix(line));
    var whole, cut := EndLine(tables, documented, None, true, p, number, line),
                      EndLine(tables, documented, None, true, q, number, Prefix(line));
    if whole.Ok? && cut.Ok? {
      SameShown(documented, whole.value.1, cut.value.1, whole.value.2, line);
    }
  }

  /** So the two forms never show a line differently: at most one of them refuses. */
  lemma {:induction false} NeverDiffers(tables: Tables, documented: Documented, path: Option<Bytes>, p: Place, q: Place,
                                        number: nat, lines: seq<Chars>)
    requires IsManifest(documented) && Alike(documented, p, q)
    ensures var whole, streamed := MaskedDiff(tables, documented, p, lines), Streamed(tables, documented, path, true, q, number, lines);
      whole.Ok? && streamed.Ok? ==> streamed.value == Ended(whole.value)
    decreases |lines|
  {
    hide StreamedLine, DiffLine, IsManifest, Shown, Alike;
    if lines != [] {
      AlikeLine(tables, documented, path, p, q, number, lines[0]);
      var whole, streamed := WholeLine(tables, documented, p, lines[0]), StreamedLine(tables, documented, path, true, q, number, lines[0]);
      if whole.Ok? && streamed.Ok? {
        NeverDiffers(tables, documented, path, whole.value.0, streamed.value.0, number + 1, lines[1..]);
      }
    }
  }

  // ---------------------------------------------------------------- When one form alone refuses

  /** Line and prefix are refused alike, from places that are alike, exactly under that condition. */
  lemma SameVerdict(tables: Tables, documented: Documented, p: Place, q: Place, number: nat, line: Chars)
    requires documented != map[] && Alike(documented, p, q)
    ensures (EndLine(tables, documented, None, true, p, number, line).Ok? <==>
             EndLine(tables, documented, None, true, q, number, Prefix(line)).Ok?) <==> SameRefusal(tables, p, line)
  {
    hide Starts, Prefix, Unquote, ReadHeader, MatchHeader, From;
    SamePrefixStarts(line);
    HeaderWords(line);
    PrefixReads(tables, line);
    HeaderMatched(tables, line);
  }

  lemma SameRefused(tables: Tables, documented: Documented, path: Option<Bytes>, p: Place, q: Place, number: nat, line: Chars)
    requires documented != map[] && Alike(documented, p, q)
    ensures (DiffLine(tables, documented, p, line).Ok? <==> StreamedLine(tables, documented, path, true, q, number, line).Ok?)
       <==> SameRefusal(tables, p, line)
  {
    hide EndLine, DiffLine, SameRefusal, Entry, Matches, Shown, Prefix, Digested, Alike;
    WholeEnd(tables, documented, p, number, line);
    SameVerdict(tables, documented, p, q, number, line);
    EndLineOfDiff(tables, documented, path, q, number, Prefix(line));
  }

  /** Every line that the whole-text form reaches is refused alike. */
  predicate AllSame(tables: Tables, documented: Documented, p: Place, lines: seq<Chars>)
    decreases |lines|
  {
    lines != [] ==>
      && SameRefusal(tables, p, lines[0])
      && (DiffLine(tables, documented, p, lines[0]).Ok? ==>
            AllSame(tables, documented, DiffLine(tables, documented, p, lines[0]).value.0, lines[1..]))
  }

  /** Unless both forms refuse the diff, that is the exact condition for refusing it alike. */
  lemma {:induction false} SameDiff(tables: Tables, documented: Documented, path: Option<Bytes>, p: Place, q: Place,
                                    number: nat, lines: seq<Chars>)
    requires IsManifest(documented) && Alike(documented, p, q)
    ensures var whole, streamed := MaskedDiff(tables, documented, p, lines), Streamed(tables, documented, path, true, q, number, lines);
      && (AllSame(tables, documented, p, lines) ==> (whole.Ok? <==> streamed.Ok?))
      && (whole.Ok? || streamed.Ok? ==> ((whole.Ok? <==> streamed.Ok?) <==> AllSame(tables, documented, p, lines)))
    decreases |lines|
  {
    assert documented != map[];
    hide StreamedLine, DiffLine, SameRefusal, Shown, IsManifest, Alike;
    if lines != [] {
      SameRefused(tables, documented, path, p, q, number, lines[0]);
      AlikeLine(tables, documented, path, p, q, number, lines[0]);
      var whole, streamed := WholeLine(tables, documented, p, lines[0]), StreamedLine(tables, documented, path, true, q, number, lines[0]);
      if whole.Ok? && streamed.Ok? {
        SameDiff(tables, documented, path, whole.value.0, streamed.value.0, number + 1, lines[1..]);
      }
    }
  }

  // ---------------------------------------------------------------- Other runs

  /** Without a manifest the whole-text form returns the diff; the streaming form still refuses some lines. */
  predicate PlainRead(tables: Tables, inHunk: bool, line: Chars) {
    && (!inHunk && Starts(line, "--- ") ==> !Refused(tables, From(Prefix(line), 4), OLD))
    && (Starts(line, "@@") ==> ReadHeader(tables, line).Some? && MatchHeader(tables, line).value.end <= CHUNK_BYTES)
  }

  function HunkAfter(inHunk: bool, line: Chars): bool {
    if Starts(line, "diff --git ") then false else Starts(line, "@@") || inHunk
  }

  lemma PlainLine(tables: Tables, path: Option<Bytes>, p: Place, number: nat, line: Chars)
    ensures var streamed := StreamedLine(tables, map[], path, true, p, number, line);
      && (streamed.Ok? <==> PlainRead(tables, p.inHunk, line))
      && (streamed.Ok? ==> streamed.value.1 == line + [NL] && streamed.value.0.inHunk == HunkAfter(p.inHunk, line))
  {
    hide Starts, Prefix, Unquote, ReadHeader, MatchHeader, From;
    SamePrefixStarts(line);
    PrefixReads(tables, line);
    HeaderWords(line);
    HeaderMatched(tables, line);
  }

  lemma HeaderMatched(tables: Tables, line: Chars)
    ensures ReadHeader(tables, line).Some? ==> MatchHeader(tables, line).Some? && MatchHeader(tables, line).value.end <= |line|
  {
  }

  predicate AllPlain(tables: Tables, inHunk: bool, lines: seq<Chars>)
    decreases |lines|
  {
    lines != [] ==> PlainRead(tables, inHunk, lines[0]) && AllPlain(tables, HunkAfter(inHunk, lines[0]), lines[1..])
  }

  /** It accepts exactly the diffs without such a line, and shows them as they are. */
  lemma {:induction false} PlainStream(tables: Tables, path: Option<Bytes>, p: Place, number: nat, lines: seq<Chars>)
    ensures Streamed(tables, map[], path, true, p, number, lines) ==
            if AllPlain(tables, p.inHunk, lines) then Ok(Ended(lines)) else Err
    decreases |lines|
  {
    hide StreamedLine, PlainRead, HunkAfter;
    if lines != [] {
      PlainLine(tables, path, p, number, lines[0]);
      var e := StreamedLine(tables, map[], path, true, p, number, lines[0]);
      if e.Ok? {
        PlainStream(tables, path, e.value.0, number + 1, lines[1..]);
      }
    }
  }

  lemma {:induction false} SameLines(tables: Tables, documented: Documented, path: Option<Bytes>, p: Place, number: nat,
                                     lines: seq<Chars>)
    requires IsManifest(documented)
    ensures Streamed(tables, documented, path, false, p, number, lines) == Ok(Ended(MaskedLines(documented, path, number, lines)))
    decreases |lines|
  {
    hide Shown, Entry, Matches;
    if lines != [] {
      EntryMatches(documented, path, number, lines[0]);
      SameLines(tables, documented, path, p, number + 1, lines[1..]);
    }
  }

  /** Nothing is masked in a file without documented lines. */
  lemma {:induction false} UnlistedLines(tables: Tables, documented: Documented, path: Option<Bytes>, p: Place, number: nat,
                                         lines: seq<Chars>)
    requires !HasEntries(documented, path)
    ensures Streamed(tables, documented, path, false, p, number, lines) == Ok(Ended(lines))
    decreases |lines|
  {
    if lines != [] {
      UnlistedLines(tables, documented, path, p, number + 1, lines[1..]);
    }
  }

  lemma {:induction false} EndedJoin(lines: seq<Chars>)
    ensures Ended(lines) == if lines == [] then [] else Join(lines) + [NL]
  {
    if |lines| == 1 {
      assert lines[1..] == [] && Ended(lines[1..]) == [];
      assert lines[0] + [NL] + [] == lines[0] + [NL];
    } else if lines != [] {
      EndedJoin(lines[1..]);
    }
  }

  lemma {:induction false} SameNumber(tables: Tables, documented: Documented, p: Place, lines: seq<Chars>,
                                      path: Option<Bytes>, number: nat)
    ensures MaskedDiff(tables, documented, p, lines).Ok? ==> |MaskedDiff(tables, documented, p, lines).value| == |lines|
    ensures |MaskedLines(documented, path, number, lines)| == |lines|
    decreases |lines|
  {
    hide DiffLine, Matches, Shown;
    if lines != [] {
      var next := if DiffLine(tables, documented, p, lines[0]).Ok? then DiffLine(tables, documented, p, lines[0]).value.0 else p;
      SameNumber(tables, documented, next, lines[1..], path, number + 1);
    }
  }

  /** The whole-text form looks for documented lines at all. */
  predicate Searches(documented: Documented, path: Option<Bytes>, diff: bool) {
    if diff then documented != map[] else HasEntries(documented, path)
  }

  /** The whole-text form's result with a line end; text in which it does not search is returned as it was, here line by line. */
  function Reference(tables: Tables, documented: Documented, path: Option<Bytes>, diff: bool, value: Chars): Result<Chars> {
    if !Searches(documented, path, diff) then Ok(Ended(Texts(SplitLines(value))))
    else
      match Masked(tables, documented, path, diff, value)
      case Err => Err
      case Ok(masked) => Ok(if value == [] then [] else masked + [NL])
  }

  /** The condition on a text: none in a file; in a diff, on each line that is reached. */
  predicate ReadAlike(tables: Tables, documented: Documented, diff: bool, lines: seq<Chars>) {
    diff ==> if documented == map[] then AllPlain(tables, false, lines) else AllSame(tables, documented, START, lines)
  }

  /**
   How a result compares with the whole-text form's: the two never show the text differently,
   and unless both refuse it, they are the same exactly under that condition.
   */
  predicate MasksLike(tables: Tables, documented: Documented, path: Option<Bytes>, diff: bool, value: Chars, r: Result<Chars>) {
    var whole, alike := Reference(tables, documented, path, diff, value), ReadAlike(tables, documented, diff, Texts(SplitLines(value)));
    && (r.Ok? && whole.Ok? ==> r == whole)
    && (alike ==> r == whole)
    && (r.Ok? || whole.Ok? ==> (r == whole <==> alike))
  }

  /** So it is for every manifest and every text. */
  lemma StreamedIsMasked(tables: Tables, documented: Documented, path: Option<Bytes>, diff: bool, value: Chars)
    requires documented == map[] || IsManifest(documented)
    ensures MasksLike(tables, documented, path, diff, value,
                      Streamed(tables, documented, path, diff, START, 1, Texts(SplitLines(value))))
  {
    hide SplitLines, Streamed, MaskedDiff, MaskedLines, Ended, Join, HasEntries, IsManifest, AllSame, AllPlain;
    var lines := Texts(SplitLines(value));
    SomeLines(value);
    SameNumber(tables, documented, START, lines, path, 1);
    if !diff {
      if HasEntries(documented, path) {
        EmptyHasNone(documented, path);
        SameLines(tables, documented, path, START, 1, lines);
        EndedJoin(MaskedLines(documented, path, 1, lines));
      } else {
        UnlistedLines(tables, documented, path, START, 1, lines);
      }
    } else if documented == map[] {
      PlainStream(tables, path, START, 1, lines);
    } else {
      NeverDiffers(tables, documented, path, START, START, 1, lines);
      SameDiff(tables, documented, path, START, START, 1, lines);
      var shown := MaskedDiff(tables, documented, START, lines);
      if shown.Ok? {
        EndedJoin(shown.value);
      }
    }
  }

  lemma EmptyHasNone(documented: Documented, path: Option<Bytes>)
    requires HasEntries(documented, path)
    ensures documented != map[]
  {
  }

  lemma SomeLines(value: Chars)
    ensures Texts(SplitLines(value)) == [] <==> value == []
  {
    if value != [] {
      var n, e := FirstOf(value);
    }
  }

  // ---------------------------------------------------------------- The code

  /** `mask_documented_secret_fixture_diff(diff, documented)`, once there are documented lines. */
  method MaskDiff(tables: Tables, documented: Documented, lines: seq<Chars>) returns (r: Result<seq<Chars>>)
    ensures r == MaskedDiff(tables, documented, START, lines)
  {
    hide DiffLine, Shown;
    var masked: seq<Chars>, place := [], START;
    assert lines[0..] == lines;
    if MaskedDiff(tables, documented, START, lines).Ok? {
      assert masked + MaskedDiff(tables, documented, START, lines).value == MaskedDiff(tables, documented, START, lines).value;
    }
    for k := 0 to |lines|
      invariant MaskedDiff(tables, documented, START, lines) ==
        match MaskedDiff(tables, documented, place, lines[k..]) { case Err => Err case Ok(rest) => Ok(masked + rest) }
    {
      assert lines[k..][1..] == lines[k + 1..];
      var next := DiffLine(tables, documented, place, lines[k]);
      if next.Err? {
        return Err;
      }
      ghost var before, rest := masked, MaskedDiff(tables, documented, next.value.0, lines[k + 1..]);
      place := next.value.0;
      masked := masked + [Shown(lines[k], next.value.1)];
      if rest.Ok? {
        assert masked + rest.value == before + ([Shown(lines[k], next.value.1)] + rest.value);
      }
    }
    assert lines[|lines|..] == [] && masked + [] == masked;
    r := Ok(masked);
  }

  /** `mask_documented_secret_fixture_lines(value, documented, path=path, diff=diff)` */
  method Mask(tables: Tables, documented: Documented, path: Option<Bytes>, diff: bool, value: Chars) returns (r: Result<Chars>)
    ensures r == Masked(tables, documented, path, diff, value)
  {
    hide MaskedDiff, SplitLines, Join;
    if if diff then documented == map[] else !HasEntries(documented, path) {
      return Ok(value);
    }
    var lines := Texts(SplitLines(value));
    if diff {
      var shown := MaskDiff(tables, documented, lines);
      return if shown.Ok? then Ok(Join(shown.value)) else Err;
    }
    var masked: seq<Chars> := [];
    assert lines[0..] == lines && masked + MaskedLines(documented, path, 1, lines) == MaskedLines(documented, path, 1, lines);
    for k := 0 to |lines|
      invariant MaskedLines(documented, path, 1, lines) == masked + MaskedLines(documented, path, k + 1, lines[k..])
    {
      assert lines[k..][1..] == lines[k + 1..];
      var shown := Shown(lines[k], Matches(documented, path, k + 1, lines[k]));
      Regroup(masked, [shown], MaskedLines(documented, path, k + 2, lines[k + 1..]));
      masked := masked + [shown];
    }
    assert lines[|lines|..] == [] && masked + [] == masked;
    r := Ok(Join(masked));
  }

  /** What the loop of the streaming form holds of the line that it is in. */
  datatype Held = Held(file: Chars, prefix: Chars, digest: Chars, first: bool, pending: bool)

  const NOTHING := Held([], [], [], true, false)

  /** One fragment is written, kept up to the limit, and digested. */
  function Hold(h: Held, fragment: Chars, diff: bool): Held {
    var room := if |h.prefix| < CHUNK_BYTES then CHUNK_BYTES - |h.prefix| else 0;
    Held(h.file + fragment, h.prefix + (if |fragment| <= room then fragment else fragment[..room]),
         h.digest + (if h.first && diff then From(fragment, 1) else fragment), h.first && fragment == [], true)
  }

  /** It holds the line so far, in three forms, of which only the file is unbounded. */
  predicate Holds(h: Held, line: Chars, diff: bool) {
    && h.file == line && h.prefix == Prefix(line) && h.digest == Digested(line, diff) && h.first == (line == [])
  }

  lemma HoldMore(h: Held, line: Chars, fragment: Chars, diff: bool)
    requires Holds(h, line, diff)
    ensures Holds(Hold(h, fragment, diff), line + fragment, diff) && |Hold(h, fragment, diff).prefix| <= CHUNK_BYTES
  {
    var next := Hold(h, fragment, diff);
    assert next.prefix == Prefix(line + fragment);
    if diff {
      assert next.digest == From(line + fragment, 1);
    }
  }

  lemma {:induction false} TextsSnoc(lines: seq<Line>, line: Line)
    ensures Texts(lines + [line]) == Texts(lines) + [line.text]
  {
    if lines == [] {
      assert [] + [line] == [line] && [line][1..] == [];
    } else {
      TextsSnoc(lines[1..], line);
      assert (lines + [line])[1..] == lines[1..] + [line];
    }
  }

  /**
   The two further scans of each line: its secrets, for removed lines of undocumented files,
   and the reference lines of a packer file.  Each scan's answer depends on the line alone.
   */
  datatype Scans = Scans(redact: bool, packer: bool, flagged: Chars -> bool, packed: Chars -> bool)

  predicate Overlaid(scans: Scans, documented: Documented, diff: bool, p: Place, line: Chars) {
    || (scans.redact && diff && p.inHunk && Starts(line, "-")
        && !(p.oldPath.Some? && p.oldPath.value in documented) && scans.flagged(line))
    || (scans.packer && scans.packed(line))
  }

  function FilteredLine(scans: Scans, tables: Tables, documented: Documented, path: Option<Bytes>, diff: bool, p: Place,
                        number: nat, line: Chars): Result<(Place, Chars)> {
    match StreamedLine(tables, documented, path, diff, p, number, line)
    case Err => Err
    case Ok(e) => Ok((e.0, if Overlaid(scans, documented, diff, p, line) then Mark() + [NL] else e.1))
  }

  /** The generator's output on a list of lines. */
  function Filtered(scans: Scans, tables: Tables, documented: Documented, path: Option<Bytes>, diff: bool, p: Place,
                    number: nat, lines: seq<Chars>): Result<Chars>
    decreases |lines|
  {
    if lines == [] then Ok([])
    else
      match FilteredLine(scans, tables, documented, path, diff, p, number, lines[0])
      case Err => Err
      case Ok(e) =>
        match Filtered(scans, tables, documented, path, diff, e.0, number + 1, lines[1..])
        case Err => Err
        case Ok(rest) => Ok(e.1 + rest)
  }

  /** The scans refuse nothing, and change nothing when they are off. */
  lemma {:induction false} FilteredOff(scans: Scans, tables: Tables, documented: Documented, path: Option<Bytes>, diff: bool,
                                       p: Place, number: nat, lines: seq<Chars>)
    ensures Filtered(scans, tables, documented, path, diff, p, number, lines).Ok? <==>
            Streamed(tables, documented, path, diff, p, number, lines).Ok?
    ensures !scans.redact && !scans.packer ==>
      Filtered(scans, tables, documented, path, diff, p, number, lines) == Streamed(tables, documented, path, diff, p, number, lines)
    decreases |lines|
  {
    hide StreamedLine;
    if lines != [] {
      var e := StreamedLine(tables, documented, path, diff, p, number, lines[0]);
      if e.Ok? {
        FilteredOff(scans, tables, documented, path, diff, e.value.0, number + 1, lines[1..]);
      }
    }
  }

  /** What the stream has put out after `lines`, and where it is then. */
  function FilteredTo(scans: Scans, tables: Tables, documented: Documented, path: Option<Bytes>, diff: bool, lines: seq<Chars>)
    : Result<(Chars, Place)>
    decreases |lines|
  {
    if lines == [] then Ok(([], START))
    else
      match FilteredTo(scans, tables, documented, path, diff, lines[..|lines| - 1])
      case Err => Err
      case Ok(before) =>
        match FilteredLine(scans, tables, documented, path, diff, before.1, |lines|, lines[|lines| - 1])
        case Err => Err
        case Ok(e) => Ok((before.0 + e.1, e.0))
  }

  /** The fold from the left and the recursion from the front are one. */
  lemma {:induction false} FilteredToIs(scans: Scans, tables: Tables, documented: Documented, path: Option<Bytes>, diff: bool,
                                        lines: seq<Chars>, k: nat)
    requires k <= |lines|
    ensures Filtered(scans, tables, documented, path, diff, START, 1, lines) ==
      match FilteredTo(scans, tables, documented, path, diff, lines[..k]) {
        case Err => Err
        case Ok(before) =>
          match Filtered(scans, tables, documented, path, diff, before.1, k + 1, lines[k..]) {
            case Err => Err
            case Ok(rest) => Ok(before.0 + rest)
          }
      }
  {
    hide FilteredLine;
    if k == 0 {
      assert lines[..0] == [] && lines[0..] == lines;
      var whole := Filtered(scans, tables, documented, path, diff, START, 1, lines);
      if whole.Ok? {
        assert [] + whole.value == whole.value;
      }
    } else {
      FilteredToIs(scans, tables, documented, path, diff, lines, k - 1);
      assert lines[..k][..k - 1] == lines[..k - 1] && lines[k - 1..][1..] == lines[k..];
      var before := FilteredTo(scans, tables, documented, path, diff, lines[..k - 1]);
      if before.Ok? {
        var e := FilteredLine(scans, tables, documented, path, diff, before.value.1, k, lines[k - 1]);
        if e.Ok? {
          var rest := Filtered(scans, tables, documented, path, diff, e.value.0, k + 1, lines[k..]);
          if rest.Ok? {
            assert before.value.0 + (e.value.1 + rest.value) == before.value.0 + e.value.1 + rest.value;
          }
        }
      }
    }
  }

  /** The stream's result is the state after the last line. */
  lemma FilteredAll(scans: Scans, tables: Tables, documented: Documented, path: Option<Bytes>, diff: bool, lines: seq<Chars>)
    ensures Filtered(scans, tables, documented, path, diff, START, 1, lines) ==
      match FilteredTo(scans, tables, documented, path, diff, lines) { case Err => Err case Ok(all) => Ok(all.0) }
  {
    hide FilteredLine;
    FilteredToIs(scans, tables, documented, path, diff, lines, |lines|);
    assert lines[..|lines|] == lines && lines[|lines|..] == [];
    var all := FilteredTo(scans, tables, documented, path, diff, lines);
    if all.Ok? {
      assert all.value.0 + [] == all.value.0;
    }
  }

  /** A failure among the first lines is a failure. */
  lemma {:induction false} FailedEarly(scans: Scans, tables: Tables, documented: Documented, path: Option<Bytes>, diff: bool,
                                       lines: seq<Chars>, k: nat)
    requires k <= |lines| && FilteredTo(scans, tables, documented, path, diff, lines[..k]).Err?
    ensures Filtered(scans, tables, documented, path, diff, START, 1, lines).Err?
  {
    FilteredToIs(scans, tables, documented, path, diff, lines, k);
  }

  lemma {:induction false} TextsJoin(a: seq<Line>, b: seq<Line>)
    ensures Texts(a + b) == Texts(a) + Texts(b)
  {
    if a == [] {
      assert a + b == b;
    } else {
      TextsJoin(a[1..], b);
      assert (a + b)[1..] == a[1..] + b;
      Regroup([a[0].text], Texts(a[1..]), Texts(b));
    }
  }

  /** Completed lines stay. */
  lemma {:induction false} CompleteGrows(out: seq<Fragment>, k: nat)
    requires k <= |out|
    ensures Complete(out[..k]) <= Complete(out)
    decreases |out|
  {
    if k < |out| {
      CompleteGrows(out[..|out| - 1], k);
      assert out[..|out| - 1][..k] == out[..k];
    } else {
      assert out[..k] == out;
    }
  }

  lemma TextsGrow(a: seq<Line>, b: seq<Line>)
    requires a <= b
    ensures Texts(a) <= Texts(b)
  {
    TextsJoin(a, b[|a|..]);
    assert a + b[|a|..] == b;
  }

  /** The fragments, with the sentinel that flushes an unterminated last line. */
  const EOF := [69, 79, 70]

  function Flushed(out: seq<Fragment>): seq<Fragment> {
    out + [Fragment([], Some(EOF))]
  }

  /** The lines that the loop has ended after `k` fragments. */
  function EndedLines(out: seq<Fragment>, k: nat): seq<Chars>
    requires k <= |out| + 1
  {
    Texts(Complete(Flushed(out)[..k]))
  }

  predicate Goes(out: seq<Fragment>) {
    out != [] && out[|out| - 1].ending.None?
  }

  /** Without the sentinel unless a line goes on, they are the lines of the text. */
  lemma AllEnded(out: seq<Fragment>)
    requires Solid(out)
    ensures Texts(Regrouped(out)) == EndedLines(out, if Goes(out) then |out| + 1 else |out|)
  {
    assert Flushed(out)[..|out|] == out && Flushed(out)[..|out| + 1] == Flushed(out);
    SnocFragment(out, Fragment([], Some(EOF)));
    if Goes(out) {
      assert Tail(out) + [] == Tail(out);
      TextsSnoc(Complete(out), Line(Tail(out), EOF));
      TextsSnoc(Complete(out), Line(Tail(out), []));
    } else {
      assert Complete(out) + [] == Complete(out);
    }
  }

  lemma EndedPrefix(out: seq<Fragment>, k: nat)
    requires Solid(out) && k <= (if Goes(out) then |out| + 1 else |out|)
    ensures EndedLines(out, k) <= Texts(Regrouped(out))
  {
    AllEnded(out);
    var all := Flushed(out)[..if Goes(out) then |out| + 1 else |out|];
    CompleteGrows(all, k);
    assert all[..k] == Flushed(out)[..k];
    TextsGrow(Complete(all[..k]), Complete(all));
  }

  /** The next fragment continues the line, or ends it. */
  lemma NextFragment(out: seq<Fragment>, k: nat)
    requires k <= |out|
    ensures var f := Flushed(out)[k]; var so, next := Flushed(out)[..k], Flushed(out)[..k + 1];
            && Goes(next) == f.ending.None?
            && Tail(next) == (if f.ending.None? then Tail(so) + f.text else [])
            && EndedLines(out, k + 1) == (if f.ending.None? then EndedLines(out, k) else EndedLines(out, k) + [Tail(so) + f.text])
  {
    var f, so := Flushed(out)[k], Flushed(out)[..k];
    assert Flushed(out)[..k + 1] == so + [f];
    SnocFragment(so, f);
    if f.ending.Some? {
      TextsSnoc(Complete(so), Line(Tail(so) + f.text, f.ending.value));
    }
  }

  lemma FilteredSnoc(scans: Scans, tables: Tables, documented: Documented, path: Option<Bytes>, diff: bool, lines: seq<Chars>, line: Chars)
    requires FilteredTo(scans, tables, documented, path, diff, lines).Ok?
    ensures FilteredTo(scans, tables, documented, path, diff, lines + [line]) ==
      (var before := FilteredTo(scans, tables, documented, path, diff, lines).value;
       match FilteredLine(scans, tables, documented, path, diff, before.1, |lines| + 1, line)
       case Err => Err
       case Ok(e) => Ok((before.0 + e.1, e.0)))
  {
    hide FilteredLine;
    assert (lines + [line])[..|lines|] == lines;
  }

  /** The end of one line: what is yielded comes from the file, the prefix and the digest alone. */
  method FinishLine(scans: Scans, tables: Tables, documented: Documented, path: Option<Bytes>, diff: bool, place: Place, number: nat,
                    held: Held, ghost line: Chars) returns (r: Result<(Place, Chars)>)
    requires Holds(held, line, diff)
    ensures r == FilteredLine(scans, tables, documented, path, diff, place, number, line)
  {
    var e := EndLine(tables, documented, path, diff, place, number, held.prefix);
    if e.Err? {
      return Err;
    }
    var entry := Entry(documented, e.value.1, e.value.2);
    PrefixStarts(line, "-");
    var oldContent := diff && place.inHunk && Starts(held.prefix, "-");
    var mask := entry.Some? && Sha(held.digest) == entry.value;
    // the scans are fed what the file holds
    if scans.redact && oldContent && !(place.oldPath.Some? && place.oldPath.value in documented) && scans.flagged(held.file) {
      mask := true;
    }
    if scans.packer && scans.packed(held.file) {
      mask := true;
    }
    if mask {
      return Ok((e.value.0, Mark() + [NL]));
    }
    r := Ok((e.value.0, held.file + [NL]));
  }

  /**
   `filtered_scan_chunks(chunks, documented, …)`, its yields joined.  With both scans off it is
   the streaming form of the whole-text masker.
   */
  method FilteredScanChunks(scans: Scans, tables: Tables, documented: Documented, path: Option<Bytes>, diff: bool,
                            chunks: seq<Chars>)
    returns (r: Result<Chars>)
    ensures r == Filtered(scans, tables, documented, path, diff, START, 1, Texts(SplitLines(Concat(chunks))))
    ensures !scans.redact && !scans.packer && (documented == map[] || IsManifest(documented)) ==>
      MasksLike(tables, documented, path, diff, Concat(chunks), r)
  {
    hide Streamed, Filtered, FilteredTo, FilteredLine, MasksLike, IsManifest, SplitLines, Regrouped, EndedLines, Complete, Tail, Hold, Holds;
    var out := SplitTextFragments(chunks);
    ghost var lines := Texts(SplitLines(Concat(chunks)));
    if !scans.redact && !scans.packer && (documented == map[] || IsManifest(documented)) {
      FilteredOff(scans, tables, documented, path, diff, START, 1, lines);
      StreamedIsMasked(tables, documented, path, diff, Concat(chunks));
    }
    AllEnded(out);
    var yielded: Chars, place, number, held := [], START, 0, NOTHING;
    NothingHeld(scans, tables, documented, path, diff, out);
    var k := 0;
    while k <= |out|
      invariant 0 <= k <= |out| + 1 && number >= 0 && (k == |out| + 1 ==> Goes(out))
      invariant number == |EndedLines(out, k)|
      invariant FilteredTo(scans, tables, documented, path, diff, EndedLines(out, k)) == Ok((yielded, place))
      invariant Holds(held, Tail(Flushed(out)[..k]), diff) && held.pending == Goes(Flushed(out)[..k])
    {
      var fragment, ending := Flushed(out)[k].text, Flushed(out)[k].ending;
      assert Flushed(out)[..|out|] == out;
      if ending == Some(EOF) && !held.pending {
        assert k == |out|;
        break;
      }
      NextFragment(out, k);
      ghost var line := Tail(Flushed(out)[..k]) + fragment;
      HoldMore(held, Tail(Flushed(out)[..k]), fragment, diff);
      HoldPends(held, fragment, diff);
      held := Hold(held, fragment, diff);
      if ending.None? {
        k := k + 1;
        continue;
      }
      number := number + 1;
      EndedPrefix(out, k + 1);
      FilteredSnoc(scans, tables, documented, path, diff, EndedLines(out, k), line);
      var e := FinishLine(scans, tables, documented, path, diff, place, number, held, line);
      if e.Err? {
        assert lines[..number] == EndedLines(out, k + 1);
        FailedEarly(scans, tables, documented, path, diff, lines, number);
        return Err;
      }
      place := e.value.0;
      yielded := yielded + e.value.1;
      held := NOTHING;
      HoldNothing(diff);
      k := k + 1;
    }
    FilteredAll(scans, tables, documented, path, diff, lines);
    r := Ok(yielded);
  }

  lemma NothingHeld(scans: Scans, tables: Tables, documented: Documented, path: Option<Bytes>, diff: bool, out: seq<Fragment>)
    ensures EndedLines(out, 0) == [] && FilteredTo(scans, tables, documented, path, diff, []) == Ok(([], START))
    ensures Holds(NOTHING, Tail(Flushed(out)[..0]), diff)
  {
  }

  lemma HoldNothing(diff: bool)
    ensures Holds(NOTHING, [], diff)
  {
  }

  lemma HoldPends(h: Held, fragment: Chars, diff: bool)
    ensures Hold(h, fragment, diff).pending
  {
  }
}
