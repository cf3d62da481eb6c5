/**
 Git's printing of a diff, and the parser's inverse of it: `Inventoried` reads a printed
 list of records back, with the offsets at which they were printed.
 */
module DiffPrinter {
  import opened Common
  import opened Utf8
  import opened PathQuoting
  import opened DiffGrammar

  /** A hunk line without its LF; `bare` when the no-newline mark follows it. */
  datatype BodyLine = BodyLine(tag: Byte, text: Bytes, bare: bool)

  datatype Hunk = Hunk(header: Header, section: Bytes, body: seq<BodyLine>)

  datatype Change = Content(mode: Mode) | ModeChange(before: Mode, after: Mode) | Added(mode: Mode) | Deleted(mode: Mode)

  datatype Record = Record(path: Bytes, change: Change, oldBlob: Bytes, newBlob: Bytes, hunks: seq<Hunk>)

  // ---------------------------------------------------------------- Printing

  /** Git quotes a name with control bytes, quotes or backslashes; bytes above 0x7F on request (core.quotePath). */
  predicate GitQuotes(high: bool, name: Bytes) {
    exists k :: 0 <= k < |name| && (name[k] < 0x20 || name[k] == QUOTE || name[k] == BACKSLASH
                                    || name[k] == 0x7F || (high && name[k] > 0x7F))
  }

  function GitPath(high: bool, prefix: Bytes, name: Bytes): Bytes {
    if GitQuotes(high, name) then Quoted(GitEscape(prefix + name)) else prefix + name
  }

  /** The name of a marker line: a TAB ends a name that holds a space and stands unquoted. */
  function MarkerName(high: bool, prefix: Bytes, absent: bool, name: Bytes): Bytes {
    if absent then DEV_NULL
    else GitPath(high, prefix, name) + (if !GitQuotes(high, name) && SPACE in name then [TAB] else [])
  }

  function Decimal(n: nat): (s: Bytes)
    ensures s != [] && forall k :: 0 <= k < |s| ==> IsDigit(s[k])
  {
    if n < 10 then [48 + n] else Decimal(n / 10) + [48 + n % 10]
  }

  /** A count of one is left out. */
  function CountText(n: nat): Bytes {
    if n == 1 then [] else [44] + Decimal(n)
  }

  function HeaderLine(h: Header, section: Bytes): Bytes {
    AT_MINUS + (Decimal(h.oldStart) + (CountText(h.oldCount)
    + (SPACE_PLUS + (Decimal(h.newStart) + (CountText(h.newCount) + (SPACE_AT + (section + [LF])))))))
  }

  function LineOf(l: BodyLine): seq<Bytes> {
    [[l.tag] + l.text + [LF]] + (if l.bare then [NO_NEWLINE] else [])
  }

  function BodyLines(body: seq<BodyLine>): seq<Bytes> {
    if body == [] then [] else LineOf(body[0]) + BodyLines(body[1..])
  }

  function HunkLines(h: Hunk): seq<Bytes> {
    [HeaderLine(h.header, h.section)] + BodyLines(h.body)
  }

  function AllHunkLines(hunks: seq<Hunk>): seq<Bytes> {
    if hunks == [] then [] else HunkLines(hunks[0]) + AllHunkLines(hunks[1..])
  }

  function ModeBytes(m: Mode): Bytes {
    if m.Plain? then MODE_644 else MODE_755
  }

  function ModeLines(c: Change): seq<Bytes> {
    match c
    case Content(_) => []
    case ModeChange(before, after) => [OLD_MODE + ModeBytes(before) + [LF], NEW_MODE + ModeBytes(after) + [LF]]
    case Added(mode) => [NEW_FILE + ModeBytes(mode) + [LF]]
    case Deleted(mode) => [DELETED_FILE + ModeBytes(mode) + [LF]]
  }

  function GitLine(high: bool, name: Bytes): Bytes {
    DIFF_GIT + GitPath(high, PREFIX_A, name) + [SPACE] + GitPath(high, PREFIX_B, name) + [LF]
  }

  function IndexLine(r: Record): Bytes {
    INDEX + r.oldBlob + DOTS + r.newBlob
    + (if r.change.Content? then [SPACE] + ModeBytes(r.change.mode) else []) + [LF]
  }

  function MarkerLines(high: bool, r: Record): seq<Bytes> {
    if r.hunks == [] then []
    else [MINUS + MarkerName(high, PREFIX_A, r.change.Added?, r.path) + [LF],
          PLUS + MarkerName(high, PREFIX_B, r.change.Deleted?, r.path) + [LF]]
  }

  function HeadLines(high: bool, r: Record): seq<Bytes> {
    [GitLine(high, r.path)] + (ModeLines(r.change) + ([IndexLine(r)] + MarkerLines(high, r)))
  }

  function RecordLines(high: bool, r: Record): seq<Bytes> {
    HeadLines(high, r) + AllHunkLines(r.hunks)
  }

  function DiffLines(high: bool, records: seq<Record>): seq<Bytes> {
    if records == [] then [] else RecordLines(high, records[0]) + DiffLines(high, records[1..])
  }

  function Print(high: bool, records: seq<Record>): Bytes {
    Concat(DiffLines(high, records))
  }

  // ---------------------------------------------------------------- What the parser should say

  function Size(lines: seq<Bytes>): nat {
    |Concat(lines)|
  }

  function Described(hunks: seq<Hunk>, from: nat): seq<HunkInfo> {
    if hunks == [] then []
    else [HunkInfo(from, from + Size(HunkLines(hunks[0])), hunks[0].header)]
         + Described(hunks[1..], from + Size(HunkLines(hunks[0])))
  }

  function OperationOf(c: Change): Operation {
    if c.Added? then Add else if c.Deleted? then Delete else Modify
  }

  function OldModeOf(c: Change): Option<Mode> {
    match c
    case Content(m) => Some(m)
    case ModeChange(before, _) => Some(before)
    case Added(_) => None
    case Deleted(m) => Some(m)
  }

  function NewModeOf(c: Change): Option<Mode> {
    match c
    case Content(m) => Some(m)
    case ModeChange(_, after) => Some(after)
    case Added(m) => Some(m)
    case Deleted(_) => None
  }

  function RecordInfo(high: bool, r: Record, from: nat): FileInfo {
    FileInfo(r.path, OperationOf(r.change), r.oldBlob, r.newBlob, OldModeOf(r.change), NewModeOf(r.change),
             from, from + Size(RecordLines(high, r)), Described(r.hunks, from + Size(HeadLines(high, r))))
  }

  function Summary(high: bool, records: seq<Record>, from: nat): seq<FileInfo> {
    if records == [] then []
    else [RecordInfo(high, records[0], from)]
         + Summary(high, records[1..], from + Size(RecordLines(high, records[0])))
  }

  // ---------------------------------------------------------------- Records that Git prints

  predicate ValidLine(l: BodyLine) {
    IsTag(l.tag) && Text(l.text) && LF !in l.text
  }

  function OldCount(body: seq<BodyLine>): nat {
    if body == [] then 0 else InOld(body[0].tag) + OldCount(body[1..])
  }

  function NewCount(body: seq<BodyLine>): nat {
    if body == [] then 0 else InNew(body[0].tag) + NewCount(body[1..])
  }

  /** Its numbers have few enough digits, as all of Git's have. */
  predicate Convertible(h: Header) {
    && |Decimal(h.oldStart)| <= MAX_DIGITS && |Decimal(h.newStart)| <= MAX_DIGITS
    && |CountText(h.oldCount)| <= MAX_DIGITS + 1 && |CountText(h.newCount)| <= MAX_DIGITS + 1
  }

  predicate ValidHunk(h: Hunk) {
    && Convertible(h.header)
    && Text(h.section) && LF !in h.section && h.body != []
    && (forall k :: 0 <= k < |h.body| ==> ValidLine(h.body[k]))
    && OldCount(h.body) == h.header.oldCount && NewCount(h.body) == h.header.newCount
  }

  /** Hunks lie in order in both files. */
  predicate ValidHunks(hunks: seq<Hunk>, previousOld: int, previousNew: int) {
    hunks == [] || (ValidHunk(hunks[0])
                    && previousOld <= hunks[0].header.oldStart && previousNew <= hunks[0].header.newStart
                    && ValidHunks(hunks[1..], hunks[0].header.oldStart + hunks[0].header.oldCount,
                                  hunks[0].header.newStart + hunks[0].header.newCount))
  }

  /** Forty digits of sixteen. */
  predicate Hexadecimal(s: Bytes) {
    |s| == 40 && forall k :: 0 <= k < 40 ==> ('0' as int <= s[k] <= '9' as int) || ('a' as int <= s[k] <= 'f' as int)
  }

  /** An empty file appears or disappears. */
  predicate Empty(operation: Operation, oldBlob: Bytes, newBlob: Bytes) {
    (operation == Add && newBlob == EMPTY_BLOB) || (operation == Delete && oldBlob == EMPTY_BLOB)
  }

  lemma BlobsAreHexadecimal(s: Bytes)
    ensures Hexadecimal(s) <==> IsBlob(s)
  {
  }

  lemma EmptyIs(operation: Operation, oldBlob: Bytes, newBlob: Bytes)
    ensures Empty(operation, oldBlob, newBlob) <==> EmptyChange(operation, oldBlob, newBlob)
  {
    hide EMPTY_BLOB;
  }

  predicate ValidRecord(high: bool, r: Record) {
    && ValidPath(r.path) && |GitPath(high, PREFIX_A, r.path)| <= MAX_PATH
    && Hexadecimal(r.oldBlob) && Hexadecimal(r.newBlob)
    && (r.oldBlob == ZERO_BLOB <==> r.change.Added?) && (r.newBlob == ZERO_BLOB <==> r.change.Deleted?)
    && (r.change.ModeChange? ==> r.change.before != r.change.after)
    && ValidHunks(r.hunks, -1, -1)
    && (r.hunks == [] ==> Empty(OperationOf(r.change), r.oldBlob, r.newBlob))
  }

  /** Valid records with different paths, none of them in `seen`. */
  predicate ValidRecords(high: bool, records: seq<Record>, seen: set<Bytes>) {
    records == [] || (ValidRecord(high, records[0]) && records[0].path !in seen
                      && ValidRecords(high, records[1..], seen + {records[0].path}))
  }

  // ---------------------------------------------------------------- Numbers

  lemma {:induction false} DecimalValue(n: nat)
    ensures Value(Decimal(n)) == n
  {
    if n >= 10 {
      DecimalValue(n / 10);
      var s := Decimal(n);
      assert s[..|s| - 1] == Decimal(n / 10) && s[|s| - 1] == 48 + n % 10;
    }
  }

  predicate NoDigit(rest: Bytes) {
    rest == [] || !IsDigit(rest[0])
  }

  lemma {:induction false} SpanOf(s: Bytes, rest: Bytes)
    requires (forall k :: 0 <= k < |s| ==> IsDigit(s[k])) && NoDigit(rest)
    ensures DigitSpan(s + rest) == |s|
  {
    if s == [] {
      assert s + rest == rest;
    } else {
      SpanOf(s[1..], rest);
      assert (s + rest)[1..] == s[1..] + rest;
    }
  }

  lemma NumberReads(n: nat, rest: Bytes)
    requires NoDigit(rest)
    ensures Number(Decimal(n) + rest) == if |Decimal(n)| <= MAX_DIGITS then Some((n, rest)) else None
  {
    var s := Decimal(n) + rest;
    SpanOf(Decimal(n), rest);
    DecimalValue(n);
    assert s[..|Decimal(n)|] == Decimal(n) && s[|Decimal(n)|..] == rest;
  }

  lemma CountReads(n: nat, rest: Bytes)
    requires NoDigit(rest) && rest != [] && rest[0] != 44
    ensures Count(CountText(n) + rest) == if |CountText(n)| <= MAX_DIGITS + 1 then Some((n, rest)) else None
    ensures NoDigit(CountText(n) + rest)
  {
    hide Decimal, Number;
    if n == 1 {
      assert CountText(n) + rest == rest;
    } else {
      NumberReads(n, rest);
      assert (CountText(n) + rest)[1..] == Decimal(n) + rest;
    }
  }

  /** The last part of a hunk header. */
  lemma SectionReads(section: Bytes)
    requires LF !in section
    ensures var t := SPACE_AT + (section + [LF]);
            SPACE_AT <= t && IsLine(t[3..]) && NoDigit(t) && t[0] == 32
  {
    var t := SPACE_AT + (section + [LF]);
    assert t[3..] == section + [LF];
    assert (section + [LF])[..|section|] == section;
  }

  lemma HeaderReads(h: Header, section: Bytes)
    requires LF !in section
    ensures ParseHeader(HeaderLine(h, section)) == if Convertible(h) then Some(h) else None
  {
    var e := SPACE_AT + (section + [LF]);
    var d := CountText(h.newCount) + e;
    var c := Decimal(h.newStart) + d;
    var p := SPACE_PLUS + c;
    var b := CountText(h.oldCount) + p;
    var a := Decimal(h.oldStart) + b;
    SectionReads(section);
    CountReads(h.newCount, e);
    NumberReads(h.newStart, d);
    assert p[2..] == c;
    CountReads(h.oldCount, p);
    NumberReads(h.oldStart, b);
    assert HeaderLine(h, section)[4..] == a;
  }

  // ---------------------------------------------------------------- Paths

  lemma {:induction false} EscapeJoins(s: Bytes, t: Bytes)
    ensures GitEscape(s + t) == GitEscape(s) + GitEscape(t)
  {
    hide GitEscapeByte;
    if s == [] {
      assert s + t == t;
    } else {
      EscapeJoins(s[1..], t);
      assert (s + t)[1..] == s[1..] + t;
    }
  }

  lemma PrefixEscapes()
    ensures GitEscape(PREFIX_A) == PREFIX_A && GitEscape(PREFIX_B) == PREFIX_B
  {
    var none: Bytes := [];
    assert PREFIX_A[1..] == [SLASH] && PREFIX_B[1..] == [SLASH] && [SLASH][1..] == none;
    assert GitEscape([SLASH]) == GitEscapeByte(SLASH) + GitEscape(none) == [SLASH];
  }

  /** The two spellings of a name are equally long: the midpoint separates them. */
  lemma SameLength(high: bool, name: Bytes)
    ensures |GitPath(high, PREFIX_A, name)| == |GitPath(high, PREFIX_B, name)| > 0
  {
    EscapeJoins(PREFIX_A, name);
    EscapeJoins(PREFIX_B, name);
    PrefixEscapes();
  }

  lemma GitPathReads(high: bool, prefix: Bytes, name: Bytes)
    requires prefix == PREFIX_A || prefix == PREFIX_B
    requires ValidPath(name) && |GitPath(high, prefix, name)| <= MAX_PATH
    ensures PathValue(GitPath(high, prefix, name), prefix) == Ok(name)
  {
    assert (prefix + name)[|prefix|..] == name;
    GitEscapeInverts(prefix + name);
    if GitQuotes(high, name) {
      PathValueQuoted(GitEscape(prefix + name), prefix + name, prefix);
    }
  }

  lemma PathLineReads(high: bool, name: Bytes)
    requires ValidPath(name) && |GitPath(high, PREFIX_A, name)| <= MAX_PATH
    ensures ParsePath(GitLine(high, name)) == Ok(name)
  {
    hide PathValue, ValidPath;
    var a, b := GitPath(high, PREFIX_A, name), GitPath(high, PREFIX_B, name);
    SameLength(high, name);
    var header := Inner(GitLine(high, name), 11);
    assert header == a + [SPACE] + b;
    assert header[..|a|] == a && header[|a| + 1..] == b && |header| / 2 == |a|;
    GitPathReads(high, PREFIX_A, name);
    GitPathReads(high, PREFIX_B, name);
  }

  lemma MarkerReads(high: bool, prefix: Bytes, absent: bool, name: Bytes)
    requires prefix == PREFIX_A || prefix == PREFIX_B
    requires ValidPath(name) && |GitPath(high, PREFIX_A, name)| <= MAX_PATH
    ensures MarkerFits(MarkerName(high, prefix, absent, name), prefix, absent, name)
  {
    if !absent {
      var p := GitPath(high, prefix, name);
      SameLength(high, name);
      GitPathReads(high, prefix, name);
      if GitQuotes(high, name) {
        assert p[|p| - 1] == QUOTE;
        assert p + [] == p;
      } else if SPACE in name {
        assert (p + [TAB])[..|p|] == p;
      } else {
        assert p[|p| - 1] == name[|name| - 1] >= 0x20;
        assert p + [] == p;
      }
    }
  }

  // ---------------------------------------------------------------- Reading printed lines

  /** `part` stands at line `i`. */
  predicate At(lines: seq<Bytes>, i: nat, part: seq<Bytes>) {
    i + |part| <= |lines| && lines[i..i + |part|] == part
  }

  lemma AtEnd(lines: seq<Bytes>, i: nat, part: seq<Bytes>)
    requires At(lines, i, part)
    ensures i + |part| <= |lines|
  {
  }

  lemma AtSplit(lines: seq<Bytes>, i: nat, a: seq<Bytes>, b: seq<Bytes>)
    requires At(lines, i, a + b)
    ensures At(lines, i, a) && At(lines, i + |a|, b)
  {
    assert lines[i..i + |a|] == (a + b)[..|a|] == a;
    assert lines[i + |a|..i + |a| + |b|] == (a + b)[|a|..] == b;
  }

  lemma AtHead(lines: seq<Bytes>, i: nat, a: Bytes, b: seq<Bytes>)
    requires At(lines, i, [a] + b)
    ensures i < |lines| && lines[i] == a && At(lines, i + 1, b)
  {
    AtSplit(lines, i, [a], b);
    assert lines[i..i + 1][0] == a;
  }

  lemma {:induction false} SizeJoins(a: seq<Bytes>, b: seq<Bytes>)
    ensures Concat(a + b) == Concat(a) + Concat(b) && Size(a + b) == Size(a) + Size(b)
  {
    if a == [] {
      assert a + b == b;
    } else {
      SizeJoins(a[1..], b);
      assert (a + b)[1..] == a[1..] + b;
      Regroup(a[0], Concat(a[1..]), Concat(b));
    }
  }

  lemma OffsetAfter(lines: seq<Bytes>, i: nat, part: seq<Bytes>)
    requires At(lines, i, part)
    ensures Offset(lines, i + |part|) == Offset(lines, i) + Size(part)
  {
    OffsetIsLength(lines, i);
    OffsetIsLength(lines, i + |part|);
    SizeJoins(lines[..i], part);
    assert lines[..i + |part|] == lines[..i] + part;
  }

  predicate NoMark(lines: seq<Bytes>, i: nat) {
    i < |lines| ==> lines[i] != NO_NEWLINE
  }

  /** What stands after a whole hunk: another one, or another record, or nothing. */
  predicate AfterHunk(lines: seq<Bytes>, i: nat) {
    i < |lines| ==> AT_AT <= lines[i] || DIFF_GIT <= lines[i]
  }

  lemma AfterIsNoMark(lines: seq<Bytes>, i: nat)
    requires AfterHunk(lines, i)
    ensures NoMark(lines, i)
  {
    if i < |lines| {
      assert NO_NEWLINE[0] == 92 && AT_AT[0] == 64 && DIFF_GIT[0] == 100;
    }
  }

  lemma LineReads(lines: seq<Bytes>, i: nat, l: BodyLine)
    requires At(lines, i, LineOf(l)) && IsTag(l.tag) && NoMark(lines, i + |LineOf(l)|)
    ensures Tag(lines[i]) == l.tag && PastLine(lines, i) == i + |LineOf(l)| && NoMark(lines, i)
  {
    AtHead(lines, i, [l.tag] + l.text + [LF], if l.bare then [NO_NEWLINE] else []);
    assert NO_NEWLINE[0] == 92;
    if l.bare {
      AtHead(lines, i + 1, NO_NEWLINE, []);
    }
  }

  lemma AtSome(lines: seq<Bytes>, i: nat, l: BodyLine)
    requires At(lines, i, LineOf(l))
    ensures i < i + |LineOf(l)| <= |lines|
  {
  }

  lemma {:induction false} BodyReads(lines: seq<Bytes>, i: nat, body: seq<BodyLine>)
    requires At(lines, i, BodyLines(body)) && NoMark(lines, i + |BodyLines(body)|)
    requires forall k :: 0 <= k < |body| ==> IsTag(body[k].tag)
    ensures ParseBody(lines, i, OldCount(body), NewCount(body)) == Ok(i + |BodyLines(body)|)
    ensures NoMark(lines, i)
    decreases |body|
  {
    hide At, LineOf, PastLine;
    if body == [] {
      AtEnd(lines, i, BodyLines(body));
    } else {
      AtSplit(lines, i, LineOf(body[0]), BodyLines(body[1..]));
      AtSome(lines, i, body[0]);
      BodyReads(lines, i + |LineOf(body[0])|, body[1..]);
      LineReads(lines, i, body[0]);
    }
  }

  lemma HeaderStarts(h: Header, section: Bytes)
    ensures AT_AT <= HeaderLine(h, section)
  {
    hide Decimal, CountText;
    assert AT_AT <= AT_MINUS <= HeaderLine(h, section);
  }

  lemma HunkReads(lines: seq<Bytes>, i: nat, h: Hunk)
    requires At(lines, i, HunkLines(h)) && AfterHunk(lines, i + |HunkLines(h)|) && ValidHunk(h)
    ensures i < |lines| && AT_AT <= lines[i] && ParseHeader(lines[i]) == Some(h.header)
    ensures h.header.oldCount + h.header.newCount > 0
    ensures ParseBody(lines, i + 1, h.header.oldCount, h.header.newCount) == Ok(i + |HunkLines(h)|)
    ensures AfterHunk(lines, i)
  {
    hide ParseHeader, ParseBody, HeaderLine, BodyLines, At, Text, AT_AT, DIFF_GIT, NO_NEWLINE, Convertible;
    AtHead(lines, i, HeaderLine(h.header, h.section), BodyLines(h.body));
    HeaderReads(h.header, h.section);
    HeaderStarts(h.header, h.section);
    AfterIsNoMark(lines, i + |HunkLines(h)|);
    assert IsTag(h.body[0].tag);
    BodyReads(lines, i + 1, h.body);
  }

  lemma HunksNone(lines: seq<Bytes>, i: nat, previousOld: int, previousNew: int)
    requires i <= |lines| && (i < |lines| ==> DIFF_GIT <= lines[i])
    ensures ParseHunks(lines, i, previousOld, previousNew) == Ok(([], i)) && AfterHunk(lines, i)
  {
    assert AT_AT[0] == 64 && DIFF_GIT[0] == 100;
  }

  lemma HunksOneMore(lines: seq<Bytes>, i: nat, previousOld: int, previousNew: int, h: Header, j: nat,
                     rest: (seq<HunkInfo>, nat))
    requires i < |lines| && AT_AT <= lines[i] && ParseHeader(lines[i]) == Some(h)
    requires previousOld <= h.oldStart && previousNew <= h.newStart && h.oldCount + h.newCount > 0
    requires ParseBody(lines, i + 1, h.oldCount, h.newCount) == Ok(j) && i < j <= |lines|
    requires ParseHunks(lines, j, h.oldStart + h.oldCount, h.newStart + h.newCount) == Ok(rest)
    ensures ParseHunks(lines, i, previousOld, previousNew)
         == Ok(([HunkInfo(Offset(lines, i), Offset(lines, j), h)] + rest.0, rest.1))
  {
    hide ParseHeader, ParseBody, AT_AT, Offset;
  }

  lemma {:induction false} HunksRead(lines: seq<Bytes>, i: nat, hunks: seq<Hunk>, previousOld: int, previousNew: int)
    requires At(lines, i, AllHunkLines(hunks)) && ValidHunks(hunks, previousOld, previousNew)
    requires var e := i + |AllHunkLines(hunks)|; e < |lines| ==> DIFF_GIT <= lines[e]
    ensures ParseHunks(lines, i, previousOld, previousNew)
         == Ok((Described(hunks, Offset(lines, i)), i + |AllHunkLines(hunks)|))
    ensures AfterHunk(lines, i)
    decreases |hunks|
  {
    hide ParseHeader, ParseHunks, ParseBody, ValidHunk, HunkLines, PastLine, AfterHunk, At, Offset, AT_AT, DIFF_GIT;
    AtEnd(lines, i, AllHunkLines(hunks));
    if hunks == [] {
      HunksNone(lines, i, previousOld, previousNew);
    } else {
      var h := hunks[0];
      var j := i + |HunkLines(h)|;
      AtSplit(lines, i, HunkLines(h), AllHunkLines(hunks[1..]));
      HunksRead(lines, j, hunks[1..], h.header.oldStart + h.header.oldCount, h.header.newStart + h.header.newCount);
      HunkReads(lines, i, h);
      OffsetAfter(lines, i, HunkLines(h));
      HunksOneMore(lines, i, previousOld, previousNew, h.header, j,
                   (Described(hunks[1..], Offset(lines, j)), j + |AllHunkLines(hunks[1..])|));
    }
  }

  // ---------------------------------------------------------------- Modes and blobs

  lemma ModeReads(lines: seq<Bytes>, i: nat, marker: Bytes, mode: Mode)
    requires i < |lines| && lines[i] == marker + ModeBytes(mode) + [LF]
    ensures ParseMode(lines, i, marker) == Ok((Some(mode), i + 1))
  {
    assert marker <= lines[i];
    assert Inner(lines[i], |marker|) == ModeBytes(mode);
    assert MODE_644[2] == 48 && MODE_755[3] == 55 && MODE_644[3] == 54;
  }

  /** A line that differs from the marker in byte `k`. */
  lemma ModeSkips(lines: seq<Bytes>, i: nat, marker: Bytes, k: nat)
    requires i < |lines| && k < |marker| && k < |lines[i]| && lines[i][k] != marker[k]
    ensures ParseMode(lines, i, marker) == Ok((None, i))
  {
  }

  lemma OtherMode(lines: seq<Bytes>, i: nat, own: Bytes, mode: Mode, marker: Bytes, k: nat)
    requires i < |lines| && lines[i] == own + ModeBytes(mode) + [LF]
    requires k < |own| && k < |marker| && own[k] != marker[k]
    ensures ParseMode(lines, i, marker) == Ok((None, i))
  {
    assert lines[i][k] == own[k];
    ModeSkips(lines, i, marker, k);
  }

  lemma IndexSkips(lines: seq<Bytes>, i: nat)
    requires i < |lines| && INDEX <= lines[i]
    ensures ParseMode(lines, i, OLD_MODE) == Ok((None, i)) && ParseMode(lines, i, NEW_MODE) == Ok((None, i))
    ensures ParseMode(lines, i, NEW_FILE) == Ok((None, i)) && ParseMode(lines, i, DELETED_FILE) == Ok((None, i))
  {
    assert lines[i][0] == INDEX[0] == 105;
    ModeSkips(lines, i, OLD_MODE, 0);
    ModeSkips(lines, i, NEW_MODE, 0);
    ModeSkips(lines, i, NEW_FILE, 0);
    ModeSkips(lines, i, DELETED_FILE, 0);
  }

  function ModesOf(c: Change): Modes {
    Modes(if c.Content? then None else OldModeOf(c), if c.Content? then None else NewModeOf(c), OperationOf(c))
  }

  lemma ModesRead(lines: seq<Bytes>, i: nat, c: Change)
    requires At(lines, i, ModeLines(c)) && i + |ModeLines(c)| < |lines| && INDEX <= lines[i + |ModeLines(c)|]
    requires c.ModeChange? ==> c.before != c.after
    ensures ParseModes(lines, i) == Ok((ModesOf(c), i + |ModeLines(c)|))
  {
    hide ParseMode, ModeBytes;
    IndexSkips(lines, i + |ModeLines(c)|);
    match c
    case Content(_) =>
    case ModeChange(before, after) =>
      AtHead(lines, i, OLD_MODE + ModeBytes(before) + [LF], [NEW_MODE + ModeBytes(after) + [LF]]);
      AtHead(lines, i + 1, NEW_MODE + ModeBytes(after) + [LF], []);
      ModeReads(lines, i, OLD_MODE, before);
      ModeReads(lines, i + 1, NEW_MODE, after);
    case Added(mode) =>
      AtHead(lines, i, NEW_FILE + ModeBytes(mode) + [LF], []);
      OtherMode(lines, i, NEW_FILE, mode, OLD_MODE, 0);
      OtherMode(lines, i, NEW_FILE, mode, NEW_MODE, 4);
      ModeReads(lines, i, NEW_FILE, mode);
    case Deleted(mode) =>
      AtHead(lines, i, DELETED_FILE + ModeBytes(mode) + [LF], []);
      OtherMode(lines, i, DELETED_FILE, mode, OLD_MODE, 0);
      OtherMode(lines, i, DELETED_FILE, mode, NEW_MODE, 0);
      OtherMode(lines, i, DELETED_FILE, mode, NEW_FILE, 0);
      ModeReads(lines, i, DELETED_FILE, mode);
  }

  lemma IndexReads(r: Record)
    requires IsBlob(r.oldBlob) && IsBlob(r.newBlob)
    ensures INDEX <= IndexLine(r)
    ensures ParseIndex(IndexLine(r)) ==
      Some((r.oldBlob, r.newBlob, if r.change.Content? then Some(r.change.mode) else None))
  {
    var line := IndexLine(r);
    var tail := if r.change.Content? then [SPACE] + ModeBytes(r.change.mode) else [];
    assert line == (INDEX + r.oldBlob + DOTS + r.newBlob) + tail + [LF];
    assert line[6..46] == r.oldBlob && line[46..48] == DOTS && line[48..88] == r.newBlob;
    if r.change.Content? {
      assert line[89..95] == ModeBytes(r.change.mode) && line[88] == SPACE;
      assert MODE_644[3] == 54 && MODE_755[3] == 55;
    }
  }

  lemma BlobsRead(lines: seq<Bytes>, i: nat, r: Record)
    requires i < |lines| && lines[i] == IndexLine(r) && IsBlob(r.oldBlob) && IsBlob(r.newBlob)
    requires (r.oldBlob == ZERO_BLOB <==> r.change.Added?) && (r.newBlob == ZERO_BLOB <==> r.change.Deleted?)
    ensures ParseBlobs(lines, i, ModesOf(r.change))
         == Ok((r.oldBlob, r.newBlob, Modes(OldModeOf(r.change), NewModeOf(r.change), OperationOf(r.change))))
  {
    hide ParseIndex, IndexLine, IsBlob;
    IndexReads(r);
  }

  // ---------------------------------------------------------------- Records

  lemma ChangeReads(lines: seq<Bytes>, i: nat, high: bool, r: Record)
    requires At(lines, i, MarkerLines(high, r) + AllHunkLines(r.hunks)) && ValidRecord(high, r)
    requires var e := i + |MarkerLines(high, r)| + |AllHunkLines(r.hunks)|; e < |lines| ==> DIFF_GIT <= lines[e]
    ensures ParseChange(lines, i, r.path, OperationOf(r.change), r.oldBlob, r.newBlob)
         == Ok((Described(r.hunks, Offset(lines, i + |MarkerLines(high, r)|)),
                i + |MarkerLines(high, r)| + |AllHunkLines(r.hunks)|))
  {
    hide ValidPath, GitPath, IsBlob, ValidHunks, EmptyChange, ZERO_BLOB, DIFF_GIT, Offset, At, ParseChange, Described;
    hide MarkerLines, AllHunkLines, Empty, Hexadecimal;
    EmptyIs(OperationOf(r.change), r.oldBlob, r.newBlob);
    AtSplit(lines, i, MarkerLines(high, r), AllHunkLines(r.hunks));
    if r.hunks == [] {
      ChangeBare(lines, i, high, r);
    } else {
      ChangeMarked(lines, i, high, r);
    }
  }

  lemma ChangeBare(lines: seq<Bytes>, i: nat, high: bool, r: Record)
    requires r.hunks == [] && At(lines, i, MarkerLines(high, r))
    requires var e := i + |MarkerLines(high, r)| + |AllHunkLines(r.hunks)|; e < |lines| ==> DIFF_GIT <= lines[e]
    requires EmptyChange(OperationOf(r.change), r.oldBlob, r.newBlob)
    ensures |MarkerLines(high, r)| == |AllHunkLines(r.hunks)| == 0 && i <= |lines|
    ensures ParseChange(lines, i, r.path, OperationOf(r.change), r.oldBlob, r.newBlob)
         == Ok((Described(r.hunks, Offset(lines, i)), i))
  {
    hide ParseMarkers, ParseHunks, EmptyChange, Offset;
    assert MINUS[0] == 45 && DIFF_GIT[0] == 100;
  }

  lemma ChangeMarked(lines: seq<Bytes>, i: nat, high: bool, r: Record)
    requires r.hunks != [] && At(lines, i, MarkerLines(high, r)) && At(lines, i + |MarkerLines(high, r)|, AllHunkLines(r.hunks))
    requires ValidPath(r.path) && |GitPath(high, PREFIX_A, r.path)| <= MAX_PATH && ValidHunks(r.hunks, -1, -1)
    requires var e := i + |MarkerLines(high, r)| + |AllHunkLines(r.hunks)|; e < |lines| ==> DIFF_GIT <= lines[e]
    ensures |MarkerLines(high, r)| == 2 && i + 2 + |AllHunkLines(r.hunks)| <= |lines|
    ensures ParseChange(lines, i, r.path, OperationOf(r.change), r.oldBlob, r.newBlob)
         == Ok((Described(r.hunks, Offset(lines, i + 2)), i + 2 + |AllHunkLines(r.hunks)|))
  {
    hide *;
    TwoMarkers(high, r);
    AtEnd(lines, i + 2, AllHunkLines(r.hunks));
    MarkersRead(lines, i, high, r);
    HunksRead(lines, i + 2, r.hunks, -1, -1);
    DescribedSome(r.hunks, Offset(lines, i + 2));
    MarkedChange(lines, i, r.path, OperationOf(r.change), r.oldBlob, r.newBlob,
                 (Described(r.hunks, Offset(lines, i + 2)), i + 2 + |AllHunkLines(r.hunks)|));
  }

  lemma TwoMarkers(high: bool, r: Record)
    requires r.hunks != []
    ensures |MarkerLines(high, r)| == 2
  {
  }

  lemma DescribedSome(hunks: seq<Hunk>, from: nat)
    requires hunks != []
    ensures Described(hunks, from) != []
  {
  }

  /** Marker lines, then hunks. */
  lemma MarkedChange(lines: seq<Bytes>, i: nat, path: Bytes, operation: Operation, oldBlob: Bytes, newBlob: Bytes,
                     h: (seq<HunkInfo>, nat))
    requires i + 2 <= |lines| && MINUS <= lines[i] && ParseMarkers(lines, i, path, operation) == Ok(i + 2)
    requires ParseHunks(lines, i + 2, -1, -1) == Ok(h) && h.0 != []
    ensures ParseChange(lines, i, path, operation, oldBlob, newBlob) == Ok(h)
  {
    hide ParseMarkers, ParseHunks, MINUS;
  }

  lemma MarkersRead(lines: seq<Bytes>, i: nat, high: bool, r: Record)
    requires r.hunks != [] && At(lines, i, MarkerLines(high, r))
    requires ValidPath(r.path) && |GitPath(high, PREFIX_A, r.path)| <= MAX_PATH
    ensures i < |lines| && MINUS <= lines[i]
    ensures ParseMarkers(lines, i, r.path, OperationOf(r.change)) == Ok(i + 2)
  {
    hide PathValue, ValidPath, MarkerName, MarkerFits, GitPath;
    var a := MarkerName(high, PREFIX_A, r.change.Added?, r.path);
    var b := MarkerName(high, PREFIX_B, r.change.Deleted?, r.path);
    AtHead(lines, i, MINUS + a + [LF], [PLUS + b + [LF]]);
    AtHead(lines, i + 1, PLUS + b + [LF], []);
    assert Inner(lines[i], 4) == a && Inner(lines[i + 1], 4) == b;
    MarkerReads(high, PREFIX_A, r.change.Added?, r.path);
    MarkerReads(high, PREFIX_B, r.change.Deleted?, r.path);
  }

  /** Where the parts of a record stand. */
  lemma RecordParts(lines: seq<Bytes>, i: nat, high: bool, r: Record)
    requires At(lines, i, RecordLines(high, r))
    ensures i < |lines| && lines[i] == GitLine(high, r.path)
    ensures At(lines, i + 1, ModeLines(r.change))
    ensures i + 1 + |ModeLines(r.change)| < |lines| && lines[i + 1 + |ModeLines(r.change)|] == IndexLine(r)
    ensures At(lines, i + 2 + |ModeLines(r.change)|, MarkerLines(high, r) + AllHunkLines(r.hunks))
    ensures |HeadLines(high, r)| == 2 + |ModeLines(r.change)| + |MarkerLines(high, r)|
    ensures i + |RecordLines(high, r)| == i + |HeadLines(high, r)| + |AllHunkLines(r.hunks)| <= |lines|
  {
    hide GitLine, IndexLine, ModeLines, MarkerLines, AllHunkLines;
    var m, k, h := ModeLines(r.change), MarkerLines(high, r), AllHunkLines(r.hunks);
    assert RecordLines(high, r) == [GitLine(high, r.path)] + (m + ([IndexLine(r)] + (k + h)));
    AtHead(lines, i, GitLine(high, r.path), m + ([IndexLine(r)] + (k + h)));
    AtSplit(lines, i + 1, m, [IndexLine(r)] + (k + h));
    AtHead(lines, i + 1 + |m|, IndexLine(r), k + h);
  }

  lemma RecordOffsets(lines: seq<Bytes>, i: nat, high: bool, r: Record)
    requires At(lines, i, RecordLines(high, r))
    ensures i + |HeadLines(high, r)| <= i + |RecordLines(high, r)| <= |lines|
    ensures FileInfo(r.path, OperationOf(r.change), r.oldBlob, r.newBlob, OldModeOf(r.change), NewModeOf(r.change),
                     Offset(lines, i), Offset(lines, i + |RecordLines(high, r)|),
                     Described(r.hunks, Offset(lines, i + |HeadLines(high, r)|)))
         == RecordInfo(high, r, Offset(lines, i))
  {
    hide *;
    RecordSpan(lines, i, high, r);
    RecordInfoIs(high, r, Offset(lines, i));
  }

  lemma RecordSpan(lines: seq<Bytes>, i: nat, high: bool, r: Record)
    requires At(lines, i, RecordLines(high, r))
    ensures i + |HeadLines(high, r)| <= i + |RecordLines(high, r)| <= |lines|
    ensures Offset(lines, i + |HeadLines(high, r)|) == Offset(lines, i) + Size(HeadLines(high, r))
    ensures Offset(lines, i + |RecordLines(high, r)|) == Offset(lines, i) + Size(RecordLines(high, r))
  {
    hide HeadLines, AllHunkLines, Offset, Size;
    AtSplit(lines, i, HeadLines(high, r), AllHunkLines(r.hunks));
    OffsetAfter(lines, i, HeadLines(high, r));
    OffsetAfter(lines, i, RecordLines(high, r));
  }

  lemma RecordInfoIs(high: bool, r: Record, from: nat)
    ensures RecordInfo(high, r, from) ==
      FileInfo(r.path, OperationOf(r.change), r.oldBlob, r.newBlob, OldModeOf(r.change), NewModeOf(r.change),
               from, from + Size(RecordLines(high, r)), Described(r.hunks, from + Size(HeadLines(high, r))))
  {
    hide Size, RecordLines, HeadLines, Described;
  }

  /** A record is its parts. */
  lemma PartsParse(lines: seq<Bytes>, i: nat, path: Bytes, modes: (Modes, nat), x: (Bytes, Bytes, Modes),
                   h: (seq<HunkInfo>, nat))
    requires i < |lines| && i + 1 <= modes.1 < |lines| && modes.1 + 1 <= h.1 <= |lines|
    requires ParsePath(lines[i]) == Ok(path) && ParseModes(lines, i + 1) == Ok(modes)
    requires ParseBlobs(lines, modes.1, modes.0) == Ok(x)
    requires ParseChange(lines, modes.1 + 1, path, x.2.operation, x.0, x.1) == Ok(h)
    requires h.1 < |lines| ==> DIFF_GIT <= lines[h.1]
    ensures ParseFile(lines, i) == Ok((FileInfo(path, x.2.operation, x.0, x.1, x.2.oldMode, x.2.newMode,
                                                Offset(lines, i), Offset(lines, h.1), h.0), h.1))
  {
    hide ParsePath, ParseModes, ParseBlobs, ParseChange;
  }

  lemma RecordPieces(lines: seq<Bytes>, i: nat, high: bool, r: Record, j: nat, k: nat)
    requires At(lines, i, RecordLines(high, r)) && ValidRecord(high, r)
    requires j == i + 1 + |ModeLines(r.change)| && k == i + |RecordLines(high, r)| && (k < |lines| ==> DIFF_GIT <= lines[k])
    ensures i < j < |lines| && j + 1 <= k <= |lines| && DIFF_GIT <= lines[i]
    ensures ParsePath(lines[i]) == Ok(r.path) && ParseModes(lines, i + 1) == Ok((ModesOf(r.change), j))
    ensures ParseBlobs(lines, j, ModesOf(r.change))
         == Ok((r.oldBlob, r.newBlob, Modes(OldModeOf(r.change), NewModeOf(r.change), OperationOf(r.change))))
    ensures ParseChange(lines, j + 1, r.path, OperationOf(r.change), r.oldBlob, r.newBlob)
         == Ok((Described(r.hunks, Offset(lines, i + |HeadLines(high, r)|)), k))
  {
    hide ParsePath, ParseModes, ParseBlobs, ParseChange, ValidPath, GitPath, IndexLine, ModeLines;
    hide MarkerLines, AllHunkLines, IsBlob, ValidHunks, EmptyChange, ModesOf, OldModeOf, NewModeOf, OperationOf;
    hide At, HeadLines, ZERO_BLOB, INDEX, MAX_PATH, PREFIX_A, Offset, Described, Hexadecimal, Empty;
    BlobsAreHexadecimal(r.oldBlob);
    BlobsAreHexadecimal(r.newBlob);
    RecordParts(lines, i, high, r);
    PathLineReads(high, r.path);
    IndexReads(r);
    ModesRead(lines, i + 1, r.change);
    BlobsRead(lines, j, r);
    ChangeReads(lines, j + 1, high, r);
    assert DIFF_GIT <= GitLine(high, r.path);
  }

  lemma RecordReads(lines: seq<Bytes>, i: nat, high: bool, r: Record)
    requires At(lines, i, RecordLines(high, r)) && ValidRecord(high, r)
    requires var e := i + |RecordLines(high, r)|; e < |lines| ==> DIFF_GIT <= lines[e]
    ensures i < |lines| && DIFF_GIT <= lines[i]
    ensures ParseFile(lines, i) == Ok((RecordInfo(high, r, Offset(lines, i)), i + |RecordLines(high, r)|))
  {
    hide *;
    var j, k := i + 1 + |ModeLines(r.change)|, i + |RecordLines(high, r)|;
    RecordPieces(lines, i, high, r, j, k);
    RecordOffsets(lines, i, high, r);
    PartsParse(lines, i, r.path, (ModesOf(r.change), j),
               (r.oldBlob, r.newBlob, Modes(OldModeOf(r.change), NewModeOf(r.change), OperationOf(r.change))),
               (Described(r.hunks, Offset(lines, i + |HeadLines(high, r)|)), k));
  }

  lemma RecordsOneMore(lines: seq<Bytes>, i: nat, seen: set<Bytes>, f: (FileInfo, nat), rest: seq<FileInfo>)
    requires i < |lines| && ParseFile(lines, i) == Ok(f) && f.0.path !in seen && i < f.1 <= |lines|
    requires ParseFiles(lines, f.1, seen + {f.0.path}) == Ok(rest)
    ensures ParseFiles(lines, i, seen) == Ok([f.0] + rest)
  {
    hide ParseFile;
  }

  lemma {:induction false} RecordsRead(lines: seq<Bytes>, i: nat, high: bool, records: seq<Record>, seen: set<Bytes>)
    requires At(lines, i, DiffLines(high, records)) && ValidRecords(high, records, seen)
    requires i + |DiffLines(high, records)| == |lines|
    ensures ParseFiles(lines, i, seen) == Ok(Summary(high, records, Offset(lines, i)))
    ensures i < |lines| ==> DIFF_GIT <= lines[i]
    decreases |records|
  {
    hide ParseFile, ParseFiles, ValidRecord, DIFF_GIT, RecordLines, At, Offset, Size, RecordInfo;
    AtEnd(lines, i, DiffLines(high, records));
    if records == [] {
      NoRecords(lines, i, seen);
    } else {
      var r := records[0];
      var j := i + |RecordLines(high, r)|;
      AtSplit(lines, i, RecordLines(high, r), DiffLines(high, records[1..]));
      RecordsRead(lines, j, high, records[1..], seen + {r.path});
      RecordReads(lines, i, high, r);
      OffsetAfter(lines, i, RecordLines(high, r));
      RecordPath(high, r, Offset(lines, i));
      RecordsOneMore(lines, i, seen, (RecordInfo(high, r, Offset(lines, i)), j), Summary(high, records[1..], Offset(lines, j)));
    }
  }

  lemma RecordPath(high: bool, r: Record, from: nat)
    ensures RecordInfo(high, r, from).path == r.path && |RecordLines(high, r)| > 0
  {
    hide Size, Described, GitLine;
  }

  lemma NoRecords(lines: seq<Bytes>, i: nat, seen: set<Bytes>)
    requires i == |lines|
    ensures ParseFiles(lines, i, seen) == Ok([])
  {
  }

  // ---------------------------------------------------------------- The printed diff is text made of lines

  /** Text that can stand inside a line. */
  predicate Inline(s: Bytes) {
    Text(s) && LF !in s
  }

  predicate GoodLine(s: Bytes) {
    Text(s) && IsLine(s)
  }

  predicate GoodLines(lines: seq<Bytes>) {
    forall k :: 0 <= k < |lines| ==> GoodLine(lines[k])
  }

  lemma InlineJoin(s: Bytes, t: Bytes)
    requires Inline(s) && Inline(t)
    ensures Inline(s + t)
  {
    ValidJoin(s, t);
  }

  lemma LineJoin(s: Bytes, t: Bytes)
    requires Inline(s) && GoodLine(t)
    ensures GoodLine(s + t)
  {
    ValidJoin(s, t);
    assert (s + t)[..|s + t| - 1] == s + t[..|t| - 1];
  }

  lemma LineEnd(s: Bytes)
    requires Inline(s)
    ensures GoodLine(s + [LF])
  {
    ValidAscii([LF]);
    LineJoin(s, [LF]);
  }

  lemma InlineAscii(s: Bytes)
    requires forall k :: 0 <= k < |s| ==> 0 < s[k] < 0x80 && s[k] != LF
    ensures Inline(s)
  {
    ValidAscii(s);
  }

  lemma {:induction false} EscapeAscii(s: Bytes)
    ensures forall k :: 0 <= k < |GitEscape(s)| ==> 0x20 <= GitEscape(s)[k] < 0x7F
  {
    if s != [] {
      EscapeAscii(s[1..]);
    }
  }

  lemma PathInline(high: bool, prefix: Bytes, name: Bytes)
    requires (prefix == PREFIX_A || prefix == PREFIX_B) && ValidPath(name)
    ensures Inline(GitPath(high, prefix, name))
  {
    if GitQuotes(high, name) {
      EscapeAscii(prefix + name);
      InlineAscii(GitPath(high, prefix, name));
    } else {
      InlineAscii(prefix);
      InlineJoin(prefix, name);
    }
  }

  lemma HeaderWords()
    ensures Inline(SPACE_AT) && Inline(SPACE_PLUS) && Inline(AT_MINUS)
  {
    hide Inline;
    InlineAscii(SPACE_AT);
    InlineAscii(SPACE_PLUS);
    InlineAscii(AT_MINUS);
  }

  lemma NumberInline(n: nat)
    ensures Inline(Decimal(n)) && Inline(CountText(n))
  {
    hide Inline, Decimal;
    InlineAscii(Decimal(n));
    InlineAscii(CountText(n));
  }

  lemma HeaderGood(h: Header, section: Bytes)
    requires Inline(section)
    ensures GoodLine(HeaderLine(h, section))
  {
    hide Inline, GoodLine, Decimal, CountText;
    LineEnd(section);
    HeaderWords();
    NumberInline(h.newCount);
    NumberInline(h.oldCount);
    NumberInline(h.newStart);
    NumberInline(h.oldStart);
    var e := SPACE_AT + (section + [LF]);
    LineJoin(SPACE_AT, section + [LF]);
    LineJoin(CountText(h.newCount), e);
    LineJoin(Decimal(h.newStart), CountText(h.newCount) + e);
    LineJoin(SPACE_PLUS, Decimal(h.newStart) + (CountText(h.newCount) + e));
    var p := SPACE_PLUS + (Decimal(h.newStart) + (CountText(h.newCount) + e));
    LineJoin(CountText(h.oldCount), p);
    LineJoin(Decimal(h.oldStart), CountText(h.oldCount) + p);
    LineJoin(AT_MINUS, Decimal(h.oldStart) + (CountText(h.oldCount) + p));
  }

  lemma {:induction false} BodyGood(body: seq<BodyLine>)
    requires forall k :: 0 <= k < |body| ==> ValidLine(body[k])
    ensures GoodLines(BodyLines(body))
  {
    hide LineOf, ValidLine, GoodLine;
    if body != [] {
      BodyGood(body[1..]);
      LineGood(body[0]);
    }
  }

  lemma LineGood(l: BodyLine)
    requires ValidLine(l)
    ensures GoodLines(LineOf(l))
  {
    hide GoodLine;
    InlineAscii([l.tag]);
    InlineJoin([l.tag], l.text);
    LineEnd([l.tag] + l.text);
    MarkGood();
  }

  lemma MarkGood()
    ensures GoodLine(NO_NEWLINE)
  {
    InlineAscii(NO_NEWLINE[..27]);
    LineEnd(NO_NEWLINE[..27]);
    assert NO_NEWLINE == NO_NEWLINE[..27] + [LF];
  }

  lemma {:induction false} HunkLinesGood(hunks: seq<Hunk>, previousOld: int, previousNew: int)
    requires ValidHunks(hunks, previousOld, previousNew)
    ensures GoodLines(AllHunkLines(hunks))
  {
    hide GoodLine, ValidLine, HeaderLine;
    if hunks != [] {
      var h := hunks[0];
      HunkLinesGood(hunks[1..], h.header.oldStart + h.header.oldCount, h.header.newStart + h.header.newCount);
      BodyGood(h.body);
      HeaderGood(h.header, h.section);
    }
  }

  lemma GitLineGood(high: bool, name: Bytes)
    requires ValidPath(name)
    ensures GoodLine(GitLine(high, name))
  {
    hide ValidPath, GitPath, Text;
    var a, b := GitPath(high, PREFIX_A, name), GitPath(high, PREFIX_B, name);
    PathInline(high, PREFIX_A, name);
    PathInline(high, PREFIX_B, name);
    InlineAscii(DIFF_GIT);
    InlineAscii([SPACE]);
    InlineJoin(DIFF_GIT, a);
    InlineJoin(DIFF_GIT + a, [SPACE]);
    InlineJoin(DIFF_GIT + a + [SPACE], b);
    LineEnd(DIFF_GIT + a + [SPACE] + b);
  }

  lemma MarkerGood(high: bool, marker: Bytes, prefix: Bytes, absent: bool, name: Bytes)
    requires (prefix == PREFIX_A || prefix == PREFIX_B) && (marker == MINUS || marker == PLUS) && ValidPath(name)
    ensures GoodLine(marker + MarkerName(high, prefix, absent, name) + [LF])
  {
    hide ValidPath, GitPath, Inline, GoodLine;
    PathInline(high, prefix, name);
    InlineAscii([TAB]);
    InlineAscii([]);
    InlineAscii(DEV_NULL);
    InlineJoin(GitPath(high, prefix, name), if !GitQuotes(high, name) && SPACE in name then [TAB] else []);
    InlineAscii(marker);
    InlineJoin(marker, MarkerName(high, prefix, absent, name));
    LineEnd(marker + MarkerName(high, prefix, absent, name));
  }

  lemma IndexGood(r: Record)
    requires IsBlob(r.oldBlob) && IsBlob(r.newBlob)
    ensures GoodLine(IndexLine(r))
  {
    var s := INDEX + r.oldBlob + DOTS + r.newBlob
             + (if r.change.Content? then [SPACE] + ModeBytes(r.change.mode) else []);
    InlineAscii(s);
    LineEnd(s);
  }

  lemma ModeInline(mode: Mode)
    ensures Inline(ModeBytes(mode))
  {
    InlineAscii(ModeBytes(mode));
  }

  lemma ModeGood(marker: Bytes, mode: Mode)
    requires marker == OLD_MODE || marker == NEW_MODE || marker == NEW_FILE || marker == DELETED_FILE
    ensures GoodLine(marker + ModeBytes(mode) + [LF])
  {
    hide Inline, GoodLine;
    InlineAscii(marker);
    ModeInline(mode);
    InlineJoin(marker, ModeBytes(mode));
    LineEnd(marker + ModeBytes(mode));
  }

  lemma ModesGood(c: Change)
    ensures GoodLines(ModeLines(c))
  {
    hide GoodLine, ModeBytes;
    match c
    case Content(_) =>
    case ModeChange(before, after) =>
      ModeGood(OLD_MODE, before);
      ModeGood(NEW_MODE, after);
    case Added(mode) => ModeGood(NEW_FILE, mode);
    case Deleted(mode) => ModeGood(DELETED_FILE, mode);
  }

  lemma RecordGood(high: bool, r: Record)
    requires ValidRecord(high, r)
    ensures GoodLines(RecordLines(high, r))
  {
    hide GoodLine, ValidPath, GitPath, IsBlob, Hexadecimal, Empty, HeadLines, AllHunkLines, ZERO_BLOB;
    BlobsAreHexadecimal(r.oldBlob);
    BlobsAreHexadecimal(r.newBlob);
    HeadGood(high, r);
    HunkLinesGood(r.hunks, -1, -1);
  }

  lemma HeadGood(high: bool, r: Record)
    requires ValidPath(r.path) && IsBlob(r.oldBlob) && IsBlob(r.newBlob)
    ensures GoodLines(HeadLines(high, r))
  {
    hide GoodLine, ValidPath, GitPath, MarkerName, IsBlob, ModeLines, IndexLine, GitLine;
    GitLineGood(high, r.path);
    ModesGood(r.change);
    IndexGood(r);
    MarkersGood(high, r);
    GoodJoin(ModeLines(r.change), [IndexLine(r)] + MarkerLines(high, r));
  }

  lemma GoodJoin(a: seq<Bytes>, b: seq<Bytes>)
    requires GoodLines(a) && GoodLines(b)
    ensures GoodLines(a + b)
  {
    hide GoodLine;
  }

  lemma MarkersGood(high: bool, r: Record)
    requires ValidPath(r.path)
    ensures GoodLines(MarkerLines(high, r))
  {
    hide GoodLine, ValidPath, MarkerName;
    MarkerGood(high, MINUS, PREFIX_A, r.change.Added?, r.path);
    MarkerGood(high, PLUS, PREFIX_B, r.change.Deleted?, r.path);
  }

  lemma {:induction false} RecordsGood(high: bool, records: seq<Record>, seen: set<Bytes>)
    requires ValidRecords(high, records, seen)
    ensures GoodLines(DiffLines(high, records))
  {
    hide ValidRecord, GoodLine, RecordLines;
    if records != [] {
      RecordGood(high, records[0]);
      RecordsGood(high, records[1..], seen + {records[0].path});
    }
  }

  lemma {:induction false} GoodText(lines: seq<Bytes>)
    requires GoodLines(lines)
    ensures Text(Concat(lines)) && (lines != [] ==> Concat(lines) != [] && Concat(lines)[|Concat(lines)| - 1] == LF)
  {
    if lines != [] {
      GoodText(lines[1..]);
      ValidJoin(lines[0], Concat(lines[1..]));
    }
  }

  /** The parser inverts the printer: every valid list of records, printed, is read back with its offsets. */
  lemma PrintedIsRead(high: bool, records: seq<Record>)
    requires records != [] && ValidRecords(high, records, {})
    ensures Inventoried(Print(high, records)) ==
      if |Print(high, records)| <= MAX_TOTAL_BYTES then Ok(Summary(high, records, 0)) else Err
  {
    hide ValidRecords, Text, Summary, ParseFiles, DiffLines, Lines, Concat, At;
    var lines := DiffLines(high, records);
    SomeLine(high, records);
    RecordsGood(high, records, {});
    GoodText(lines);
    GoodReads(lines);
    RecordsRead(lines, 0, high, records, {});
  }

  lemma SomeLine(high: bool, records: seq<Record>)
    requires records != []
    ensures DiffLines(high, records) != []
  {
  }

  lemma GoodReads(lines: seq<Bytes>)
    requires GoodLines(lines)
    ensures Lines(Concat(lines)) == lines && At(lines, 0, lines) && Offset(lines, 0) == 0
  {
    hide IsLine, Text, Lines;
    assert forall k :: 0 <= k < |lines| ==> GoodLine(lines[k]);
    ConcatLines(lines);
    assert lines[0..|lines|] == lines;
  }
}
