/**
 The diff parser of scripts/bounded_review.py (`inventory`), first as a function on the
 payload's lines.  Offsets into the payload are carried by `Offset`.
 */
module DiffGrammar {
  import opened Common
  import opened Utf8
  import opened PathQuoting

  // ---------------------------------------------------------------- Words of the format

  const DIFF_GIT: Bytes := [100, 105, 102, 102, 32, 45, 45, 103, 105, 116, 32]  // 'diff --git '
  const OLD_MODE: Bytes := [111, 108, 100, 32, 109, 111, 100, 101, 32]  // 'old mode '
  const NEW_MODE: Bytes := [110, 101, 119, 32, 109, 111, 100, 101, 32]  // 'new mode '
  const NEW_FILE: Bytes := [110, 101, 119, 32, 102, 105, 108, 101, 32, 109, 111, 100, 101, 32]  // 'new file mode '
  const DELETED_FILE: Bytes := [100, 101, 108, 101, 116, 101, 100, 32, 102, 105, 108, 101, 32, 109, 111, 100, 101, 32]  // 'deleted file mode '
  const MODE_644: Bytes := [49, 48, 48, 54, 52, 52]  // '100644'
  const MODE_755: Bytes := [49, 48, 48, 55, 53, 53]  // '100755'
  const INDEX: Bytes := [105, 110, 100, 101, 120, 32]  // 'index '
  const DOTS: Bytes := [46, 46]  // '..'
  const MINUS: Bytes := [45, 45, 45, 32]  // '--- '
  const PLUS: Bytes := [43, 43, 43, 32]  // '+++ '
  const AT_AT: Bytes := [64, 64, 32]  // '@@ '
  const AT_MINUS: Bytes := [64, 64, 32, 45]  // '@@ -'
  const SPACE_PLUS: Bytes := [32, 43]  // ' +'
  const SPACE_AT: Bytes := [32, 64, 64]  // ' @@'
  const NO_NEWLINE: Bytes := [92, 32, 78, 111, 32, 110, 101, 119, 108, 105, 110, 101, 32, 97, 116, 32, 101, 110, 100, 32, 111, 102, 32, 102, 105, 108, 101, 10]  // '\\ No newline at end of file\n'
  const PREFIX_A: Bytes := [97, 47]  // 'a/'
  const PREFIX_B: Bytes := [98, 47]  // 'b/'
  const EMPTY_BLOB: Bytes := [101, 54, 57, 100, 101, 50, 57, 98, 98, 50, 100, 49, 100, 54, 52, 51, 52, 98, 56, 98, 50, 57, 97, 101, 55, 55, 53, 97, 100, 56, 99, 50, 101, 52, 56, 99, 53, 51, 57, 49]  // 'e69de29bb2d1d6434b8b29ae775ad8c2e48c5391'
  const LF: Byte := 10
  const SPACE: Byte := 32
  const TAB: Byte := 9
  const ZERO_BLOB: Bytes := [48, 48, 48, 48, 48, 48, 48, 48, 48, 48, 48, 48, 48, 48, 48, 48, 48, 48, 48, 48, 48, 48, 48, 48, 48, 48, 48, 48, 48, 48, 48, 48, 48, 48, 48, 48, 48, 48, 48, 48]

  datatype Mode = Plain | Executable

  datatype Operation = Modify | Add | Delete

  datatype Header = Header(oldStart: nat, oldCount: nat, newStart: nat, newCount: nat)

  /** `start` and `end` are offsets into the payload. */
  datatype HunkInfo = HunkInfo(start: nat, end: nat, header: Header)

  datatype FileInfo = FileInfo(
    path: Bytes, operation: Operation, oldBlob: Bytes, newBlob: Bytes,
    oldMode: Option<Mode>, newMode: Option<Mode>, start: nat, end: nat, hunks: seq<HunkInfo>)

  // ---------------------------------------------------------------- Lines

  /** A line with its LF, which is its only one. */
  predicate IsLine(s: Bytes) {
    s != [] && s[|s| - 1] == LF && LF !in s[..|s| - 1]
  }

  predicate AllLines(lines: seq<Bytes>) {
    forall k :: 0 <= k < |lines| ==> IsLine(lines[k])
  }

  /** `[line + b"\n" for line in payload.split(b"\n")[:-1]]` */
  function Lines(s: Bytes): (lines: seq<Bytes>)
    decreases |s|
  {
    if LF !in s then []
    else
      var n := First(s, LF);
      [s[..n + 1]] + Lines(s[n + 1..])
  }

  lemma {:induction false} LinesAreLines(s: Bytes)
    ensures AllLines(Lines(s))
    decreases |s|
  {
    if LF in s {
      var n := First(s, LF);
      LinesAreLines(s[n + 1..]);
      assert s[..n + 1][..n] == s[..n];
    }
  }

  lemma ConcatCons(line: Bytes, lines: seq<Bytes>)
    ensures Concat([line] + lines) == line + Concat(lines)
  {
    assert ([line] + lines)[1..] == lines;
  }

  lemma LinesCons(s: Bytes)
    requires LF in s
    ensures Lines(s) == [s[..First(s, LF) + 1]] + Lines(s[First(s, LF) + 1..])
  {
    hide First;
  }

  lemma RestEnds(s: Bytes, n: nat)
    requires n < |s|
    ensures s[..n + 1] + s[n + 1..] == s
    ensures s[n + 1..] == [] || s[n + 1..][|s[n + 1..]| - 1] == s[|s| - 1]
  {
  }

  /** Splitting a text that ends with LF loses nothing. */
  lemma {:induction false} LinesConcat(s: Bytes)
    requires s == [] || s[|s| - 1] == LF
    ensures Concat(Lines(s)) == s
    decreases |s|
  {
    if s != [] {
      hide Lines, Concat, First;
      assert s[|s| - 1] in s;
      var n := First(s, LF);
      LinesCons(s);
      var rest := s[n + 1..];
      RestEnds(s, n);
      LinesConcat(rest);
      ConcatCons(s[..n + 1], Lines(rest));
    }
  }

  /** Joining lines and splitting again gives the lines back. */
  lemma {:induction false} ConcatLines(lines: seq<Bytes>)
    requires AllLines(lines)
    ensures Lines(Concat(lines)) == lines
  {
    if lines != [] {
      var s, n := Concat(lines), |lines[0]| - 1;
      assert s[..n] == lines[0][..n] && s[n] == lines[0][n];
      FirstIs(s, LF, n);
      assert s[..n + 1] == lines[0] && s[n + 1..] == Concat(lines[1..]);
      ConcatLines(lines[1..]);
    }
  }

  /** Where line `i` starts. */
  function Offset(lines: seq<Bytes>, i: nat): nat
    requires i <= |lines|
  {
    if i == 0 then 0 else Offset(lines, i - 1) + |lines[i - 1]|
  }

  lemma {:induction false} OffsetIsLength(lines: seq<Bytes>, i: nat)
    requires i <= |lines|
    ensures Offset(lines, i) == |Concat(lines[..i])|
    decreases i
  {
    if i == 0 {
      assert lines[..0] == [];
    } else {
      OffsetIsLength(lines, i - 1);
      ConcatSnoc(lines, i - 1);
    }
  }

  lemma {:induction false} OffsetGrows(lines: seq<Bytes>, i: nat, j: nat)
    requires AllLines(lines) && i <= j <= |lines|
    ensures Offset(lines, i) + (j - i) <= Offset(lines, j)
    decreases j
  {
    if i < j {
      OffsetGrows(lines, i, j - 1);
    }
  }

  // ---------------------------------------------------------------- Numbers and hunk headers

  predicate IsDigit(b: Byte) {
    48 <= b <= 57
  }

  function DigitSpan(s: Bytes): (n: nat)
    ensures n <= |s| && (forall k :: 0 <= k < n ==> IsDigit(s[k]))
    ensures n < |s| ==> !IsDigit(s[n])
  {
    if s == [] || !IsDigit(s[0]) then 0 else 1 + DigitSpan(s[1..])
  }

  function DigitOf(b: Byte): nat
    requires IsDigit(b)
  {
    b - 48
  }

  function Value(s: Bytes): nat
    requires forall k :: 0 <= k < |s| ==> IsDigit(s[k])
  {
    if s == [] then 0 else 10 * Value(s[..|s| - 1]) + DigitOf(s[|s| - 1])
  }

  /** `\d+`, read as far as it goes and converted, and what follows it. */
  function Number(s: Bytes): Option<(nat, Bytes)> {
    if DigitSpan(s) == 0 || DigitSpan(s) > MAX_DIGITS then None else Some((Value(s[..DigitSpan(s)]), s[DigitSpan(s)..]))
  }

  /** `(?:,(\d+))?` with its default of one. */
  function Count(s: Bytes): Option<(nat, Bytes)> {
    if s != [] && s[0] == 44 then Number(s[1..]) else Some((1, s))
  }

  /** `HUNK.fullmatch(line)` and its numbers; `None` also if one of them does not convert. */
  function ParseHeader(line: Bytes): Option<Header> {
    if !(AT_MINUS <= line) then None
    else match Number(line[4..])
      case None => None
      case Some(a) => match Count(a.1)
        case None => None
        case Some(b) =>
          if !(SPACE_PLUS <= b.1) then None
          else match Number(b.1[2..])
            case None => None
            case Some(c) => match Count(c.1)
              case None => None
              case Some(d) =>
                if SPACE_AT <= d.1 && IsLine(d.1[3..]) then Some(Header(a.0, b.0, c.0, d.0)) else None
  }

  // ---------------------------------------------------------------- The lines of one record

  /** `line[:1]`, with 0 for none. */
  function Tag(line: Bytes): Byte {
    if line == [] then 0 else line[0]
  }

  predicate IsTag(b: Byte) {
    b == 32 || b == 45 || b == 43
  }

  function InOld(tag: Byte): nat {
    if tag == 32 || tag == 45 then 1 else 0
  }

  function InNew(tag: Byte): nat {
    if tag == 32 || tag == 43 then 1 else 0
  }

  /** One past line `i` and a no-newline mark that may follow it. */
  function PastLine(lines: seq<Bytes>, i: nat): nat {
    if i + 1 < |lines| && lines[i + 1] == NO_NEWLINE then i + 2 else i + 1
  }

  /** The inner loop: consume exactly the declared numbers of old and new lines. */
  function ParseBody(lines: seq<Bytes>, i: nat, oldLeft: nat, newLeft: nat): (r: Result<nat>)
    requires i <= |lines|
    ensures r.Ok? ==> i <= r.value <= |lines|
    decreases oldLeft + newLeft
  {
    if oldLeft == 0 && newLeft == 0 then Ok(i)
    else if i >= |lines| || !IsTag(Tag(lines[i])) then Err
    else
      var tag := Tag(lines[i]);
      if InOld(tag) > oldLeft || InNew(tag) > newLeft then Err
      else ParseBody(lines, PastLine(lines, i), oldLeft - InOld(tag), newLeft - InNew(tag))
  }

  /** The hunk loop.  `previousOld` and `previousNew` are where the last hunk ended. */
  function ParseHunks(lines: seq<Bytes>, i: nat, previousOld: int, previousNew: int): (r: Result<(seq<HunkInfo>, nat)>)
    requires i <= |lines|
    ensures r.Ok? ==> i <= r.value.1 <= |lines|
    decreases |lines| - i
  {
    if i == |lines| || !(AT_AT <= lines[i]) then Ok(([], i))
    else
      match ParseHeader(lines[i])
      case None => Err
      case Some(h) =>
        if h.oldStart < previousOld || h.newStart < previousNew || h.oldCount + h.newCount == 0 then Err
        else
          match ParseBody(lines, i + 1, h.oldCount, h.newCount)
          case Err => Err
          case Ok(j) =>
            match ParseHunks(lines, j, h.oldStart + h.oldCount, h.newStart + h.newCount)
            case Err => Err
            case Ok(rest) => Ok(([HunkInfo(Offset(lines, i), Offset(lines, j), h)] + rest.0, rest.1))
  }

  /** `lines[i][k:-1]` */
  function Inner(line: Bytes, k: nat): Bytes {
    if k < |line| then line[k..|line| - 1] else []
  }

  function ModeOf(s: Bytes): Option<Mode> {
    if s == MODE_644 then Some(Plain) else if s == MODE_755 then Some(Executable) else None
  }

  /** An optional mode line. */
  function ParseMode(lines: seq<Bytes>, i: nat, marker: Bytes): (r: Result<(Option<Mode>, nat)>)
    requires i <= |lines|
    ensures r.Ok? ==> i <= r.value.1 <= |lines|
  {
    if i < |lines| && marker <= lines[i] then
      if ModeOf(Inner(lines[i], |marker|)).None? then Err else Ok((ModeOf(Inner(lines[i], |marker|)), i + 1))
    else Ok((None, i))
  }

  datatype Modes = Modes(oldMode: Option<Mode>, newMode: Option<Mode>, operation: Operation)

  /** The four optional mode lines and the combinations that are allowed. */
  function ParseModes(lines: seq<Bytes>, i: nat): (r: Result<(Modes, nat)>)
    requires i <= |lines|
    ensures r.Ok? ==> i <= r.value.1 <= |lines|
  {
    match ParseMode(lines, i, OLD_MODE)
    case Err => Err
    case Ok(a) =>
      match ParseMode(lines, a.1, NEW_MODE)
      case Err => Err
      case Ok(b) =>
        match ParseMode(lines, b.1, NEW_FILE)
        case Err => Err
        case Ok(c) =>
          match ParseMode(lines, c.1, DELETED_FILE)
          case Err => Err
          case Ok(d) =>
            if a.0.None? && b.0.None? && c.0.None? && d.0.None? then Ok((Modes(None, None, Modify), d.1))
            else if a.0.Some? && b.0.Some? && c.0.None? && d.0.None? && a.0 != b.0 then
              Ok((Modes(a.0, b.0, Modify), d.1))
            else if a.0.None? && b.0.None? && c.0.Some? && d.0.None? then Ok((Modes(None, c.0, Add), d.1))
            else if a.0.None? && b.0.None? && c.0.None? && d.0.Some? then Ok((Modes(d.0, None, Delete), d.1))
            else Err
  }

  predicate IsBlob(s: Bytes) {
    |s| == 40 && forall k :: 0 <= k < 40 ==> 48 <= s[k] <= 57 || 97 <= s[k] <= 102
  }

  /** `INDEX.fullmatch(line)`: both blobs and the mode, if there is one. */
  function ParseIndex(line: Bytes): Option<(Bytes, Bytes, Option<Mode>)> {
    if (|line| == 89 || |line| == 96) && INDEX <= line && line[46..48] == DOTS && line[|line| - 1] == LF
       && IsBlob(line[6..46]) && IsBlob(line[48..88])
       && (|line| == 96 ==> line[88] == SPACE && ModeOf(line[89..95]).Some?)
    then Some((line[6..46], line[48..88], if |line| == 96 then ModeOf(line[89..95]) else None))
    else None
  }

  /** The index line, with the mode rules that follow it. */
  function ParseBlobs(lines: seq<Bytes>, i: nat, modes: Modes): (r: Result<(Bytes, Bytes, Modes)>)
    requires i <= |lines|
    ensures r.Ok? ==> i < |lines|
  {
    if i == |lines| then Err
    else
      match ParseIndex(lines[i])
      case None => Err
      case Some(x) =>
        if x.2.Some? && (modes.oldMode.Some? || modes.newMode.Some?) then Err
        else
          var m := if x.2.Some? then modes.(oldMode := x.2, newMode := x.2) else modes;
          if !((m.oldMode.Some? || m.operation.Add?) && (m.newMode.Some? || m.operation.Delete?)) then Err
          else if (x.0 == ZERO_BLOB) != m.operation.Add? || (x.1 == ZERO_BLOB) != m.operation.Delete? then Err
          else Ok((x.0, x.1, m))
  }

  /** `marker_line.removesuffix(b"\t")` */
  function WithoutTab(s: Bytes): Bytes {
    if s != [] && s[|s| - 1] == TAB then s[..|s| - 1] else s
  }

  /** One of the two file marker lines. */
  predicate MarkerFits(s: Bytes, prefix: Bytes, absent: bool, path: Bytes) {
    if absent then s == DEV_NULL else PathValue(WithoutTab(s), prefix) == Ok(path)
  }

  function ParseMarkers(lines: seq<Bytes>, i: nat, path: Bytes, operation: Operation): (r: Result<nat>)
    requires i < |lines| && MINUS <= lines[i]
    ensures r.Ok? ==> r.value == i + 2 && i + 2 <= |lines|
  {
    if i + 1 == |lines| || !(PLUS <= lines[i + 1]) then Err
    else if MarkerFits(Inner(lines[i], 4), PREFIX_A, operation.Add?, path)
         && MarkerFits(Inner(lines[i + 1], 4), PREFIX_B, operation.Delete?, path)
      then Ok(i + 2)
      else Err
  }

  /** Only an empty file can be added or deleted without hunks. */
  predicate EmptyChange(operation: Operation, oldBlob: Bytes, newBlob: Bytes) {
    (operation.Add? && newBlob == EMPTY_BLOB) || (operation.Delete? && oldBlob == EMPTY_BLOB)
  }

  /** Everything after the index line. */
  function ParseChange(lines: seq<Bytes>, i: nat, path: Bytes, operation: Operation, oldBlob: Bytes, newBlob: Bytes)
    : (r: Result<(seq<HunkInfo>, nat)>)
    requires i <= |lines|
    ensures r.Ok? ==> i <= r.value.1 <= |lines|
  {
    if i < |lines| && MINUS <= lines[i] then
      match ParseMarkers(lines, i, path, operation)
      case Err => Err
      case Ok(j) =>
        match ParseHunks(lines, j, -1, -1)
        case Err => Err
        case Ok(h) => if h.0 == [] then Err else Ok(h)
    else if EmptyChange(operation, oldBlob, newBlob) then Ok(([], i))
    else Err
  }

  /** The path named twice by the record's first line. */
  function ParsePath(line: Bytes): Result<Bytes> {
    if !(DIFF_GIT <= line) then Err
    else
      var header := Inner(line, 11);
      var midpoint := |header| / 2;
      if |header| % 2 != 1 || header[midpoint] != SPACE then Err
      else
        var path := PathValue(header[..midpoint], PREFIX_A);
        if path.Ok? && PathValue(header[midpoint + 1..], PREFIX_B) == path then path else Err
  }

  function ParseFile(lines: seq<Bytes>, i: nat): (r: Result<(FileInfo, nat)>)
    requires i < |lines|
    ensures r.Ok? ==> i < r.value.1 <= |lines|
  {
    match ParsePath(lines[i])
    case Err => Err
    case Ok(path) =>
      match ParseModes(lines, i + 1)
      case Err => Err
      case Ok(modes) =>
        match ParseBlobs(lines, modes.1, modes.0)
        case Err => Err
        case Ok(x) =>
          match ParseChange(lines, modes.1 + 1, path, x.2.operation, x.0, x.1)
          case Err => Err
          case Ok(h) =>
            if h.1 < |lines| && !(DIFF_GIT <= lines[h.1]) then Err
            else Ok((FileInfo(path, x.2.operation, x.0, x.1, x.2.oldMode, x.2.newMode,
                              Offset(lines, i), Offset(lines, h.1), h.0), h.1))
  }

  /** The record loop; `seen` holds the paths of earlier records. */
  function ParseFiles(lines: seq<Bytes>, i: nat, seen: set<Bytes>): Result<seq<FileInfo>>
    requires i <= |lines|
    decreases |lines| - i
  {
    if i == |lines| then Ok([])
    else
      match ParseFile(lines, i)
      case Err => Err
      case Ok(f) =>
        if f.0.path in seen then Err
        else
          match ParseFiles(lines, f.1, seen + {f.0.path})
          case Err => Err
          case Ok(rest) => Ok([f.0] + rest)
  }

  const MAX_TOTAL_BYTES := 64 * 199999

  /** `inventory(payload)` */
  function Inventoried(payload: Bytes): Result<seq<FileInfo>> {
    if !Text(payload) || !(0 < |payload| <= MAX_TOTAL_BYTES) || payload[|payload| - 1] != LF then Err
    else ParseFiles(Lines(payload), 0, {})
  }

  // ---------------------------------------------------------------- What acceptance means

  /** How many of the lines `[a, b)` start with `first`. */
  function Starting(lines: seq<Bytes>, a: nat, b: nat, first: Byte): nat
    requires a <= b <= |lines|
    decreases b - a
  {
    if a == b then 0 else (if lines[a] != [] && lines[a][0] == first then 1 else 0) + Starting(lines, a + 1, b, first)
  }

  /** Lines `[a, b)` hold `o` lines of the old file, unchanged or removed, and `n` of the new one, unchanged or added. */
  predicate Declares(lines: seq<Bytes>, a: nat, b: nat, o: nat, n: nat)
    requires a <= b <= |lines|
  {
    && Starting(lines, a, b, ' ' as int) + Starting(lines, a, b, '-' as int) == o
    && Starting(lines, a, b, ' ' as int) + Starting(lines, a, b, '+' as int) == n
  }

  /** Lines `[a, b)` are hunk lines, each with the no-newline mark that may follow it. */
  ghost predicate BodyShape(lines: seq<Bytes>, a: nat, b: nat)
    requires a <= b <= |lines|
    decreases b - a
  {
    a == b || (IsTag(Tag(lines[a])) && PastLine(lines, a) <= b && BodyShape(lines, PastLine(lines, a), b))
  }

  /** The hunk is a whole number of lines and holds exactly what its header declares. */
  ghost predicate HunkExact(lines: seq<Bytes>, h: HunkInfo)
  {
    exists a, b :: HunkSpan(lines, h, a, b)
  }

  ghost predicate HunkSpan(lines: seq<Bytes>, h: HunkInfo, a: nat, b: nat)
  {
    && a < b <= |lines| && h.start == Offset(lines, a) && h.end == Offset(lines, b)
    && ParseHeader(lines[a]) == Some(h.header) && h.header.oldCount + h.header.newCount > 0
    && BodyShape(lines, a + 1, b)
    && Declares(lines, a + 1, b, h.header.oldCount, h.header.newCount)
  }

  /** Hunks follow each other, in the payload and in both files, within `[from, end]`. */
  ghost predicate HunksOrdered(hunks: seq<HunkInfo>, from: nat, end: nat, previousOld: int, previousNew: int)
    decreases |hunks|
  {
    if hunks == [] then from <= end
    else
      var h := hunks[0];
      && from <= h.start < h.end && previousOld <= h.header.oldStart && previousNew <= h.header.newStart
      && HunksOrdered(hunks[1..], h.end, end,
                      h.header.oldStart + h.header.oldCount, h.header.newStart + h.header.newCount)
  }

  ghost predicate FileExact(lines: seq<Bytes>, f: FileInfo)
  {
    && f.start < f.end && ValidPath(f.path) && AtLine(lines, f.start) && AtLine(lines, f.end)
    && HunksOrdered(f.hunks, f.start, f.end, -1, -1)
    && AllExact(lines, f.hunks) && EndsAt(f.hunks, f.end)
    && (f.hunks == [] ==> EmptyChange(f.operation, f.oldBlob, f.newBlob))
    && (f.operation.Add? <==> f.oldBlob == ZERO_BLOB) && (f.operation.Delete? <==> f.newBlob == ZERO_BLOB)
    && (f.oldMode.None? <==> f.operation.Add?) && (f.newMode.None? <==> f.operation.Delete?)
  }

  /** An offset at which a line starts, or the end. */
  ghost predicate AtLine(lines: seq<Bytes>, x: nat) {
    exists k: nat :: k <= |lines| && x == Offset(lines, k)
  }

  /** The files lie end to end from `from` to `end`. */
  ghost predicate Tiles(files: seq<FileInfo>, from: nat, end: nat)
    decreases |files|
  {
    if files == [] then from == end
    else files[0].start == from && files[0].start < files[0].end && Tiles(files[1..], files[0].end, end)
  }

  ghost predicate DistinctPaths(files: seq<FileInfo>, seen: set<Bytes>) {
    && (forall k :: 0 <= k < |files| ==> files[k].path !in seen)
    && (forall j, k :: 0 <= j < k < |files| ==> files[j].path != files[k].path)
  }

  lemma {:induction false} BodyExact(lines: seq<Bytes>, i: nat, oldLeft: nat, newLeft: nat)
    requires i <= |lines| && ParseBody(lines, i, oldLeft, newLeft).Ok?
    ensures var j := ParseBody(lines, i, oldLeft, newLeft).value;
            && BodyShape(lines, i, j)
            && Declares(lines, i, j, oldLeft, newLeft)
            && (oldLeft + newLeft > 0 ==> i < j)
    decreases oldLeft + newLeft
  {
    if oldLeft + newLeft > 0 {
      var tag := Tag(lines[i]);
      var next := PastLine(lines, i);
      BodyExact(lines, next, oldLeft - InOld(tag), newLeft - InNew(tag));
      var j := ParseBody(lines, i, oldLeft, newLeft).value;
      if next == i + 2 {
        assert Tag(lines[i + 1]) == 92;
        assert Starting(lines, i + 1, j, ' ' as int) == Starting(lines, i + 2, j, ' ' as int);
        assert Starting(lines, i + 1, j, '-' as int) == Starting(lines, i + 2, j, '-' as int);
        assert Starting(lines, i + 1, j, '+' as int) == Starting(lines, i + 2, j, '+' as int);
      }
    }
  }

  lemma HunkIsExact(lines: seq<Bytes>, i: nat, h: Header)
    requires AllLines(lines) && i < |lines| && ParseHeader(lines[i]) == Some(h) && h.oldCount + h.newCount > 0
    requires ParseBody(lines, i + 1, h.oldCount, h.newCount).Ok?
    ensures var j := ParseBody(lines, i + 1, h.oldCount, h.newCount).value;
            && i < j <= |lines| && Offset(lines, i) < Offset(lines, j)
            && HunkExact(lines, HunkInfo(Offset(lines, i), Offset(lines, j), h))
  {
    var j := ParseBody(lines, i + 1, h.oldCount, h.newCount).value;
    BodyExact(lines, i + 1, h.oldCount, h.newCount);
    OffsetGrows(lines, i, j);
    assert HunkSpan(lines, HunkInfo(Offset(lines, i), Offset(lines, j), h), i, j);
  }

  ghost predicate AllExact(lines: seq<Bytes>, hunks: seq<HunkInfo>)
  {
    forall k :: 0 <= k < |hunks| ==> HunkExact(lines, hunks[k])
  }

  lemma AllExactCons(lines: seq<Bytes>, info: HunkInfo, rest: seq<HunkInfo>)
    requires HunkExact(lines, info) && AllExact(lines, rest)
    ensures AllExact(lines, [info] + rest)
  {
  }

  ghost predicate EndsAt(hunks: seq<HunkInfo>, end: nat) {
    hunks != [] ==> hunks[|hunks| - 1].end == end
  }

  /** What the hunk loop promises about its result, when it starts at line `i`. */
  ghost predicate HunksGood(lines: seq<Bytes>, i: nat, previousOld: int, previousNew: int, r: (seq<HunkInfo>, nat))
  {
    && i <= r.1 <= |lines|
    && HunksOrdered(r.0, Offset(lines, i), Offset(lines, r.1), previousOld, previousNew)
    && AllExact(lines, r.0) && EndsAt(r.0, Offset(lines, r.1)) && (r.0 == [] ==> r.1 == i)
  }

  lemma {:induction false} HunksExact(lines: seq<Bytes>, i: nat, previousOld: int, previousNew: int)
    requires AllLines(lines) && i <= |lines| && ParseHunks(lines, i, previousOld, previousNew).Ok?
    ensures HunksGood(lines, i, previousOld, previousNew, ParseHunks(lines, i, previousOld, previousNew).value)
    decreases |lines| - i
  {
    hide ParseHeader, ParseBody, HunkExact;
    if i < |lines| && AT_AT <= lines[i] {
      var h, j, rest := HunksStep(lines, i, previousOld, previousNew);
      HunkIsExact(lines, i, h);
      HunksExact(lines, j, h.oldStart + h.oldCount, h.newStart + h.newCount);
      HunksGoodCons(lines, i, j, h, rest, previousOld, previousNew);
    } else {
      assert ParseHunks(lines, i, previousOld, previousNew) == Ok(([], i));
    }
  }

  /** One hunk and what is left. */
  lemma HunksStep(lines: seq<Bytes>, i: nat, previousOld: int, previousNew: int)
    returns (h: Header, j: nat, rest: (seq<HunkInfo>, nat))
    requires i < |lines| && AT_AT <= lines[i] && ParseHunks(lines, i, previousOld, previousNew).Ok?
    ensures ParseHeader(lines[i]) == Some(h) && h.oldStart >= previousOld && h.newStart >= previousNew
    ensures h.oldCount + h.newCount > 0 && ParseBody(lines, i + 1, h.oldCount, h.newCount) == Ok(j) && i < j <= |lines|
    ensures ParseHunks(lines, j, h.oldStart + h.oldCount, h.newStart + h.newCount) == Ok(rest)
    ensures ParseHunks(lines, i, previousOld, previousNew).value
         == ([HunkInfo(Offset(lines, i), Offset(lines, j), h)] + rest.0, rest.1)
  {
    h := ParseHeader(lines[i]).value;
    j := ParseBody(lines, i + 1, h.oldCount, h.newCount).value;
    rest := ParseHunks(lines, j, h.oldStart + h.oldCount, h.newStart + h.newCount).value;
  }

  lemma HunksGoodCons(lines: seq<Bytes>, i: nat, j: nat, h: Header, rest: (seq<HunkInfo>, nat), o: int, n: int)
    requires i < j <= |lines| && Offset(lines, i) < Offset(lines, j)
    requires HunkExact(lines, HunkInfo(Offset(lines, i), Offset(lines, j), h))
    requires o <= h.oldStart && n <= h.newStart
    requires HunksGood(lines, j, h.oldStart + h.oldCount, h.newStart + h.newCount, rest)
    ensures HunksGood(lines, i, o, n, ([HunkInfo(Offset(lines, i), Offset(lines, j), h)] + rest.0, rest.1))
  {
    var info := HunkInfo(Offset(lines, i), Offset(lines, j), h);
    AllExactCons(lines, info, rest.0);
    HunksOrderedCons(info, rest.0, Offset(lines, i), Offset(lines, rest.1), o, n);
    EndsAtCons(info, rest.0, Offset(lines, j), Offset(lines, rest.1), h.oldStart + h.oldCount, h.newStart + h.newCount);
  }

  lemma EndsAtCons(info: HunkInfo, rest: seq<HunkInfo>, from: nat, end: nat, o: int, n: int)
    requires EndsAt(rest, end) && info.end == from && HunksOrdered(rest, from, end, o, n)
    requires rest == [] ==> from == end
    ensures EndsAt([info] + rest, end)
  {
    assert rest != [] ==> ([info] + rest)[|rest|] == rest[|rest| - 1];
  }

  lemma HunksOrderedCons(info: HunkInfo, rest: seq<HunkInfo>, from: nat, end: nat, o: int, n: int)
    requires from <= info.start < info.end && o <= info.header.oldStart && n <= info.header.newStart
    requires HunksOrdered(rest, info.end, end, info.header.oldStart + info.header.oldCount,
                          info.header.newStart + info.header.newCount)
    ensures HunksOrdered([info] + rest, from, end, o, n)
  {
    assert ([info] + rest)[1..] == rest;
  }

  lemma PathValueValid(raw: Bytes, prefix: Bytes)
    ensures PathValue(raw, prefix).Ok? ==> ValidPath(PathValue(raw, prefix).value)
  {
  }

  lemma {:induction false} HunksOrderedFrom(hunks: seq<HunkInfo>, from: nat, from': nat, end: nat, o: int, n: int)
    requires HunksOrdered(hunks, from, end, o, n) && from' <= from
    ensures HunksOrdered(hunks, from', end, o, n)
  {
  }

  lemma ChangeExact(lines: seq<Bytes>, i: nat, path: Bytes, operation: Operation, oldBlob: Bytes, newBlob: Bytes)
    requires AllLines(lines) && i <= |lines| && ParseChange(lines, i, path, operation, oldBlob, newBlob).Ok?
    ensures var r := ParseChange(lines, i, path, operation, oldBlob, newBlob).value;
            && HunksOrdered(r.0, Offset(lines, i), Offset(lines, r.1), -1, -1)
            && AllExact(lines, r.0) && EndsAt(r.0, Offset(lines, r.1))
            && (r.0 == [] ==> EmptyChange(operation, oldBlob, newBlob))
  {
    var r := ParseChange(lines, i, path, operation, oldBlob, newBlob).value;
    if i < |lines| && MINUS <= lines[i] {
      HunksExact(lines, i + 2, -1, -1);
      OffsetGrows(lines, i, i + 2);
      HunksOrderedFrom(r.0, Offset(lines, i + 2), Offset(lines, i), Offset(lines, r.1), -1, -1);
    }
  }

  lemma BlobsExact(lines: seq<Bytes>, i: nat)
    requires i <= |lines| && ParseModes(lines, i).Ok?
    requires ParseBlobs(lines, ParseModes(lines, i).value.1, ParseModes(lines, i).value.0).Ok?
    ensures var x := ParseBlobs(lines, ParseModes(lines, i).value.1, ParseModes(lines, i).value.0).value;
            && (x.2.operation.Add? <==> x.0 == ZERO_BLOB) && (x.2.operation.Delete? <==> x.1 == ZERO_BLOB)
            && (x.2.oldMode.None? <==> x.2.operation.Add?) && (x.2.newMode.None? <==> x.2.operation.Delete?)
  {
  }

  lemma PathExact(line: Bytes)
    requires ParsePath(line).Ok?
    ensures ValidPath(ParsePath(line).value)
  {
    var header := Inner(line, 11);
    PathValueValid(header[..|header| / 2], PREFIX_A);
  }

  /** The parts a record is parsed into. */
  lemma FileStep(lines: seq<Bytes>, i: nat)
    returns (path: Bytes, modes: (Modes, nat), x: (Bytes, Bytes, Modes), h: (seq<HunkInfo>, nat))
    requires i < |lines| && ParseFile(lines, i).Ok?
    ensures ParsePath(lines[i]) == Ok(path) && ParseModes(lines, i + 1) == Ok(modes)
    ensures ParseBlobs(lines, modes.1, modes.0) == Ok(x)
    ensures ParseChange(lines, modes.1 + 1, path, x.2.operation, x.0, x.1) == Ok(h)
    ensures i < modes.1 + 1 <= h.1 <= |lines|
    ensures ParseFile(lines, i).value == (FileInfo(path, x.2.operation, x.0, x.1, x.2.oldMode, x.2.newMode,
                                                   Offset(lines, i), Offset(lines, h.1), h.0), h.1)
  {
    hide ParsePath, ParseModes, ParseBlobs, ParseChange;
    path := ParsePath(lines[i]).value;
    modes := ParseModes(lines, i + 1).value;
    x := ParseBlobs(lines, modes.1, modes.0).value;
    h := ParseChange(lines, modes.1 + 1, path, x.2.operation, x.0, x.1).value;
  }

  lemma FileIsExact(lines: seq<Bytes>, i: nat)
    requires AllLines(lines) && i < |lines| && ParseFile(lines, i).Ok?
    ensures FileExact(lines, ParseFile(lines, i).value.0)
    ensures ParseFile(lines, i).value.0.start == Offset(lines, i) < ParseFile(lines, i).value.0.end
    ensures ParseFile(lines, i).value.0.end == Offset(lines, ParseFile(lines, i).value.1)
  {
    hide ParseFile, ParseModes, ParseBlobs, ParseChange, ParsePath, ValidPath, EmptyChange, HunkSpan;
    var path, modes, x, h := FileStep(lines, i);
    PathExact(lines[i]);
    BlobsExact(lines, i + 1);
    ChangeExact(lines, modes.1 + 1, path, x.2.operation, x.0, x.1);
    OffsetGrows(lines, i, modes.1 + 1);
    OffsetGrows(lines, modes.1 + 1, h.1);
    HunksOrderedFrom(h.0, Offset(lines, modes.1 + 1), Offset(lines, i), Offset(lines, h.1), -1, -1);
  }

  lemma {:induction false} FilesExact(lines: seq<Bytes>, i: nat, seen: set<Bytes>)
    requires AllLines(lines) && i <= |lines| && ParseFiles(lines, i, seen).Ok?
    ensures var files := ParseFiles(lines, i, seen).value;
            && Tiles(files, Offset(lines, i), Offset(lines, |lines|)) && DistinctPaths(files, seen)
            && (forall k :: 0 <= k < |files| ==> FileExact(lines, files[k]))
    decreases |lines| - i
  {
    hide FileExact, ParseFile;
    if i < |lines| {
      var f := ParseFile(lines, i).value;
      FileIsExact(lines, i);
      FilesExact(lines, f.1, seen + {f.0.path});
      var rest := ParseFiles(lines, f.1, seen + {f.0.path}).value;
      assert ([f.0] + rest)[1..] == rest;
    }
  }

  /**
   Of every accepted payload: the records tile it, their paths differ, and each record's
   hunks are in order, apart, and hold exactly the declared numbers of lines.
   */
  lemma AcceptedIsExact(payload: Bytes)
    requires Inventoried(payload).Ok?
    ensures var files := Inventoried(payload).value;
            && AllLines(Lines(payload))
            && Tiles(files, 0, |payload|) && files != [] && DistinctPaths(files, {})
            && (forall k :: 0 <= k < |files| ==> FileExact(Lines(payload), files[k]))
  {
    var lines := Lines(payload);
    LinesAreLines(payload);
    LinesConcat(payload);
    FilesExact(lines, 0, {});
    OffsetIsLength(lines, |lines|);
    assert lines[..|lines|] == lines;
  }
}
