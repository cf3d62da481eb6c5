/**
 What an accepted diff looks like: every line that the parser of scripts/bounded_review.py reads
 is made of the words and values that it finds there, and of nothing else.
 */
module DiffShape {
  import opened Common
  import opened Utf8
  import opened PathQuoting
  import opened DiffGrammar
  import opened DiffPrinter

  // ---------------------------------------------------------------- Hunk headers

  predicate Digits(s: Bytes) {
    s != [] && forall k :: 0 <= k < |s| ==> '0' as int <= s[k] <= '9' as int
  }

  /** A number as some digits, of which leading zeros may be some. */
  predicate Spells(s: Bytes, n: nat) {
    Digits(s) && |s| <= 4300 && Value(s) == n
  }

  /** A count: nothing for one, or a comma and a number. */
  predicate SpellsCount(s: Bytes, n: nat) {
    (s == [] && n == 1) || (s != [] && s[0] == ',' as int && Spells(s[1..], n))
  }

  /** The parts of a header line. */
  datatype Parts = Parts(oldStart: Bytes, oldCount: Bytes, newStart: Bytes, newCount: Bytes, section: Bytes)

  predicate HeaderOf(line: Bytes, h: Header, p: Parts) {
    && line == AT_MINUS + (p.oldStart + (p.oldCount + (SPACE_PLUS + (p.newStart + (p.newCount + (SPACE_AT + (p.section + [LF])))))))
    && Spells(p.oldStart, h.oldStart) && SpellsCount(p.oldCount, h.oldCount)
    && Spells(p.newStart, h.newStart) && SpellsCount(p.newCount, h.newCount) && LF !in p.section
  }

  lemma NumberShape(s: Bytes) returns (d: Bytes)
    requires Number(s).Some?
    ensures s == d + Number(s).value.1 && Spells(d, Number(s).value.0)
  {
    d := s[..DigitSpan(s)];
  }

  lemma CountShape(s: Bytes) returns (d: Bytes)
    requires Count(s).Some?
    ensures s == d + Count(s).value.1 && SpellsCount(d, Count(s).value.0)
  {
    if s != [] && s[0] == 44 {
      var e := NumberShape(s[1..]);
      d := [44] + e;
      assert d[1..] == e;
    } else {
      d := [];
    }
  }

  lemma HeaderShape(line: Bytes) returns (p: Parts)
    requires ParseHeader(line).Some?
    ensures HeaderOf(line, ParseHeader(line).value, p)
  {
    hide Number, Count, Spells, SpellsCount;
    var a := NumberShape(line[4..]);
    var t1 := Number(line[4..]).value.1;
    var b := CountShape(t1);
    var t2 := Count(t1).value.1;
    var c := NumberShape(t2[2..]);
    var t3 := Number(t2[2..]).value.1;
    var d := CountShape(t3);
    var t4 := Count(t3).value.1;
    var end := t4[3..];
    p := Parts(a, b, c, d, end[..|end| - 1]);
    assert end == p.section + [LF];
    assert t4 == SPACE_AT + (p.section + [LF]);
    assert t2 == SPACE_PLUS + (c + t3);
    assert line == AT_MINUS + (a + t1);
  }

  // ---------------------------------------------------------------- Record lines

  predicate IndexOf(line: Bytes, oldBlob: Bytes, newBlob: Bytes, mode: Option<Mode>) {
    line == INDEX + oldBlob + DOTS + newBlob + (if mode.Some? then [SPACE] + ModeBytes(mode.value) else []) + [LF]
  }

  lemma ModeShape(s: Bytes)
    ensures ModeOf(s).Some? ==> s == ModeBytes(ModeOf(s).value)
  {
  }

  lemma IndexShape(line: Bytes)
    requires ParseIndex(line).Some?
    ensures var x := ParseIndex(line).value; IndexOf(line, x.0, x.1, x.2) && Hexadecimal(x.0) && Hexadecimal(x.1)
  {
    var x := ParseIndex(line).value;
    assert line[..6] == INDEX;
    if |line| == 96 {
      ModeShape(line[89..95]);
      assert line[88..95] == [SPACE] + line[89..95];
      assert line == line[..6] + line[6..46] + line[46..48] + line[48..88] + line[88..95] + line[95..];
      assert line[95..] == [LF];
    } else {
      assert line == line[..6] + line[6..46] + line[46..48] + line[48..88] + line[88..];
      assert line[88..] == [LF] && x.2 == None;
      assert INDEX + x.0 + DOTS + x.1 + [] == INDEX + x.0 + DOTS + x.1;
    }
  }

  /** The mode lines of a change of modes, of a new file, of a deleted one, or none. */
  predicate ModesOf(lines: seq<Bytes>, m: Modes) {
    match m.operation
    case Modify =>
      || (lines == [] && m.oldMode == None && m.newMode == None)
      || (m.oldMode.Some? && m.newMode.Some? && m.oldMode != m.newMode
          && lines == [OLD_MODE + ModeBytes(m.oldMode.value) + [LF], NEW_MODE + ModeBytes(m.newMode.value) + [LF]])
    case Add => m.oldMode == None && m.newMode.Some? && lines == [NEW_FILE + ModeBytes(m.newMode.value) + [LF]]
    case Delete => m.newMode == None && m.oldMode.Some? && lines == [DELETED_FILE + ModeBytes(m.oldMode.value) + [LF]]
  }

  lemma ModeLine(lines: seq<Bytes>, i: nat, marker: Bytes)
    requires AllLines(lines) && i <= |lines| && ParseMode(lines, i, marker).Ok? && LF !in marker
    ensures var r := ParseMode(lines, i, marker).value;
      if r.0.Some? then i < |lines| && r.1 == i + 1 && lines[i] == marker + ModeBytes(r.0.value) + [LF]
      else r.1 == i
  {
    var r := ParseMode(lines, i, marker).value;
    if r.0.Some? {
      var line, n := lines[i], |lines[i]|;
      assert IsLine(line);
      ModeShape(Inner(line, |marker|));
      assert line[..|marker|] == marker;
      LongLine(line, marker);
      assert line == marker + line[|marker|..n - 1] + [LF];
    }
  }

  lemma NoLineEnds()
    ensures LF !in OLD_MODE && LF !in NEW_MODE && LF !in NEW_FILE && LF !in DELETED_FILE
  {
  }

  lemma ModesShape(lines: seq<Bytes>, i: nat)
    requires AllLines(lines) && i <= |lines| && ParseModes(lines, i).Ok?
    ensures var r := ParseModes(lines, i).value; ModesOf(lines[i..r.1], r.0)
  {
    hide ParseMode, ModeBytes;
    NoLineEnds();
    hide OLD_MODE, NEW_MODE, NEW_FILE, DELETED_FILE, AllLines;
    ModeLine(lines, i, OLD_MODE);
    var a := ParseMode(lines, i, OLD_MODE).value;
    ModeLine(lines, a.1, NEW_MODE);
    var b := ParseMode(lines, a.1, NEW_MODE).value;
    ModeLine(lines, b.1, NEW_FILE);
    var c := ParseMode(lines, b.1, NEW_FILE).value;
    ModeLine(lines, c.1, DELETED_FILE);
    var d := ParseMode(lines, c.1, DELETED_FILE).value;
    FewLines(lines, i, d.1);
  }

  lemma FewLines(lines: seq<Bytes>, i: nat, j: nat)
    requires i <= j <= |lines|
    ensures j == i ==> lines[i..j] == []
    ensures j == i + 1 ==> lines[i..j] == [lines[i]]
    ensures j == i + 2 ==> lines[i..j] == [lines[i], lines[i + 1]]
  {
  }

  /** The first line of a record: both spellings of its name, of one length. */
  predicate PathLineOf(line: Bytes, a: Bytes, b: Bytes) {
    line == DIFF_GIT + a + [SPACE] + b + [LF] && |a| == |b|
  }

  lemma PathShape(line: Bytes) returns (a: Bytes, b: Bytes)
    requires IsLine(line) && ParsePath(line).Ok?
    ensures PathLineOf(line, a, b)
    ensures PathValue(a, PREFIX_A) == ParsePath(line) && PathValue(b, PREFIX_B) == ParsePath(line)
  {
    hide PathValue;
    var header := Inner(line, 11);
    var midpoint := |header| / 2;
    a, b := header[..midpoint], header[midpoint + 1..];
    hide PREFIX_A, PREFIX_B;
    assert header == a + [SPACE] + b;
    assert line[..11] == DIFF_GIT;
    hide DIFF_GIT;
    LineParts(line, 11);
    Regroup(DIFF_GIT, a + [SPACE], b);
    Regroup(DIFF_GIT, a, [SPACE]);
  }

  lemma LineParts(line: Bytes, n: nat)
    requires IsLine(line) && n < |line|
    ensures line == line[..n] + line[n..|line| - 1] + [LF]
  {
  }

  /** A marker line names the null device for an absent file, and else the path, perhaps with a TAB behind. */
  ghost predicate Names(s: Bytes, prefix: Bytes, absent: bool, path: Bytes) {
    if absent then s == DEV_NULL
    else exists name :: (s == name || s == name + [TAB]) && PathValue(name, prefix) == Ok(path)
  }

  ghost predicate MarkersOf(minus: Bytes, plus: Bytes, path: Bytes, operation: Operation) {
    exists s, t :: MarkersWith(minus, plus, path, operation, s, t)
  }

  ghost predicate MarkersWith(minus: Bytes, plus: Bytes, path: Bytes, operation: Operation, s: Bytes, t: Bytes) {
    && minus == MINUS + s + [LF] && plus == PLUS + t + [LF]
    && Names(s, PREFIX_A, operation == Add, path) && Names(t, PREFIX_B, operation == Delete, path)
  }

  lemma NamesFit(s: Bytes, prefix: Bytes, absent: bool, path: Bytes)
    requires MarkerFits(s, prefix, absent, path)
    ensures Names(s, prefix, absent, path)
  {
    hide PathValue;
    if !absent {
      var name := WithoutTab(s);
      assert s == name || s == name + [TAB];
    }
  }

  lemma MarkersShape(lines: seq<Bytes>, i: nat, path: Bytes, operation: Operation)
    requires AllLines(lines) && i < |lines| && MINUS <= lines[i] && ParseMarkers(lines, i, path, operation).Ok?
    ensures i + 2 <= |lines| && MarkersOf(lines[i], lines[i + 1], path, operation)
  {
    var a, b := lines[i], lines[i + 1];
    assert IsLine(a) && IsLine(b);
    MarkerLine(a, MINUS);
    MarkerLine(b, PLUS);
    hide PathValue, Names, MINUS, PLUS, Inner, IsLine, AllLines;
    NamesFit(Inner(a, 4), PREFIX_A, operation.Add?, path);
    NamesFit(Inner(b, 4), PREFIX_B, operation.Delete?, path);
    assert MarkersWith(a, b, path, operation, Inner(a, 4), Inner(b, 4));
  }

  lemma MarkerLine(line: Bytes, word: Bytes)
    requires IsLine(line) && word <= line && |word| == 4 && LF !in word
    ensures line == word + Inner(line, 4) + [LF]
  {
    LongLine(line, word);
    assert line[..4] == word;
    assert line == line[..4] + line[4..|line| - 1] + [line[|line| - 1]];
  }

  lemma LongLine(line: Bytes, word: Bytes)
    requires IsLine(line) && word <= line && LF !in word
    ensures |word| < |line|
  {
    assert word == line[..|word|];
    assert LF in line;
    assert |word| == |line| ==> word == line;
  }

  // ---------------------------------------------------------------- Records

  /** Lines `[i, j)` are a record of `f`; `x` is its index line, `m` what the lines before it say of modes. */
  ghost predicate RecordOf(lines: seq<Bytes>, i: nat, x: nat, j: nat, f: FileInfo, a: Bytes, b: Bytes, m: Modes, mode: Option<Mode>) {
    && i < x < j <= |lines|
    && PathLineOf(lines[i], a, b) && PathValue(a, PREFIX_A) == Ok(f.path) && PathValue(b, PREFIX_B) == Ok(f.path)
    && ModesOf(lines[i + 1..x], m) && m.operation == f.operation
    && IndexOf(lines[x], f.oldBlob, f.newBlob, mode) && Hexadecimal(f.oldBlob) && Hexadecimal(f.newBlob)
    && (if mode.Some? then m == Modes(None, None, Modify) && f.oldMode == mode && f.newMode == mode
        else f.oldMode == m.oldMode && f.newMode == m.newMode)
    && (if f.hunks == [] then j == x + 1 && Empty(f.operation, f.oldBlob, f.newBlob)
        else x + 3 < j && MarkersOf(lines[x + 1], lines[x + 2], f.path, f.operation) && HunksOf(lines, x + 3, j, f.hunks))
  }

  /** Lines `[i, j)` are the hunks, one after the other, each with its header line. */
  ghost predicate HunksOf(lines: seq<Bytes>, i: nat, j: nat, hunks: seq<HunkInfo>)
    decreases |hunks|
  {
    if hunks == [] then i == j
    else exists k: nat :: HunkAt(lines, i, k, hunks[0]) && HunksOf(lines, k, j, hunks[1..])
  }

  /** Lines `[i, k)` are the hunk: a header line, and as many lines as it declares. */
  ghost predicate HunkAt(lines: seq<Bytes>, i: nat, k: nat, h: HunkInfo) {
    && i < k <= |lines| && h.start == Offset(lines, i) && h.end == Offset(lines, k)
    && (exists p :: HeaderOf(lines[i], h.header, p))
    && BodyShape(lines, i + 1, k) && Declares(lines, i + 1, k, h.header.oldCount, h.header.newCount)
  }

  lemma {:induction false} HunksShape(lines: seq<Bytes>, i: nat, o: int, n: int)
    requires AllLines(lines) && i <= |lines| && ParseHunks(lines, i, o, n).Ok?
    ensures var r := ParseHunks(lines, i, o, n).value; HunksOf(lines, i, r.1, r.0) && (r.0 != [] ==> i < r.1)
    decreases |lines| - i
  {
    hide ParseHeader, ParseBody, HeaderOf, BodyShape, Declares, Offset;
    if i < |lines| && AT_AT <= lines[i] {
      var h, j, rest := HunksStep(lines, i, o, n);
      var p := HeaderShape(lines[i]);
      BodyExact(lines, i + 1, h.oldCount, h.newCount);
      HunksShape(lines, j, h.oldStart + h.oldCount, h.newStart + h.newCount);
      var info := HunkInfo(Offset(lines, i), Offset(lines, j), h);
      assert HunkAt(lines, i, j, info);
      assert ([info] + rest.0)[1..] == rest.0;
    } else {
      assert ParseHunks(lines, i, o, n) == Ok(([], i));
    }
  }

  /** Every record that is accepted has this shape. */
  lemma RecordShape(lines: seq<Bytes>, i: nat) returns (x: nat, a: Bytes, b: Bytes, m: Modes, mode: Option<Mode>)
    requires AllLines(lines) && i < |lines| && ParseFile(lines, i).Ok?
    ensures RecordOf(lines, i, x, ParseFile(lines, i).value.1, ParseFile(lines, i).value.0, a, b, m, mode)
  {
    hide ParseFile, ParsePath, ParseModes, ParseIndex, ParseHunks, ParseMarkers, PathValue, IndexOf, ModesOf, Hexadecimal, HunksOf,
         MarkersOf, PathLineOf, AllLines, Offset, ZERO_BLOB;
    var path, modes, blobs, h := FileStep(lines, i);
    LineIs(lines, i);
    a, b := PathShape(lines[i]);
    ModesShape(lines, i + 1);
    x, m := modes.1, modes.0;
    mode := ParseIndex(lines[x]).value.2;
    IndexShape(lines[x]);
    ModesNone(lines[i + 1..x], m);
    if x + 1 < |lines| && MINUS <= lines[x + 1] {
      MarkersShape(lines, x + 1, path, blobs.2.operation);
      HunksShape(lines, x + 3, -1, -1);
    }
  }

  lemma LineIs(lines: seq<Bytes>, i: nat)
    requires AllLines(lines) && i < |lines|
    ensures IsLine(lines[i])
  {
  }

  lemma ModesNone(lines: seq<Bytes>, m: Modes)
    requires ModesOf(lines, m)
    ensures m.oldMode == None && m.newMode == None ==> m.operation == Modify
  {
  }

  ghost predicate Recorded(lines: seq<Bytes>, f: FileInfo) {
    exists i, x, j, a, b, m, mode :: RecordOf(lines, i, x, j, f, a, b, m, mode)
      && f.start == Offset(lines, i) && f.end == Offset(lines, j)
  }

  lemma {:induction false} FilesShape(lines: seq<Bytes>, i: nat, seen: set<Bytes>)
    requires AllLines(lines) && i <= |lines| && ParseFiles(lines, i, seen).Ok?
    ensures forall k :: 0 <= k < |ParseFiles(lines, i, seen).value| ==> Recorded(lines, ParseFiles(lines, i, seen).value[k])
    decreases |lines| - i
  {
    hide ParseFile, RecordOf, Offset, AllLines;
    if i < |lines| {
      var f := ParseFile(lines, i).value;
      var x, a, b, m, mode := RecordShape(lines, i);
      FileSpan(lines, i);
      assert Recorded(lines, f.0);
      FilesShape(lines, f.1, seen + {f.0.path});
    }
  }

  lemma FileSpan(lines: seq<Bytes>, i: nat)
    requires i < |lines| && ParseFile(lines, i).Ok?
    ensures ParseFile(lines, i).value.0.start == Offset(lines, i)
    ensures ParseFile(lines, i).value.0.end == Offset(lines, ParseFile(lines, i).value.1)
  {
    hide ParsePath, ParseModes, ParseBlobs, ParseChange, Offset;
    var path, modes, blobs, h := FileStep(lines, i);
  }

  /** So an accepted payload is a list of such records, end to end. */
  lemma AcceptedShape(payload: Bytes)
    requires Inventoried(payload).Ok?
    ensures var files := Inventoried(payload).value;
      && Tiles(files, 0, |payload|) && forall k :: 0 <= k < |files| ==> Recorded(Lines(payload), files[k])
  {
    hide Recorded, Tiles, FileExact, DistinctPaths, ParseFiles, AllLines, Text;
    AcceptedIsExact(payload);
    FilesShape(Lines(payload), 0, {});
  }
}
