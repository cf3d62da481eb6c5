/**
 The patch of an untracked file, line by line: it is a printed diff that adds the file, so the
 masker hides line k of the file in its patch exactly if the manifest documents it there.
 */
module PatchMeaning {
  import opened Common
  import opened Utf8
  import opened Splitter
  import opened DiffText
  import opened Masker
  import MaskerLimits
  import opened MaskerMeaning
  import opened PatchRender

  // ---------------------------------------------------------------- The lines of a patch

  function Missing(): Row {
    Remark(Ascii(" No newline at end of file"))
  }

  /** What follows the row of a line: LF and CR LF end it, CR does with the LF behind it, other breaks leave that LF a row of its own. */
  function Remarks(line: Line): seq<Row> {
    if line.ending == [10] || line.ending == [13, 10] then []
    else if line.ending == [] || line.ending == [13] then [Missing()]
    else [Blank, Missing()]
  }

  function Rows(lines: seq<Line>): seq<Row> {
    if lines == [] then [] else [New(lines[0].text)] + Remarks(lines[0]) + Rows(lines[1..])
  }

  /** The change that adds a file of these lines. */
  function Adds(oldPath: Chars, newPath: Chars, executable: bool, name: Option<Bytes>, lines: seq<Line>): Change {
    Change(oldPath + Ascii(" ") + newPath, [Ascii(if executable then "new file mode 100755" else "new file mode 100644")],
           Ascii("/dev/null"), newPath, None, name, [Hunk(0, 0, 1, |lines|, false, [], Rows(lines))])
  }

  function PatchLines(oldPath: Chars, newPath: Chars, executable: bool, name: Option<Bytes>, lines: seq<Line>): seq<Chars> {
    var c := Adds(oldPath, newPath, executable, name, lines);
    if lines == [] then [Ascii("diff --git ") + c.header] + c.notes + [Ascii("index 0000000..e69de29")]
    else DiffLines([c])
  }

  // ---------------------------------------------------------------- Cutting the text of a patch

  lemma Cut(text: Chars, ending: Chars, rest: Chars)
    requires Unbroken(text) && ending != [] && IsBreak(ending[0]) && BreakLength(ending + rest) == |ending|
    ensures Texts(SplitLines(text + ending + rest)) == [text] + Texts(SplitLines(rest))
  {
    hide SplitLines;
    FirstLine(text, ending, rest);
    assert ([Line(text, ending)] + SplitLines(rest))[1..] == SplitLines(rest);
  }

  function Laid(lines: seq<Chars>): Chars {
    if lines == [] then [] else lines[0] + [NL] + Laid(lines[1..])
  }

  lemma {:induction false} LaidLines(lines: seq<Chars>, rest: Chars)
    requires forall k :: 0 <= k < |lines| ==> Unbroken(lines[k])
    ensures Texts(SplitLines(Laid(lines) + rest)) == lines + Texts(SplitLines(rest))
  {
    hide SplitLines, Unbroken;
    if lines == [] {
      assert [] + rest == rest && lines + Texts(SplitLines(rest)) == Texts(SplitLines(rest));
    } else {
      LaidLines(lines[1..], rest);
      Regroup(lines[0] + [NL], Laid(lines[1..]), rest);
      Cut(lines[0], [NL], Laid(lines[1..]) + rest);
      assert lines == [lines[0]] + lines[1..];
      Regroup([lines[0]], lines[1..], Texts(SplitLines(rest)));
    }
  }

  /** A line as `splitlines` cuts it. */
  predicate WholeLine(line: Line) {
    Unbroken(line.text) && (line.ending in [[], [13, 10]] || (|line.ending| == 1 && IsBreak(line.ending[0])))
  }

  lemma {:induction false} WholeLines(s: Chars)
    ensures forall k :: 0 <= k < |SplitLines(s)| ==> WholeLine(SplitLines(s)[k])
    decreases |s|
  {
    if s != [] {
      hide SplitLines;
      var n, e := FirstOf(s);
      WholeLines(s[e..]);
      var rest := SplitLines(s[e..]);
      if e == n + 2 {
        assert s[n..e] == [13, 10];
      } else if e == n + 1 {
        assert s[n..e] == [s[n]];
      }
      forall k | 0 <= k < |SplitLines(s)| ensures WholeLine(SplitLines(s)[k]) {
        if k > 0 {
          assert WholeLine(rest[k - 1]);
        }
      }
    }
  }

  lemma MissingLine()
    ensures NoNewline() == [NL] + RowLine(Missing()) + [NL] && Unbroken(RowLine(Missing()))
  {
  }

  /** Behind a line and its break, the mark is a line of its own. */
  lemma MarkBehind(text: Chars, ending: Chars, mark: Chars, rest: Chars)
    requires Unbroken(text) && Unbroken(mark) && ending != [] && IsBreak(ending[0])
    requires BreakLength(ending + (mark + [NL] + rest)) == |ending|
    ensures Texts(SplitLines(text + ending + (mark + [NL] + rest))) == [text] + ([mark] + Texts(SplitLines(rest)))
  {
    hide SplitLines, Unbroken;
    Cut(text, ending, mark + [NL] + rest);
    Cut(mark, [NL], rest);
  }

  lemma EndedRows(line: Line, rest: Chars)
    requires WholeLine(line) && (line.ending == [10] || line.ending == [13, 10])
    ensures Texts(SplitLines(RenderLine(line) + rest)) == [[43] + line.text] + Texts(SplitLines(rest))
  {
    hide SplitLines;
    assert RenderLine(line) == [43] + line.text + line.ending;
    Cut([43] + line.text, line.ending, rest);
  }

  lemma MarkedRows(line: Line, rest: Chars)
    requires WholeLine(line) && (line.ending == [] || line.ending == [13])
    ensures Texts(SplitLines(RenderLine(line) + rest)) == [[43] + line.text] + ([RowLine(Missing())] + Texts(SplitLines(rest)))
  {
    hide SplitLines, NoNewline, RowLine, Missing;
    var added, mark := [43] + line.text, RowLine(Missing());
    MissingLine();
    assert RenderLine(line) + rest == added + (line.ending + [NL]) + (mark + [NL] + rest);
    MarkBehind(added, line.ending + [NL], mark, rest);
  }

  lemma BrokenRows(line: Line, rest: Chars)
    requires WholeLine(line) && |line.ending| == 1 && line.ending[0] != NL && line.ending[0] != CR
    ensures Texts(SplitLines(RenderLine(line) + rest)) ==
            [[43] + line.text] + ([[]] + ([RowLine(Missing())] + Texts(SplitLines(rest))))
  {
    hide SplitLines, NoNewline, RowLine, Missing;
    var added, mark := [43] + line.text, RowLine(Missing());
    MissingLine();
    var more := [] + [NL] + (mark + [NL] + rest);
    assert RenderLine(line) + rest == added + line.ending + more;
    Cut(added, line.ending, more);
    MarkBehind([], [NL], mark, rest);
  }

  /** One line of the file and the rows that it makes. */
  lemma LineRows(line: Line, rest: Chars)
    requires WholeLine(line)
    ensures Texts(SplitLines(RenderLine(line) + rest)) == RowLines([New(line.text)] + Remarks(line)) + Texts(SplitLines(rest))
  {
    var row, mark, more := New(line.text), Missing(), Texts(SplitLines(rest));
    NewLine(line.text);
    RowsAre(row, mark, more);
    hide SplitLines, RenderLine, RowLine, RowLines, Missing, WholeLine;
    if line.ending == [10] || line.ending == [13, 10] {
      EndedRows(line, rest);
      assert [row] + [] == [row];
    } else if line.ending == [] || line.ending == [13] {
      MarkedRows(line, rest);
    } else {
      OneBreak(line);
      BrokenRows(line, rest);
    }
  }

  lemma NewLine(text: Chars)
    ensures RowLine(New(text)) == [43] + text
  {
  }

  lemma RowsAre(a: Row, b: Row, more: seq<Chars>)
    ensures RowLines([a]) + more == [RowLine(a)] + more
    ensures RowLines([a] + [b]) + more == [RowLine(a)] + ([RowLine(b)] + more)
    ensures RowLines([a] + [Blank, b]) + more == [RowLine(a)] + ([[]] + ([RowLine(b)] + more))
  {
    TwoRows(a, b);
    ThreeRows(a, b);
    hide RowLine, RowLines;
    assert [RowLine(a), [], RowLine(b)] == [RowLine(a)] + [[]] + [RowLine(b)];
  }

  lemma OneBreak(line: Line)
    requires WholeLine(line) && line.ending !in [[], [10], [13], [13, 10]]
    ensures |line.ending| == 1 && line.ending[0] != NL && line.ending[0] != CR
  {
    if |line.ending| == 1 {
      assert line.ending == [line.ending[0]];
    }
  }

  lemma TwoRows(a: Row, b: Row)
    ensures RowLines([a]) == [RowLine(a)] && RowLines([a] + [b]) == [RowLine(a)] + [RowLine(b)]
  {
    assert [a][1..] == [] && ([a] + [b])[1..] == [b] && [b][1..] == [];
  }

  lemma ThreeRows(a: Row, b: Row)
    ensures RowLines([a] + [Blank, b]) == [RowLine(a), [], RowLine(b)]
  {
    var all := [a] + [Blank, b];
    assert all[1..] == [Blank, b] && [Blank, b][1..] == [b] && [b][1..] == [];
    assert RowLines([b]) == [RowLine(b)];
  }

  lemma {:induction false} RowLinesJoin(a: seq<Row>, b: seq<Row>)
    ensures RowLines(a + b) == RowLines(a) + RowLines(b)
  {
    if a == [] {
      assert a + b == b;
    } else {
      RowLinesJoin(a[1..], b);
      assert (a + b)[1..] == a[1..] + b;
    }
  }

  lemma {:induction false} BodyRows(lines: seq<Line>)
    requires forall k :: 0 <= k < |lines| ==> WholeLine(lines[k])
    ensures Texts(SplitLines(RenderLines(lines))) == RowLines(Rows(lines))
  {
    hide SplitLines, RenderLine, Remarks, WholeLine;
    if lines == [] {
      NoLines();
    } else {
      BodyRows(lines[1..]);
      assert [lines[0]] + lines[1..] == lines;
      RenderCons(lines[0], lines[1..]);
      LineRows(lines[0], RenderLines(lines[1..]));
      RowLinesJoin([New(lines[0].text)] + Remarks(lines[0]), Rows(lines[1..]));
    }
  }

  lemma Words()
    ensures Ascii("\nnew file mode ") == [NL] + Ascii("new file mode ") && Ascii("\n@@ -0,0 +1,") == [NL] + Ascii("@@ -0,0 +1,")
    ensures Ascii("100755\n") == Ascii("100755") + [NL] && Ascii("100644\n") == Ascii("100644") + [NL]
    ensures Ascii("index 0000000..e69de29\n") == Ascii("index 0000000..e69de29") + [NL] && Ascii(" @@\n") == Ascii(" @@") + [NL]
    ensures Ascii("--- /dev/null\n+++ ") == Ascii("--- /dev/null") + [NL] + Ascii("+++ ")
    ensures Ascii("new file mode ") + Ascii("100755") == Ascii("new file mode 100755")
    ensures Ascii("new file mode ") + Ascii("100644") == Ascii("new file mode 100644")
    ensures Ascii("--- ") + Ascii("/dev/null") == Ascii("--- /dev/null")
  {
  }

  lemma Laid1(a: Chars)
    ensures Laid([a]) == a + [NL]
  {
    assert [a][1..] == [] && a + [NL] + [] == a + [NL];
  }

  lemma LaidMore(a: Chars, rest: seq<Chars>)
    ensures Laid([a] + rest) == a + [NL] + Laid(rest)
  {
    assert ([a] + rest)[1..] == rest;
  }

  /** The first two lines of the head. */
  function First(oldPath: Chars, newPath: Chars): Chars {
    Ascii("diff --git ") + (oldPath + Ascii(" ") + newPath)
  }

  function Mode(executable: bool): Chars {
    Ascii(if executable then "new file mode 100755" else "new file mode 100644")
  }

  function Range(count: nat): Chars {
    Ascii("@@ -0,0 +1,") + Digits(count) + Ascii(" @@")
  }

  function Opening(oldPath: Chars, newPath: Chars, executable: bool, count: nat): seq<Chars> {
    [First(oldPath, newPath), Mode(executable), Ascii("--- /dev/null"), Ascii("+++ ") + newPath, Range(count)]
  }

  lemma ModeLine(executable: bool)
    ensures Ascii("\nnew file mode ") + Ascii(if executable then "100755\n" else "100644\n") == [NL] + Mode(executable) + [NL]
  {
    Words();
    hide Ascii;
  }

  lemma EmptyHead(oldPath: Chars, newPath: Chars, executable: bool)
    ensures Head(oldPath, newPath, executable, true, 0) == Laid([First(oldPath, newPath), Mode(executable), Ascii("index 0000000..e69de29")])
  {
    Words();
    ModeLine(executable);
    FrontOf(oldPath, newPath, Ascii("\nnew file mode "), Ascii(if executable then "100755\n" else "100644\n"));
    hide Ascii, Mode, First;
    LaidThree(First(oldPath, newPath), Mode(executable), Ascii("index 0000000..e69de29"));
  }

  lemma LaidThree(one: Chars, two: Chars, three: Chars)
    ensures Laid([one, two, three]) == one + ([NL] + two + [NL]) + (three + [NL])
  {
    Laid1(three);
    LaidMore(two, [three]);
    LaidMore(one, [two, three]);
    assert [two] + [three] == [two, three] && [one] + [two, three] == [one, two, three];
    hide Laid;
  }

  lemma FrontOf(oldPath: Chars, newPath: Chars, a: Chars, b: Chars)
    ensures Ascii("diff --git ") + oldPath + Ascii(" ") + newPath + a + b == First(oldPath, newPath) + (a + b)
  {
    hide Ascii;
  }

  lemma FullHead(oldPath: Chars, newPath: Chars, executable: bool, count: nat)
    ensures Head(oldPath, newPath, executable, false, count) ==
            Laid(Opening(oldPath, newPath, executable, count))
  {
    Words();
    ModeLine(executable);
    var one, two, three, four, five := First(oldPath, newPath), Mode(executable), Ascii("--- /dev/null"), Ascii("+++ ") + newPath, Range(count);
    Laid1(five);
    LaidMore(four, [five]);
    LaidMore(three, [four, five]);
    LaidMore(two, [three, four, five]);
    LaidMore(one, [two, three, four, five]);
    FiveLines(one, two, three, four, five);
    BackOf(newPath, count);
    hide Ascii, Mode, Laid, Digits, Range, First;
    FrontOf(oldPath, newPath, Ascii("\nnew file mode "), Ascii(if executable then "100755\n" else "100644\n"));
  }

  lemma FiveLines(one: Chars, two: Chars, three: Chars, four: Chars, five: Chars)
    ensures [four] + [five] == [four, five] && [three] + [four, five] == [three, four, five]
    ensures [two] + [three, four, five] == [two, three, four, five]
    ensures [one] + [two, three, four, five] == [one, two, three, four, five]
  {
  }

  lemma BackOf(newPath: Chars, count: nat)
    ensures Ascii("--- /dev/null\n+++ ") + newPath + Ascii("\n@@ -0,0 +1,") + Digits(count) + Ascii(" @@\n") ==
            Ascii("--- /dev/null") + [NL] + (Ascii("+++ ") + newPath + [NL] + (Range(count) + [NL]))
  {
    Words();
    hide Ascii, Digits;
  }

  lemma HeadUnbroken(oldPath: Chars, newPath: Chars, executable: bool, count: nat)
    requires Unbroken(oldPath) && Unbroken(newPath)
    ensures Unbroken(First(oldPath, newPath)) && Unbroken(Mode(executable)) && Unbroken(Ascii("--- /dev/null"))
    ensures Unbroken(Ascii("+++ ") + newPath) && Unbroken(Range(count)) && Unbroken(Ascii("index 0000000..e69de29"))
    ensures forall k :: 0 <= k < 5 ==> Unbroken(Opening(oldPath, newPath, executable, count)[k])
  {
    hide Digits;
  }

  lemma OneChange(c: Change, h: Hunk)
    requires c.hunks == [h]
    ensures DiffLines([c]) == FileLines(c) + ([Heading(h)] + RowLines(h.rows))
  {
    hide FileLines, Heading, RowLines;
    assert [h][1..] == [] && [c][1..] == [] && HunkLines([]) == [] && DiffLines([]) == [];
    assert HunkLines([h]) == [Heading(h)] + RowLines(h.rows);
  }

  lemma AddsLines(oldPath: Chars, newPath: Chars, executable: bool, name: Option<Bytes>, lines: seq<Line>)
    ensures FileLines(Adds(oldPath, newPath, executable, name, lines)) ==
            [First(oldPath, newPath), Mode(executable), Ascii("--- /dev/null"), Ascii("+++ ") + newPath]
  {
    Words();
    hide Ascii, Rows;
  }

  lemma AddsHead(oldPath: Chars, newPath: Chars, executable: bool, name: Option<Bytes>, lines: seq<Line>)
    requires lines != []
    ensures PatchLines(oldPath, newPath, executable, name, lines) ==
            Opening(oldPath, newPath, executable, |lines|) + RowLines(Rows(lines))
  {
    var c := Adds(oldPath, newPath, executable, name, lines);
    AddsLines(oldPath, newPath, executable, name, lines);
    RangeIs(|lines|, Rows(lines));
    OneChange(c, Hunk(0, 0, 1, |lines|, false, [], Rows(lines)));
    OpeningIs(oldPath, newPath, executable, |lines|, RowLines(Rows(lines)));
    hide Rows, Range, DiffLines, FileLines, Heading, RowLines, Ascii, First, Mode, Opening;
  }

  lemma OpeningIs(oldPath: Chars, newPath: Chars, executable: bool, count: nat, rows: seq<Chars>)
    ensures [First(oldPath, newPath), Mode(executable), Ascii("--- /dev/null"), Ascii("+++ ") + newPath] + ([Range(count)] + rows) ==
            Opening(oldPath, newPath, executable, count) + rows
  {
    hide First, Mode, Ascii, Range;
    var four := [First(oldPath, newPath), Mode(executable), Ascii("--- /dev/null"), Ascii("+++ ") + newPath];
    assert four + [Range(count)] == Opening(oldPath, newPath, executable, count);
    Regroup(four, [Range(count)], rows);
  }

  lemma RangeIs(count: nat, rows: seq<Row>)
    ensures Heading(Hunk(0, 0, 1, count, false, [], rows)) == Range(count)
  {
    assert Digits(0) == Ascii("0") && Digits(1) == Ascii("1");
    assert Ascii("@@ -") + Ascii("0") + (Ascii(",") + Ascii("0")) + Ascii(" +") + Ascii("1") + Ascii(",") == Ascii("@@ -0,0 +1,");
    hide Digits, Ascii;
  }

  lemma EmptyPatch(oldPath: Chars, newPath: Chars, executable: bool, name: Option<Bytes>)
    requires Unbroken(oldPath) && Unbroken(newPath)
    ensures Texts(SplitLines(Head(oldPath, newPath, executable, true, 0))) == PatchLines(oldPath, newPath, executable, name, [])
  {
    HeadUnbroken(oldPath, newPath, executable, 0);
    EmptyHead(oldPath, newPath, executable);
    NoLines();
    hide Ascii, Unbroken, Laid, SplitLines, Head;
    var all := [First(oldPath, newPath), Mode(executable), Ascii("index 0000000..e69de29")];
    LaidLines(all, []);
    assert Laid(all) + [] == Laid(all) && all + [] == all;
  }

  lemma FullPatch(oldPath: Chars, newPath: Chars, executable: bool, name: Option<Bytes>, lines: seq<Line>)
    requires Unbroken(oldPath) && Unbroken(newPath) && lines != [] && forall k :: 0 <= k < |lines| ==> WholeLine(lines[k])
    ensures Texts(SplitLines(Head(oldPath, newPath, executable, false, |lines|) + RenderLines(lines))) ==
            PatchLines(oldPath, newPath, executable, name, lines)
  {
    HeadUnbroken(oldPath, newPath, executable, |lines|);
    BodyRows(lines);
    FullHead(oldPath, newPath, executable, |lines|);
    AddsHead(oldPath, newPath, executable, name, lines);
    hide *;
    LaidLines(Opening(oldPath, newPath, executable, |lines|),
              RenderLines(lines));
  }

  /** The lines of the patch of a text: the change that adds its lines. */
  lemma PatchLinesAre(oldPath: Chars, newPath: Chars, executable: bool, name: Option<Bytes>, payload: Chars)
    requires 0 !in payload && Unbroken(oldPath) && Unbroken(newPath)
    ensures var patch := Patch(oldPath, newPath, executable, payload);
      patch.Ok? && Texts(SplitLines(patch.value)) == PatchLines(oldPath, newPath, executable, name, SplitLines(payload))
  {
    WholeLines(payload);
    if payload == [] {
      NoLines();
      assert RenderLines([]) == [];
      EmptyPatch(oldPath, newPath, executable, name);
      hide Head, SplitLines, PatchLines;
      assert Head(oldPath, newPath, executable, true, 0) + [] == Head(oldPath, newPath, executable, true, 0);
    } else {
      NoneOrMore(payload);
      hide SplitLines, Head, RenderLines, WholeLine, Unbroken, PatchLines;
      FullPatch(oldPath, newPath, executable, name, SplitLines(payload));
    }
  }

  lemma NoneOrMore(payload: Chars)
    ensures SplitLines(payload) == [] <==> payload == []
  {
  }

  // ---------------------------------------------------------------- What the masker shows of it

  /** An added line, as it is shown. */
  function Revealed(documented: Documented, name: Option<Bytes>, n: nat, text: Chars): Chars {
    if Documents(documented, name, n, text) then Ascii("DOCUMENTED_SYNTHETIC_FIXTURE") else Ascii("+") + text
  }

  /** Line by line from number `n` on: hidden exactly if it is documented there. */
  function ShownBody(documented: Documented, name: Option<Bytes>, n: nat, lines: seq<Line>): seq<Chars>
    decreases |lines|
  {
    if lines == [] then []
    else
      [Revealed(documented, name, n, lines[0].text)] + RowLines(Remarks(lines[0])) + ShownBody(documented, name, n + 1, lines[1..])
  }

  lemma RowShown(documented: Documented, name: Option<Bytes>, n: nat, text: Chars, more: seq<Row>)
    ensures ShownFrom(documented, None, name, 0, n, [New(text)] + more) ==
            [Revealed(documented, name, n, text)] + ShownFrom(documented, None, name, 0, n + 1, more)
  {
    hide Documents;
    assert ([New(text)] + more)[1..] == more;
  }

  lemma {:induction false} RemarksShown(documented: Documented, name: Option<Bytes>, n: nat, remarks: seq<Row>, rest: seq<Row>)
    requires forall k :: 0 <= k < |remarks| ==> remarks[k].Blank? || remarks[k].Remark?
    ensures ShownFrom(documented, None, name, 0, n, remarks + rest) == RowLines(remarks) + ShownFrom(documented, None, name, 0, n, rest)
  {
    hide RowLine;
    if remarks == [] {
      assert remarks + rest == rest;
    } else {
      RemarksShown(documented, name, n, remarks[1..], rest);
      assert (remarks + rest)[1..] == remarks[1..] + rest;
    }
  }

  lemma {:induction false} BodyShown(documented: Documented, name: Option<Bytes>, n: nat, lines: seq<Line>)
    ensures ShownFrom(documented, None, name, 0, n, Rows(lines)) == ShownBody(documented, name, n, lines)
    decreases |lines|
  {
    if lines != [] {
      var row, remarks, more := New(lines[0].text), Remarks(lines[0]), Rows(lines[1..]);
      BodyShown(documented, name, n + 1, lines[1..]);
      RemarksShown(documented, name, n + 1, remarks, more);
      hide ShownFrom, Remarks, Documents, Ascii;
      Regroup([row], remarks, more);
      RowShown(documented, name, n, row.text, remarks + more);
      Regroup([Revealed(documented, name, n, row.text)], RowLines(remarks), ShownBody(documented, name, n + 1, lines[1..]));
    }
  }

  lemma NewFileQuiet(executable: bool)
    ensures Quiet(Ascii(if executable then "new file mode 100755" else "new file mode 100644"))
  {
    var line := Ascii(if executable then "new file mode 100755" else "new file mode 100644");
    assert line[0] == 110;
    MaskerLimits.StartsElsewhere(line, "diff --git ");
    MaskerLimits.StartsElsewhere(line, "--- ");
    MaskerLimits.StartsElsewhere(line, "+++ ");
    MaskerLimits.StartsElsewhere(line, "@@");
  }

  lemma NullIsNone(tables: Tables)
    ensures Unquote(tables, Ascii("/dev/null"), OLD) == Ok(None)
  {
    assert Ascii("/dev/null") == [47, 100, 101, 118, 47, 110, 117, 108, 108];
    EncodeAscii(Ascii("/dev/null"));
  }

  lemma AddsValid(tables: Tables, oldPath: Chars, newPath: Chars, executable: bool, name: Bytes, lines: seq<Line>)
    requires Unquote(tables, newPath, NEW) == Ok(Some(name))
    ensures ValidDiff(tables, [Adds(oldPath, newPath, executable, Some(name), lines)])
  {
    NewFileQuiet(executable);
    NullIsNone(tables);
    assert |Digits(0)| == 1 && |Digits(1)| == 1;
    hide Unquote, Quiet, Ascii, Rows, Digits;
  }

  /** What is shown of a patch: its head, and the lines of the file. */
  function ShownPatch(documented: Documented, oldPath: Chars, newPath: Chars, executable: bool, name: Bytes, lines: seq<Line>): seq<Chars> {
    Opening(oldPath, newPath, executable, |lines|) + ShownBody(documented, Some(name), 1, lines)
  }

  lemma OneShown(documented: Documented, c: Change, h: Hunk)
    requires c.hunks == [h]
    ensures ShownDiff(documented, [c]) == FileLines(c) + ([Heading(h)] + ShownRows(documented, c.p, c.q, h))
  {
    hide FileLines, Heading, ShownRows;
    assert [h][1..] == [] && [c][1..] == [] && ShownHunks(documented, c.p, c.q, []) == [] && ShownDiff(documented, []) == [];
    assert ShownHunks(documented, c.p, c.q, [h]) == [Heading(h)] + ShownRows(documented, c.p, c.q, h);
  }

  lemma AddsShown(documented: Documented, oldPath: Chars, newPath: Chars, executable: bool, name: Bytes, lines: seq<Line>)
    ensures ShownDiff(documented, [Adds(oldPath, newPath, executable, Some(name), lines)]) ==
            ShownPatch(documented, oldPath, newPath, executable, name, lines)
  {
    var c, h := Adds(oldPath, newPath, executable, Some(name), lines), Hunk(0, 0, 1, |lines|, false, [], Rows(lines));
    AddsLines(oldPath, newPath, executable, Some(name), lines);
    RangeIs(|lines|, Rows(lines));
    OneShown(documented, c, h);
    ShownFromStart(documented, None, Some(name), h);
    BodyShown(documented, Some(name), 1, lines);
    OpeningIs(oldPath, newPath, executable, |lines|, ShownBody(documented, Some(name), 1, lines));
    hide Rows, Range, ShownDiff, ShownRows, ShownFrom, ShownBody, FileLines, Heading, Ascii, First, Mode, Opening;
  }

  /** In the patch of a file, line k is hidden exactly if the manifest documents it as line k of the file. */
  lemma PatchIsMasked(tables: Tables, documented: Documented, path: Option<Bytes>, oldPath: Chars, newPath: Chars, executable: bool,
                      name: Bytes, payload: Chars)
    requires payload != [] && 0 !in payload && Unbroken(oldPath) && Unbroken(newPath)
    requires documented != map[] && Unquote(tables, newPath, NEW) == Ok(Some(name))
    ensures Masked(tables, documented, path, true, Patch(oldPath, newPath, executable, payload).value) ==
            Ok(Join(ShownPatch(documented, oldPath, newPath, executable, name, SplitLines(payload))))
  {
    hide Unquote, Masked, SplitLines, ShownPatch, Join, Adds, Patch, DiffLines, ShownDiff, Unbroken;
    var lines, c := SplitLines(payload), Adds(oldPath, newPath, executable, Some(name), SplitLines(payload));
    PatchLinesAre(oldPath, newPath, executable, Some(name), payload);
    NoneOrMore(payload);
    AddsValid(tables, oldPath, newPath, executable, name, lines);
    AddsShown(documented, oldPath, newPath, executable, name, lines);
    PrintedIsMasked(tables, documented, path, [c], Patch(oldPath, newPath, executable, payload).value);
  }
}
