/**
 Diffs as edits: a hunk says how some lines of one file become those of another.  The parser
 reads the printed diff of every list of edits, with the two numbers of lines as its counts.
 */
module DiffEdits {
  import opened Common
  import opened Utf8
  import opened PathQuoting
  import opened DiffGrammar
  import opened DiffPrinter

  /** Text as bytes; every character is ASCII. */
  function Spell(s: string): Bytes
    requires forall k :: 0 <= k < |s| ==> s[k] < 128 as char
  {
    seq(|s|, k requires 0 <= k < |s| => s[k] as int)
  }

  // The words of the format.

  lemma FileWords()
    ensures DIFF_GIT == Spell("diff --git ") && INDEX == Spell("index ") && DOTS == Spell("..")
  {
  }

  lemma MarkerWords()
    ensures MINUS == Spell("--- ") && PLUS == Spell("+++ ") && PREFIX_A == Spell("a/") && PREFIX_B == Spell("b/") && DEV_NULL == Spell("/dev/null")
  {
  }

  lemma ModeWords()
    ensures OLD_MODE == Spell("old mode ") && NEW_MODE == Spell("new mode ") && MODE_644 == Spell("100644") && MODE_755 == Spell("100755")
  {
  }

  lemma KindWords()
    ensures NEW_FILE == Spell("new file mode ") && DELETED_FILE == Spell("deleted file mode ")
  {
  }

  lemma HunkWords()
    ensures AT_AT == Spell("@@ ") && AT_MINUS == Spell("@@ -") && SPACE_PLUS == Spell(" +") && SPACE_AT == Spell(" @@")
  {
  }

  lemma MarkWord()
    ensures NO_NEWLINE == Spell("\\ No newline at end of file\n")
  {
  }

  lemma ZeroBlob()
    ensures |ZERO_BLOB| == 40 && forall k :: 0 <= k < 40 ==> ZERO_BLOB[k] == '0' as int
  {
  }

  /** A line of a file; `bare` when the file ends behind it without a line end. */
  datatype FileLine = FileLine(text: Bytes, bare: bool)

  /** Keep the next line of both files, drop one of the old, or put in one of the new. */
  datatype Step = Keep | Drop | Put

  /** The steps lead from the old lines to the new ones. */
  predicate Leads(steps: seq<Step>, before: seq<FileLine>, after: seq<FileLine>)
    decreases |steps|
  {
    if steps == [] then before == [] && after == []
    else
      match steps[0]
      case Keep => before != [] && after != [] && before[0] == after[0] && Leads(steps[1..], before[1..], after[1..])
      case Drop => before != [] && Leads(steps[1..], before[1..], after)
      case Put => after != [] && Leads(steps[1..], before, after[1..])
  }

  /** The lines of the hunk: a space before what is kept, `-` before what is dropped, `+` before what is put in. */
  function Marked(steps: seq<Step>, before: seq<FileLine>, after: seq<FileLine>): seq<BodyLine>
    requires Leads(steps, before, after)
    decreases |steps|
  {
    if steps == [] then []
    else
      match steps[0]
      case Keep => [BodyLine(' ' as int, before[0].text, before[0].bare)] + Marked(steps[1..], before[1..], after[1..])
      case Drop => [BodyLine('-' as int, before[0].text, before[0].bare)] + Marked(steps[1..], before[1..], after)
      case Put => [BodyLine('+' as int, after[0].text, after[0].bare)] + Marked(steps[1..], before, after[1..])
  }

  predicate GoodLinesOf(lines: seq<FileLine>) {
    forall k :: 0 <= k < |lines| ==> Text(lines[k].text) && LF !in lines[k].text
  }

  /** The hunk's counts are the numbers of lines of the two files. */
  lemma {:induction false} MarkedCounts(steps: seq<Step>, before: seq<FileLine>, after: seq<FileLine>)
    requires Leads(steps, before, after) && GoodLinesOf(before) && GoodLinesOf(after)
    ensures OldCount(Marked(steps, before, after)) == |before| && NewCount(Marked(steps, before, after)) == |after|
    ensures forall k :: 0 <= k < |Marked(steps, before, after)| ==> ValidLine(Marked(steps, before, after)[k])
    ensures |Marked(steps, before, after)| == |steps|
    decreases |steps|
  {
    hide Text;
    if steps != [] {
      match steps[0]
      case Keep => MarkedCounts(steps[1..], before[1..], after[1..]);
      case Drop => MarkedCounts(steps[1..], before[1..], after);
      case Put => MarkedCounts(steps[1..], before, after[1..]);
      var body, rest := Marked(steps, before, after), Marked(steps, before, after)[1..];
      assert body == [body[0]] + rest;
    }
  }

  // ---------------------------------------------------------------- Whole diffs

  /** `before` stands from line `oldStart` on in the old file, `after` from `newStart` on in the new one. */
  datatype Edit = Edit(oldStart: nat, newStart: nat, section: Bytes, steps: seq<Step>, before: seq<FileLine>, after: seq<FileLine>)

  predicate ValidEdit(e: Edit) {
    && Leads(e.steps, e.before, e.after) && e.steps != [] && GoodLinesOf(e.before) && GoodLinesOf(e.after)
    && Text(e.section) && LF !in e.section
    && Convertible(Header(e.oldStart, |e.before|, e.newStart, |e.after|))
  }

  function HunkOf(e: Edit): Hunk
    requires ValidEdit(e)
  {
    Hunk(Header(e.oldStart, |e.before|, e.newStart, |e.after|), e.section, Marked(e.steps, e.before, e.after))
  }

  /** The edits lie in order, apart in both files. */
  predicate ValidEdits(edits: seq<Edit>, previousOld: int, previousNew: int)
    decreases |edits|
  {
    edits == [] || (ValidEdit(edits[0]) && previousOld <= edits[0].oldStart && previousNew <= edits[0].newStart
                    && ValidEdits(edits[1..], edits[0].oldStart + |edits[0].before|, edits[0].newStart + |edits[0].after|))
  }

  function HunksOf(edits: seq<Edit>, o: int, n: int): seq<Hunk>
    requires ValidEdits(edits, o, n)
    decreases |edits|
  {
    if edits == [] then []
    else [HunkOf(edits[0])] + HunksOf(edits[1..], edits[0].oldStart + |edits[0].before|, edits[0].newStart + |edits[0].after|)
  }

  lemma {:induction false} EditsAreHunks(edits: seq<Edit>, o: int, n: int)
    requires ValidEdits(edits, o, n)
    ensures ValidHunks(HunksOf(edits, o, n), o, n) && |HunksOf(edits, o, n)| == |edits|
    ensures forall k :: 0 <= k < |edits| ==> ValidEdit(edits[k]) && HunksOf(edits, o, n)[k] == HunkOf(edits[k])
    decreases |edits|
  {
    hide Convertible, Text, Marked, Leads;
    if edits != [] {
      var e := edits[0];
      MarkedCounts(e.steps, e.before, e.after);
      EditsAreHunks(edits[1..], e.oldStart + |e.before|, e.newStart + |e.after|);
      var hunks := HunksOf(edits, o, n);
      assert hunks[1..] == HunksOf(edits[1..], e.oldStart + |e.before|, e.newStart + |e.after|);
    }
  }

  /** What the parser finds of one edit. */
  ghost predicate Finds(info: HunkInfo, e: Edit) {
    info.header == Header(e.oldStart, |e.before|, e.newStart, |e.after|)
  }

  lemma {:induction false} DescribedFinds(edits: seq<Edit>, o: int, n: int, from: nat)
    requires ValidEdits(edits, o, n)
    ensures var infos := Described(HunksOf(edits, o, n), from);
            |infos| == |edits| && forall k :: 0 <= k < |edits| ==> Finds(infos[k], edits[k])
    decreases |edits|
  {
    hide ValidEdit, HunkLines;
    if edits != [] {
      var e, hunks := edits[0], HunksOf(edits, o, n);
      assert hunks[1..] == HunksOf(edits[1..], e.oldStart + |e.before|, e.newStart + |e.after|);
      DescribedFinds(edits[1..], e.oldStart + |e.before|, e.newStart + |e.after|, from + Size(HunkLines(hunks[0])));
    }
  }

  /** What the parser finds of a file: its path, and every edit where it stands, with as many lines as it has there. */
  ghost predicate FindsFile(files: seq<FileInfo>, path: Bytes, edits: seq<Edit>) {
    && |files| == 1 && files[0].path == path && |files[0].hunks| == |edits|
    && forall k :: 0 <= k < |edits| ==> Finds(files[0].hunks[k], edits[k])
  }

  /** The printed diff of edits to one file is accepted, and the parser finds them. */
  lemma EditsAreRead(high: bool, r: Record, edits: seq<Edit>)
    requires ValidEdits(edits, -1, -1) && r.hunks == HunksOf(edits, -1, -1)
    requires ValidRecord(high, r) && |Print(high, [r])| <= MAX_TOTAL_BYTES
    ensures Inventoried(Print(high, [r])).Ok? && FindsFile(Inventoried(Print(high, [r])).value, r.path, edits)
  {
    hide ValidRecord, Print, Inventoried, Size, RecordLines, HeadLines, HunksOf, ValidEdits, Finds;
    OneRecord(high, r);
    PrintedIsRead(high, [r]);
    DescribedFinds(edits, -1, -1, Size(HeadLines(high, r)));
  }

  lemma OneRecord(high: bool, r: Record)
    requires ValidRecord(high, r)
    ensures ValidRecords(high, [r], {}) && Summary(high, [r], 0) == [RecordInfo(high, r, 0)]
    ensures RecordInfo(high, r, 0).hunks == Described(r.hunks, Size(HeadLines(high, r))) && RecordInfo(high, r, 0).path == r.path
  {
    hide ValidRecord, Size, RecordLines, HeadLines, Described;
    assert [r][1..] == [];
  }
}
