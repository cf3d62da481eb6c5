/**
 Which lines the masker hides, said of diffs as they are printed: a line of a hunk is shown as
 the mark exactly if the manifest documents its text at its line of the old or the new file.
 Lines are counted from the starts that the hunk headers print.
 */
module MaskerMeaning {
  import opened Common
  import opened Utf8
  import opened Splitter
  import opened DiffText
  import opened Masker
  import opened MaskerLimits
  import opened PatchRender

  // ---------------------------------------------------------------- Printed diffs

  /** A line of a hunk: in both files, in the old one, in the new one, about the line before, or empty. */
  datatype Row = Kept(text: Chars) | Gone(text: Chars) | New(text: Chars) | Remark(text: Chars) | Blank

  /** `brief` if counts of one are left out. */
  datatype Hunk = Hunk(
    oldStart: nat, oldCount: nat, newStart: nat, newCount: nat, brief: bool, section: Chars, rows: seq<Row>)

  /** `a` and `b` are the printed names, `p` and `q` the names that they stand for, if any; `notes` are lines on modes and blobs. */
  datatype Change = Change(
    header: Chars, notes: seq<Chars>, a: Chars, b: Chars, p: Option<Bytes>, q: Option<Bytes>, hunks: seq<Hunk>)

  function Counted(n: nat, brief: bool): Chars {
    if n == 1 && brief then [] else Ascii(",") + Digits(n)
  }

  function Heading(h: Hunk): Chars {
    Ascii("@@ -") + Digits(h.oldStart) + Counted(h.oldCount, h.brief) + Ascii(" +") + Digits(h.newStart) + Counted(h.newCount, h.brief)
    + Ascii(" @@") + h.section
  }

  function RowLine(row: Row): Chars {
    match row
    case Kept(text) => Ascii(" ") + text
    case Gone(text) => Ascii("-") + text
    case New(text) => Ascii("+") + text
    case Remark(text) => Ascii("\\") + text
    case Blank => []
  }

  function RowLines(rows: seq<Row>): seq<Chars> {
    if rows == [] then [] else [RowLine(rows[0])] + RowLines(rows[1..])
  }

  function HunkLines(hunks: seq<Hunk>): seq<Chars> {
    if hunks == [] then [] else [Heading(hunks[0])] + RowLines(hunks[0].rows) + HunkLines(hunks[1..])
  }

  function FileLines(c: Change): seq<Chars> {
    [Ascii("diff --git ") + c.header] + c.notes + [Ascii("--- ") + c.a, Ascii("+++ ") + c.b]
  }

  function DiffLines(changes: seq<Change>): seq<Chars> {
    if changes == [] then [] else FileLines(changes[0]) + HunkLines(changes[0].hunks) + DiffLines(changes[1..])
  }

  /** No line of a hunk, and no header. */
  predicate Quiet(line: Chars) {
    !Starts(line, "diff --git ") && !Starts(line, "--- ") && !Starts(line, "+++ ") && !Starts(line, "@@")
  }

  /** The names are read as they should be, at least one of them is a file, and the numbers convert. */
  predicate ValidChange(tables: Tables, c: Change) {
    && (forall k :: 0 <= k < |c.notes| ==> Quiet(c.notes[k]))
    && Unquote(tables, c.a, OLD) == Ok(c.p) && Unquote(tables, c.b, NEW) == Ok(c.q) && (c.p.Some? || c.q.Some?)
    && forall k :: 0 <= k < |c.hunks| ==> |Digits(c.hunks[k].oldStart)| <= 4300 && |Digits(c.hunks[k].newStart)| <= 4300
  }

  // ---------------------------------------------------------------- What is shown of them

  predicate Documents(documented: Documented, path: Option<Bytes>, number: nat, text: Chars) {
    && path.Some? && path.value in documented && number in documented[path.value]
    && documented[path.value][number] == Sha(text)
  }

  /** How many of the first `k` rows are lines of the old file. */
  function OldBefore(rows: seq<Row>, k: nat): nat
    requires k <= |rows|
  {
    if k == 0 then 0 else OldBefore(rows, k - 1) + (if rows[k - 1].Kept? || rows[k - 1].Gone? then 1 else 0)
  }

  function NewBefore(rows: seq<Row>, k: nat): nat
    requires k <= |rows|
  {
    if k == 0 then 0 else NewBefore(rows, k - 1) + (if rows[k - 1].Kept? || rows[k - 1].New? then 1 else 0)
  }

  /** Row `k` is documented: a new line at its place in the new file, others at theirs in the old one, if there is one. */
  predicate Hidden(documented: Documented, p: Option<Bytes>, q: Option<Bytes>, h: Hunk, k: nat)
    requires k < |h.rows|
  {
    var o, n := h.oldStart + OldBefore(h.rows, k), h.newStart + NewBefore(h.rows, k);
    match h.rows[k]
    case New(text) => Documents(documented, q, n, text)
    case Gone(text) => Documents(documented, p, o, text)
    case Kept(text) => Documents(documented, if p.Some? then p else q, if o > 0 then o else n, text)
    case _ => false
  }

  /** Row `k` as it is shown. */
  function RowShown(documented: Documented, p: Option<Bytes>, q: Option<Bytes>, h: Hunk, k: nat): Chars
    requires k < |h.rows|
  {
    if Hidden(documented, p, q, h, k) then Ascii("DOCUMENTED_SYNTHETIC_FIXTURE") else RowLine(h.rows[k])
  }

  function ShownRows(documented: Documented, p: Option<Bytes>, q: Option<Bytes>, h: Hunk): seq<Chars> {
    seq(|h.rows|, k requires 0 <= k < |h.rows| => RowShown(documented, p, q, h, k))
  }

  function ShownHunks(documented: Documented, p: Option<Bytes>, q: Option<Bytes>, hunks: seq<Hunk>): seq<Chars> {
    if hunks == [] then []
    else [Heading(hunks[0])] + ShownRows(documented, p, q, hunks[0]) + ShownHunks(documented, p, q, hunks[1..])
  }

  function ShownDiff(documented: Documented, changes: seq<Change>): seq<Chars> {
    if changes == [] then []
    else
      FileLines(changes[0]) + ShownHunks(documented, changes[0].p, changes[0].q, changes[0].hunks)
      + ShownDiff(documented, changes[1..])
  }

  // ---------------------------------------------------------------- Headings are read back

  lemma {:induction false} DigitsValue(tables: Tables, n: nat)
    ensures Value(tables, Digits(n)) == n
  {
    if n >= 10 {
      DigitsValue(tables, n / 10);
      var s := Digits(n);
      assert s[..|s| - 1] == Digits(n / 10) && s[|s| - 1] == 48 + n % 10;
    }
  }

  /** Behind `front`, the digits of `n` end where something else follows. */
  lemma NumberBehind(tables: Tables, front: Chars, n: nat, rest: Chars)
    requires rest != [] && DigitOf(tables, rest[0]).None?
    ensures var s := front + Digits(n) + rest;
      && AfterNumber(tables, s, |front|) == Some(|front| + |Digits(n)|)
      && s[|front|..|front| + |Digits(n)|] == Digits(n)
  {
    hide Digits;
    var s := front + Digits(n) + rest;
    forall k | |front| <= k < |front| + |Digits(n)| ensures DigitOf(tables, s[k]).Some? {
      assert s[k] == Digits(n)[k - |front|];
    }
    assert s[|front| + |Digits(n)|] == rest[0];
    DigitsAre(tables, s, |front|, |front| + |Digits(n)|);
  }

  lemma CountBehind(tables: Tables, front: Chars, n: nat, brief: bool, rest: Chars)
    requires rest != [] && rest[0] == 32
    ensures var s := front + Counted(n, brief) + rest; AfterCount(tables, s, |front|) == Some(|front| + |Counted(n, brief)|)
    ensures (Counted(n, brief) + rest)[0] == 32 || (Counted(n, brief) + rest)[0] == 44
  {
    hide Digits, AfterNumber;
    var s := front + Counted(n, brief) + rest;
    if n == 1 && brief {
      assert s[|front|] == 32;
    } else {
      Regroup(front, Ascii(","), Digits(n));
      assert s[|front|] == Counted(n, brief)[0] == 44;
      NumberBehind(tables, front + Ascii(","), n, rest);
    }
  }

  lemma WordBehind(front: Chars, word: string, rest: Chars)
    ensures AfterWord(front + Ascii(word) + rest, |front|, word) == Some(|front| + |word|)
  {
    var s := front + Ascii(word) + rest;
    assert s[|front|..|front| + |word|] == Ascii(word);
  }

  /** A heading up to its new start, and the rest of it. */
  function OldFront(h: Hunk): Chars {
    Ascii("@@ -") + Digits(h.oldStart) + Counted(h.oldCount, h.brief)
  }

  function NewBack(h: Hunk): Chars {
    Digits(h.newStart) + (Counted(h.newCount, h.brief) + (Ascii(" @@") + h.section))
  }

  lemma HeadingTwo(h: Hunk)
    ensures Heading(h) == OldFront(h) + Ascii(" +") + NewBack(h)
    ensures Heading(h) == OldFront(h) + (Ascii(" +") + NewBack(h))
  {
    hide Digits, Counted;
    var f4 := OldFront(h) + Ascii(" +");
    var d, c, w := Digits(h.newStart), Counted(h.newCount, h.brief), Ascii(" @@");
    Regroup(f4 + d + c, w, h.section);
    Regroup(f4 + d, c, w + h.section);
    Regroup(f4, d, c + (w + h.section));
    Regroup(OldFront(h), Ascii(" +"), NewBack(h));
  }

  lemma OldPart(tables: Tables, h: Hunk)
    ensures var s, b := Heading(h), 4 + |Digits(h.oldStart)|;
      && |OldFront(h)| == b + |Counted(h.oldCount, h.brief)| < |s|
      && AfterWord(s, 0, "@@ -") == Some(4) && AfterNumber(tables, s, 4) == Some(b) && s[4..b] == Digits(h.oldStart)
      && AfterCount(tables, s, b) == Some(|OldFront(h)|)
  {
    HeadingTwo(h);
    hide Heading, Digits, Counted, AfterWord, AfterNumber, AfterCount, NewBack;
    var w, d, c, t := Ascii("@@ -"), Digits(h.oldStart), Counted(h.oldCount, h.brief), Ascii(" +") + NewBack(h);
    assert t[0] == 32;
    Regroup(w + d, c, t);
    Regroup(w, d, c + t);
    NoFront(w, d + (c + t));
    CountBehind(tables, w + d, h.oldCount, h.brief, t);
    NumberBehind(tables, w, h.oldStart, c + t);
    WordBehind([], "@@ -", d + (c + t));
  }

  /** The heading up to its second count. */
  function NewFront(h: Hunk): Chars {
    OldFront(h) + Ascii(" +") + Digits(h.newStart)
  }

  lemma NewTwo(h: Hunk)
    ensures Heading(h) == NewFront(h) + Counted(h.newCount, h.brief) + (Ascii(" @@") + h.section)
    ensures Heading(h) == NewFront(h) + (Counted(h.newCount, h.brief) + (Ascii(" @@") + h.section))
    ensures Heading(h) == NewFront(h) + Counted(h.newCount, h.brief) + Ascii(" @@") + h.section
    ensures |NewFront(h)| == |OldFront(h)| + 2 + |Digits(h.newStart)|
    ensures (Ascii(" @@") + h.section)[0] == 32
  {
    hide Digits, Counted, OldFront;
    HeadingFront(h);
    Regroup(NewFront(h) + Counted(h.newCount, h.brief), Ascii(" @@"), h.section);
    Regroup(NewFront(h), Counted(h.newCount, h.brief), Ascii(" @@") + h.section);
  }

  lemma HeadingFront(h: Hunk)
    ensures Heading(h) == NewFront(h) + Counted(h.newCount, h.brief) + Ascii(" @@") + h.section
  {
    hide Digits, Counted;
  }

  lemma NewStart(tables: Tables, h: Hunk)
    ensures var s, a := Heading(h), |OldFront(h)| + 2; var b := a + |Digits(h.newStart)|;
      && b <= |s| && AfterWord(s, |OldFront(h)|, " +") == Some(a)
      && AfterNumber(tables, s, a) == Some(b) && s[a..b] == Digits(h.newStart)
  {
    hide Heading, OldFront, Digits, Counted, AfterWord, AfterNumber, AfterCount, NewBack;
    HeadingTwo(h);
    NewTwo(h);
    WordBehind(OldFront(h), " +", NewBack(h));
    CountSpace(h);
    NumberBehind(tables, OldFront(h) + Ascii(" +"), h.newStart, Counted(h.newCount, h.brief) + (Ascii(" @@") + h.section));
  }

  lemma CountSpace(h: Hunk)
    ensures var t := Counted(h.newCount, h.brief) + (Ascii(" @@") + h.section); t != [] && (t[0] == 32 || t[0] == 44)
  {
    hide Digits;
  }

  lemma NewEnd(tables: Tables, h: Hunk)
    ensures var s, b := Heading(h), |NewFront(h)|; var c := b + |Counted(h.newCount, h.brief)|;
      && c + 3 <= |s| && b <= |s| && AfterCount(tables, s, b) == Some(c) && AfterWord(s, c, " @@") == Some(c + 3)
  {
    hide Heading, NewFront, Digits, Counted, AfterWord, AfterNumber, AfterCount;
    NewTwo(h);
    CountBehind(tables, NewFront(h), h.newCount, h.brief, Ascii(" @@") + h.section);
    WordBehind(NewFront(h) + Counted(h.newCount, h.brief), " @@", h.section);
  }

  lemma NoFront(a: Chars, b: Chars)
    ensures [] + a + b == a + b
  {
    assert [] + a == a;
  }

  /** A printed heading is read as its two starts. */
  lemma HeadingReads(tables: Tables, h: Hunk)
    requires |Digits(h.oldStart)| <= 4300 && |Digits(h.newStart)| <= 4300
    ensures ReadHeader(tables, Heading(h)) == Some((h.oldStart, h.newStart)) && Starts(Heading(h), "@@")
  {
    hide Heading, OldFront, NewFront, Digits, Counted, AfterWord, AfterNumber, AfterCount, Value, Starts;
    OldPart(tables, h);
    NewStart(tables, h);
    NewEnd(tables, h);
    NewTwo(h);
    DigitsValue(tables, h.oldStart);
    DigitsValue(tables, h.newStart);
    HeadingStarts(h);
  }

  lemma HeadingStarts(h: Hunk)
    ensures Starts(Heading(h), "@@")
  {
    hide Digits, Counted;
    var s := Heading(h);
    assert s[0] == 64 && s[1] == 64;
    assert s[..2] == Ascii("@@");
  }

  // ---------------------------------------------------------------- Lines are shown as said

  /** What a list of lines shows, behind lines already shown. */
  ghost function Behind(shown: seq<Chars>, r: Result<seq<Chars>>): Result<seq<Chars>> {
    if r.Ok? then Ok(shown + r.value) else Err
  }

  /** In a hunk at lines `o` and `n` of the two files. */
  function In(p: Option<Bytes>, q: Option<Bytes>, o: nat, n: nat): Place {
    Place(p, q, o, n, true)
  }

  function Next(o: nat, row: Row): nat {
    if row.Kept? || row.Gone? then o + 1 else o
  }

  function NextNew(n: nat, row: Row): nat {
    if row.Kept? || row.New? then n + 1 else n
  }

  /** Whether a row at lines `o` and `n` is hidden. */
  predicate HiddenAt(documented: Documented, p: Option<Bytes>, q: Option<Bytes>, o: nat, n: nat, row: Row) {
    match row
    case New(text) => Documents(documented, q, n, text)
    case Gone(text) => Documents(documented, p, o, text)
    case Kept(text) => Documents(documented, if p.Some? then p else q, if o > 0 then o else n, text)
    case _ => false
  }

  lemma RowWords(row: Row)
    ensures var line := RowLine(row);
      && !Starts(line, "diff --git ") && !Starts(line, "@@")
      && (Starts(line, "+") <==> row.New?) && (Starts(line, "-") <==> row.Gone?) && (Starts(line, " ") <==> row.Kept?)
      && (!row.Blank? ==> From(line, 1) == row.text)
  {
    var line := RowLine(row);
    if row.Blank? {
      BlankStarts();
      return;
    }
    var c := if row.Kept? then " " else if row.Gone? then "-" else if row.New? then "+" else "\\";
    assert line == Ascii(c) + row.text;
    StartsWith(c, row.text);
    assert line[0] == c[0] as int;
    if row.Remark? || !row.Kept? { StartsElsewhere(line, " "); }
    if !row.Gone? { StartsElsewhere(line, "-"); }
    if !row.New? { StartsElsewhere(line, "+"); }
    StartsElsewhere(line, "diff --git ");
    StartsElsewhere(line, "@@");
  }

  lemma BlankStarts()
    ensures forall word :: word in {"diff --git ", "@@", "+", "-", " "} ==> !Starts([], word)
  {
  }

  lemma OneRow(tables: Tables, documented: Documented, p: Option<Bytes>, q: Option<Bytes>, o: nat, n: nat, row: Row)
    requires p.Some? ==> p.value != []
    ensures DiffLine(tables, documented, In(p, q, o, n), RowLine(row)) ==
      Ok((In(p, q, Next(o, row), NextNew(n, row)), HiddenAt(documented, p, q, o, n, row)))
  {
    hide Starts, From, RowLine, Unquote, ReadHeader;
    RowWords(row);
  }

  function HiddenLine(documented: Documented, p: Option<Bytes>, q: Option<Bytes>, o: nat, n: nat, row: Row): Chars {
    if HiddenAt(documented, p, q, o, n, row) then Ascii("DOCUMENTED_SYNTHETIC_FIXTURE") else RowLine(row)
  }

  /** The rows from lines `o` and `n` on, as they are shown. */
  function ShownFrom(documented: Documented, p: Option<Bytes>, q: Option<Bytes>, o: nat, n: nat, rows: seq<Row>): seq<Chars>
    decreases |rows|
  {
    if rows == [] then []
    else [HiddenLine(documented, p, q, o, n, rows[0])]
         + ShownFrom(documented, p, q, Next(o, rows[0]), NextNew(n, rows[0]), rows[1..])
  }

  function FromRow(documented: Documented, p: Option<Bytes>, q: Option<Bytes>, h: Hunk, k: nat): seq<Chars>
    requires k <= |h.rows|
  {
    ShownFrom(documented, p, q, h.oldStart + OldBefore(h.rows, k), h.newStart + NewBefore(h.rows, k), h.rows[k..])
  }

  lemma FromRowNext(documented: Documented, p: Option<Bytes>, q: Option<Bytes>, h: Hunk, k: nat)
    requires k < |h.rows|
    ensures FromRow(documented, p, q, h, k) == [RowShown(documented, p, q, h, k)] + FromRow(documented, p, q, h, k + 1)
  {
    hide Documents, RowLine, HiddenAt, Hidden, Ascii;
    var o, n, rest := h.oldStart + OldBefore(h.rows, k), h.newStart + NewBefore(h.rows, k), h.rows[k..];
    assert rest[1..] == h.rows[k + 1..] && rest[0] == h.rows[k];
    assert Next(o, rest[0]) == h.oldStart + OldBefore(h.rows, k + 1);
    assert NextNew(n, rest[0]) == h.newStart + NewBefore(h.rows, k + 1);
    HiddenIs(documented, p, q, h, k);
  }

  lemma ShownRow(documented: Documented, p: Option<Bytes>, q: Option<Bytes>, h: Hunk, k: nat)
    requires k < |h.rows|
    ensures |ShownRows(documented, p, q, h)| == |h.rows|
    ensures ShownRows(documented, p, q, h)[k] == RowShown(documented, p, q, h, k)
  {
    hide RowShown;
  }

  lemma FromHere<T>(s: seq<T>, k: nat)
    requires k < |s|
    ensures s[k..] == [s[k]] + s[k + 1..]
  {
  }

  /** They are the same as counted from the hunk's starts. */
  lemma {:induction false} FromRowIs(documented: Documented, p: Option<Bytes>, q: Option<Bytes>, h: Hunk, k: nat)
    requires k <= |h.rows|
    ensures |ShownRows(documented, p, q, h)| == |h.rows|
    ensures FromRow(documented, p, q, h, k) == ShownRows(documented, p, q, h)[k..]
    decreases |h.rows| - k
  {
    FromRowEnd(documented, p, q, h);
    if k < |h.rows| {
      FromRowNext(documented, p, q, h, k);
      ShownRow(documented, p, q, h, k);
      hide *;
      FromRowIs(documented, p, q, h, k + 1);
      FromHere(ShownRows(documented, p, q, h), k);
    }
  }

  lemma FromRowEnd(documented: Documented, p: Option<Bytes>, q: Option<Bytes>, h: Hunk)
    ensures FromRow(documented, p, q, h, |h.rows|) == []
  {
  }

  lemma HiddenIs(documented: Documented, p: Option<Bytes>, q: Option<Bytes>, h: Hunk, k: nat)
    requires k < |h.rows|
    ensures HiddenAt(documented, p, q, h.oldStart + OldBefore(h.rows, k), h.newStart + NewBefore(h.rows, k), h.rows[k])
         == Hidden(documented, p, q, h, k)
  {
    hide Documents, OldBefore, NewBefore;
  }

  lemma ShownFromStart(documented: Documented, p: Option<Bytes>, q: Option<Bytes>, h: Hunk)
    ensures ShownFrom(documented, p, q, h.oldStart, h.newStart, h.rows) == ShownRows(documented, p, q, h)
  {
    assert h.rows[0..] == h.rows;
    assert FromRow(documented, p, q, h, 0) == ShownFrom(documented, p, q, h.oldStart, h.newStart, h.rows);
    hide *;
    FromRowIs(documented, p, q, h, 0);
  }

  lemma ReadCons(tables: Tables, documented: Documented, p: Place, line: Chars, rest: seq<Chars>, next: Place, shown: Chars)
    requires exists masked :: DiffLine(tables, documented, p, line) == Ok((next, masked)) && shown == Shown(line, masked)
    ensures MaskedDiff(tables, documented, p, [line] + rest) == Behind([shown], MaskedDiff(tables, documented, next, rest))
  {
    hide DiffLine, Shown;
    assert ([line] + rest)[1..] == rest;
  }

  lemma BehindMore(a: seq<Chars>, b: seq<Chars>, r: Result<seq<Chars>>)
    ensures Behind(a, Behind(b, r)) == Behind(a + b, r)
  {
    if r.Ok? {
      Regroup(a, b, r.value);
    }
  }

  lemma BehindNone(r: Result<seq<Chars>>)
    ensures Behind([], r) == r
  {
    if r.Ok? {
      assert [] + r.value == r.value;
    }
  }

  /** Past the rows, somewhere in the hunk. */
  function Past(o: nat, n: nat, rows: seq<Row>): (nat, nat)
    decreases |rows|
  {
    if rows == [] then (o, n) else Past(Next(o, rows[0]), NextNew(n, rows[0]), rows[1..])
  }

  lemma {:induction false} RowsRead(tables: Tables, documented: Documented, p: Option<Bytes>, q: Option<Bytes>, o: nat, n: nat,
                                    rows: seq<Row>, rest: seq<Chars>)
    requires p.Some? ==> p.value != []
    ensures MaskedDiff(tables, documented, In(p, q, o, n), RowLines(rows) + rest) ==
      Behind(ShownFrom(documented, p, q, o, n, rows),
             MaskedDiff(tables, documented, In(p, q, Past(o, n, rows).0, Past(o, n, rows).1), rest))
    decreases |rows|
  {
    hide MaskedDiff, DiffLine, HiddenAt, RowLine, Behind;
    if rows == [] {
      assert RowLines(rows) + rest == rest;
      BehindNone(MaskedDiff(tables, documented, In(p, q, o, n), rest));
    } else {
      var row, o', n' := rows[0], Next(o, rows[0]), NextNew(n, rows[0]);
      OneRow(tables, documented, p, q, o, n, row);
      Regroup([RowLine(row)], RowLines(rows[1..]), rest);
      ReadCons(tables, documented, In(p, q, o, n), RowLine(row), RowLines(rows[1..]) + rest, In(p, q, o', n'),
               HiddenLine(documented, p, q, o, n, row));
      RowsRead(tables, documented, p, q, o', n', rows[1..], rest);
      BehindMore([HiddenLine(documented, p, q, o, n, row)], ShownFrom(documented, p, q, o', n', rows[1..]),
                 MaskedDiff(tables, documented, In(p, q, Past(o, n, rows).0, Past(o, n, rows).1), rest));
    }
  }

  /** The heading sets the line numbers. */
  lemma HeadingLine(tables: Tables, documented: Documented, place: Place, h: Hunk)
    requires HasPath(place) && |Digits(h.oldStart)| <= 4300 && |Digits(h.newStart)| <= 4300
    ensures DiffLine(tables, documented, place, Heading(h)) == Ok((In(place.oldPath, place.newPath, h.oldStart, h.newStart), false))
  {
    hide Heading, Starts, ReadHeader, Unquote, Digits;
    HeadingReads(tables, h);
    HeaderWords(Heading(h));
  }

  predicate Convertible(hunks: seq<Hunk>) {
    forall k :: 0 <= k < |hunks| ==> |Digits(hunks[k].oldStart)| <= 4300 && |Digits(hunks[k].newStart)| <= 4300
  }

  /** A place between hunks or files: whatever stands in it but the paths is set anew. */
  ghost predicate Leads(tables: Tables, documented: Documented, rest: seq<Chars>, shown: seq<Chars>) {
    forall place :: MaskedDiff(tables, documented, place, rest) == Ok(shown)
  }

  lemma {:induction false} HunksRead(tables: Tables, documented: Documented, place: Place, hunks: seq<Hunk>, rest: seq<Chars>,
                                     shown: seq<Chars>)
    requires HasPath(place) && (place.oldPath.Some? ==> place.oldPath.value != []) && Convertible(hunks)
    requires Leads(tables, documented, rest, shown)
    ensures MaskedDiff(tables, documented, place, HunkLines(hunks) + rest) ==
            Ok(ShownHunks(documented, place.oldPath, place.newPath, hunks) + shown)
    decreases |hunks|
  {
    hide MaskedDiff, DiffLine, ShownRows, Heading, RowLines, Digits, Shown, ShownFrom, Past;
    var p, q := place.oldPath, place.newPath;
    if hunks == [] {
      assert HunkLines(hunks) + rest == rest && [] + shown == shown;
    } else {
      var h, more := hunks[0], HunkLines(hunks[1..]) + rest;
      HeadingLine(tables, documented, place, h);
      Regroup([Heading(h)] + RowLines(h.rows), HunkLines(hunks[1..]), rest);
      Regroup([Heading(h)], RowLines(h.rows), more);
      HeadingShown(Heading(h));
      ReadCons(tables, documented, place, Heading(h), RowLines(h.rows) + more, In(p, q, h.oldStart, h.newStart), Heading(h));
      RowsRead(tables, documented, p, q, h.oldStart, h.newStart, h.rows, more);
      ShownFromStart(documented, p, q, h);
      var last := Past(h.oldStart, h.newStart, h.rows);
      HunksRead(tables, documented, In(p, q, last.0, last.1), hunks[1..], rest, shown);
      var tail := ShownHunks(documented, p, q, hunks[1..]);
      Regroup(ShownRows(documented, p, q, h), tail, shown);
      Regroup([Heading(h)], ShownRows(documented, p, q, h), tail + shown);
      Regroup([Heading(h)] + ShownRows(documented, p, q, h), tail, shown);
    }
  }

  lemma HeadingShown(line: Chars)
    ensures Shown(line, false) == line
  {
  }

  lemma FileWords(c: Change)
    ensures Starts(Ascii("diff --git ") + c.header, "diff --git ")
    ensures Starts(Ascii("--- ") + c.a, "--- ") && Starts(Ascii("+++ ") + c.b, "+++ ")
    ensures From(Ascii("--- ") + c.a, 4) == c.a && From(Ascii("+++ ") + c.b, 4) == c.b
  {
    StartsWith("diff --git ", c.header);
    StartsWith("--- ", c.a);
    StartsWith("+++ ", c.b);
  }

  lemma {:induction false} NotesRead(tables: Tables, documented: Documented, place: Place, notes: seq<Chars>, rest: seq<Chars>)
    requires !place.inHunk && forall k :: 0 <= k < |notes| ==> Quiet(notes[k])
    ensures MaskedDiff(tables, documented, place, notes + rest) == Behind(notes, MaskedDiff(tables, documented, place, rest))
    decreases |notes|
  {
    hide MaskedDiff, Starts, Unquote, ReadHeader, Matches, Behind;
    if notes == [] {
      assert notes + rest == rest;
      BehindNone(MaskedDiff(tables, documented, place, rest));
    } else {
      assert Quiet(notes[0]);
      assert notes == [notes[0]] + notes[1..];
      Regroup([notes[0]], notes[1..], rest);
      HeadingShown(notes[0]);
      assert DiffLine(tables, documented, place, notes[0]) == Ok((place, false));
      ReadCons(tables, documented, place, notes[0], notes[1..] + rest, place, notes[0]);
      NotesRead(tables, documented, place, notes[1..], rest);
      BehindMore([notes[0]], notes[1..], MaskedDiff(tables, documented, place, rest));
    }
  }

  lemma UnquotedNamed(tables: Tables, text: Chars, side: Byte)
    ensures Unquote(tables, text, side).Ok? && Unquote(tables, text, side).value.Some? ==> Unquote(tables, text, side).value.value != []
  {
  }

  /** Past the lines of the file the masker is at `at`, with the file's two names. */
  ghost predicate ReadTo(tables: Tables, documented: Documented, place: Place, c: Change, rest: seq<Chars>, at: Place) {
    && at.oldPath == c.p && at.newPath == c.q
    && MaskedDiff(tables, documented, place, FileLines(c) + rest) == Behind(FileLines(c), MaskedDiff(tables, documented, at, rest))
  }

  /** The lines of the file, wherever they stand, lead to its two names. */
  lemma FileRead(tables: Tables, documented: Documented, place: Place, c: Change, rest: seq<Chars>)
    requires ValidChange(tables, c)
    ensures exists at :: ReadTo(tables, documented, place, c, rest, at)
  {
    hide MaskedDiff, Starts, From, Unquote, ReadHeader, Matches, Behind;
    var first, minus, plus := Ascii("diff --git ") + c.header, Ascii("--- ") + c.a, Ascii("+++ ") + c.b;
    FileWords(c);
    HeaderWords(first);
    HeaderWords(minus);
    HeaderWords(plus);
    var one := place.(oldPath := None, newPath := None, inHunk := false);
    var two := one.(oldPath := c.p);
    var three := two.(newPath := c.q);
    assert DiffLine(tables, documented, place, first) == Ok((one, false));
    assert DiffLine(tables, documented, one, minus) == Ok((two, false));
    assert DiffLine(tables, documented, two, plus) == Ok((three, false));
    hide DiffLine;
    HeadingShown(first);
    HeadingShown(minus);
    HeadingShown(plus);
    var last := MaskedDiff(tables, documented, three, rest);
    FileParts(c, rest);
    ReadCons(tables, documented, place, first, c.notes + ([minus] + ([plus] + rest)), one, first);
    NotesRead(tables, documented, one, c.notes, [minus] + ([plus] + rest));
    ReadCons(tables, documented, one, minus, [plus] + rest, two, minus);
    ReadCons(tables, documented, two, plus, rest, three, plus);
    BehindMore([minus], [plus], last);
    BehindMore(c.notes, [minus] + [plus], last);
    BehindMore([first], c.notes + ([minus] + [plus]), last);
    assert ReadTo(tables, documented, place, c, rest, three);
  }

  lemma FileParts(c: Change, rest: seq<Chars>)
    ensures var first, minus, plus := Ascii("diff --git ") + c.header, Ascii("--- ") + c.a, Ascii("+++ ") + c.b;
      && FileLines(c) + rest == [first] + (c.notes + ([minus] + ([plus] + rest)))
      && FileLines(c) == [first] + (c.notes + ([minus] + [plus]))
  {
  }

  predicate ValidDiff(tables: Tables, changes: seq<Change>) {
    forall k :: 0 <= k < |changes| ==> ValidChange(tables, changes[k])
  }

  lemma FileLeads(tables: Tables, documented: Documented, c: Change, rest: seq<Chars>, shown: seq<Chars>)
    requires ValidChange(tables, c) && Leads(tables, documented, rest, shown)
    ensures Leads(tables, documented, FileLines(c) + (HunkLines(c.hunks) + rest),
                  FileLines(c) + (ShownHunks(documented, c.p, c.q, c.hunks) + shown))
  {
    hide MaskedDiff, FileLines, HunkLines, ShownHunks, Unquote;
    forall place
      ensures MaskedDiff(tables, documented, place, FileLines(c) + (HunkLines(c.hunks) + rest)) ==
              Ok(FileLines(c) + (ShownHunks(documented, c.p, c.q, c.hunks) + shown)) {
      FileRead(tables, documented, place, c, HunkLines(c.hunks) + rest);
      var at :| ReadTo(tables, documented, place, c, HunkLines(c.hunks) + rest, at);
      UnquotedNamed(tables, c.a, OLD);
      HunksRead(tables, documented, at, c.hunks, rest, shown);
    }
  }

  /**
   Of every printed diff of any number of files, the masker shows exactly what is said above,
   wherever in a diff it stands.
   */
  lemma {:induction false} PrintedIsShown(tables: Tables, documented: Documented, changes: seq<Change>)
    requires ValidDiff(tables, changes)
    ensures Leads(tables, documented, DiffLines(changes), ShownDiff(documented, changes))
    decreases |changes|
  {
    hide FileLines, HunkLines, ShownHunks, Leads, ValidChange;
    if changes == [] {
      NothingShown(tables, documented);
    } else {
      var c := changes[0];
      assert forall k :: 0 <= k < |changes[1..]| ==> changes[1..][k] == changes[k + 1];
      PrintedIsShown(tables, documented, changes[1..]);
      FileLeads(tables, documented, c, DiffLines(changes[1..]), ShownDiff(documented, changes[1..]));
      Regroup(FileLines(c), HunkLines(c.hunks), DiffLines(changes[1..]));
      Regroup(FileLines(c), ShownHunks(documented, c.p, c.q, c.hunks), ShownDiff(documented, changes[1..]));
    }
  }

  lemma NothingShown(tables: Tables, documented: Documented)
    ensures Leads(tables, documented, [], [])
  {
  }

  /** So the whole-text form, for every text that holds these lines. */
  lemma PrintedIsMasked(tables: Tables, documented: Documented, path: Option<Bytes>, changes: seq<Change>, value: Chars)
    requires ValidDiff(tables, changes) && documented != map[] && Texts(SplitLines(value)) == DiffLines(changes)
    ensures Masked(tables, documented, path, true, value) == Ok(Join(ShownDiff(documented, changes)))
  {
    hide MaskedDiff, ShownDiff, DiffLines, SplitLines, Join, Unquote;
    PrintedIsShown(tables, documented, changes);
  }

  /** And the streaming form, if no line is longer than the prefix. */
  lemma PrintedIsStreamed(tables: Tables, documented: Documented, path: Option<Bytes>, changes: seq<Change>)
    requires ValidDiff(tables, changes) && IsManifest(documented)
    requires forall k :: 0 <= k < |DiffLines(changes)| ==> |DiffLines(changes)[k]| <= CHUNK_BYTES
    ensures Streamed(tables, documented, path, true, START, 1, DiffLines(changes)) == Ok(Ended(ShownDiff(documented, changes)))
  {
    hide MaskedDiff, Streamed, ShownDiff, DiffLines, Unquote, IsManifest, AllSame;
    PrintedIsShown(tables, documented, changes);
    ShortSame(tables, documented, START, DiffLines(changes));
    AlikeSelf(documented, START);
    SameDiff(tables, documented, path, START, START, 1, DiffLines(changes));
    NeverDiffers(tables, documented, path, START, START, 1, DiffLines(changes));
  }

  // ---------------------------------------------------------------- Files

  /** In a file, line `number + k` is hidden exactly if it is documented there. */
  lemma {:induction false} FileIsShown(documented: Documented, path: Option<Bytes>, number: nat, lines: seq<Chars>, k: nat)
    requires k < |lines|
    ensures |MaskedLines(documented, path, number, lines)| == |lines|
    ensures MaskedLines(documented, path, number, lines)[k] ==
      if Documents(documented, path, number + k, lines[k]) then Ascii("DOCUMENTED_SYNTHETIC_FIXTURE") else lines[k]
    decreases |lines|
  {
    if |lines| > 1 {
      FileIsShown(documented, path, number + 1, lines[1..], if k == 0 then 0 else k - 1);
    }
  }

  /** A file of which the manifest documents no line is returned as it is; another has the breaks of its lines made LF. */
  lemma FileIsMasked(tables: Tables, documented: Documented, path: Bytes, value: Chars)
    ensures Masked(tables, documented, Some(path), false, value) ==
      Ok(if exists n :: path in documented && n in documented[path]
         then Join(MaskedLines(documented, Some(path), 1, Texts(SplitLines(value)))) else value)
  {
    hide MaskedLines, SplitLines, Join;
    if path in documented && documented[path] != map[] {
      var n :| n in documented[path];
    }
  }
}
