/**
 Diffs that one form of the masker refuses and the other does not: names and headers that are
 cut, in either direction, and header lines without a manifest.
 */
module MaskerLimits {
  import opened Common
  import opened Utf8
  import opened Splitter
  import opened DiffText
  import opened Masker

  // ---------------------------------------------------------------- Runs, line by line

  lemma MaskedCons(tables: Tables, documented: Documented, p: Place, line: Chars, rest: seq<Chars>)
    requires DiffLine(tables, documented, p, line).Ok?
    ensures MaskedDiff(tables, documented, p, [line] + rest).Ok? ==
            MaskedDiff(tables, documented, DiffLine(tables, documented, p, line).value.0, rest).Ok?
  {
    hide DiffLine;
    assert ([line] + rest)[1..] == rest;
  }

  lemma StreamedCons(tables: Tables, documented: Documented, path: Option<Bytes>, p: Place, number: nat, line: Chars,
                     rest: seq<Chars>)
    ensures var e := StreamedLine(tables, documented, path, true, p, number, line);
            Streamed(tables, documented, path, true, p, number, [line] + rest).Ok? ==
            (e.Ok? && Streamed(tables, documented, path, true, e.value.0, number + 1, rest).Ok?)
  {
    hide StreamedLine;
    assert ([line] + rest)[1..] == rest;
  }

  // ---------------------------------------------------------------- Names

  /** The spelling of a name that is quoted. */
  function Spelled(side: Byte, name: Bytes): Bytes {
    PathQuoting.Quoted(PathQuoting.Escape([side, PathQuoting.SLASH] + name))
  }

  predicate Visible(s: Chars) {
    forall k :: 0 <= k < |s| ==> 0x20 <= s[k] <= 0x7E
  }

  lemma {:induction false} EscapeVisible(s: Bytes)
    ensures Visible(PathQuoting.Escape(s))
  {
    if s != [] {
      EscapeVisible(s[1..]);
    }
  }

  lemma SpelledVisible(side: Byte, name: Bytes)
    ensures Visible(Spelled(side, name))
    ensures Encode(Spelled(side, name)) == Spelled(side, name)
  {
    EscapeVisible([side, PathQuoting.SLASH] + name);
    EncodeAscii(Spelled(side, name));
  }

  /** Outside a hunk, the streaming form refuses a long name line exactly if it refuses the cut name. */
  lemma NameLine(tables: Tables, documented: Documented, p: Place, number: nat, text: Chars)
    requires !p.inHunk && |text| + 4 > CHUNK_BYTES
    ensures StreamedLine(tables, documented, None, true, p, number, Ascii("--- ") + text).Ok? <==>
            !Refused(tables, text[..CHUNK_BYTES - 4], OLD)
  {
    hide Starts, Unquote, Entry;
    var line := Ascii("--- ") + text;
    StartsWith("--- ", text);
    SamePrefixStarts(line);
    HeaderWords(line);
    assert From(Prefix(line), 4) == text[..CHUNK_BYTES - 4];
  }

  /** A name whose spelling is too long for the prefix is refused by the streaming form, whatever it is. */
  lemma LongSpelling(tables: Tables, documented: Documented, p: Place, number: nat, name: Bytes)
    requires !p.inHunk && |Spelled(OLD, name)| + 4 > CHUNK_BYTES
    ensures StreamedLine(tables, documented, None, true, p, number, Ascii("--- ") + Spelled(OLD, name)).Err?
  {
    hide StreamedLine;
    var n := CHUNK_BYTES - 4;
    SpelledVisible(OLD, name);
    EncodeAscii(Spelled(OLD, name)[..n]);
    PathQuoting.QuotedCut(tables.paths, [OLD, PathQuoting.SLASH] + name, n, OLD);
    NameLine(tables, documented, p, number, Spelled(OLD, name));
  }

  /** The diff of a file whose name is printed as `a` and `b`. */
  function FileDiff(a: Chars, b: Chars, hunks: seq<Chars>): seq<Chars> {
    [Ascii("diff --git ") + a + [32] + b, Ascii("index 587be6b..975fbec 100644"), Ascii("--- ") + a, Ascii("+++ ") + b] + hunks
  }

  /** The diff of a file whose name is printed in quotes. */
  function QuotedFile(name: Bytes, hunks: seq<Chars>): seq<Chars> {
    FileDiff(Spelled(OLD, name), Spelled(NEW, name), hunks)
  }

  lemma WholeName(tables: Tables, side: Byte, name: Bytes)
    requires PathQuoting.IsSide(side) && ValidUtf8(name) && PathQuoting.SafePath(name)
    ensures Unquote(tables, Spelled(side, name), side) == Ok(Some(name))
  {
    var value := [side, PathQuoting.SLASH] + name;
    SpelledVisible(side, name);
    PathQuoting.UnquoteQuoted(tables.paths, value, side);
    PathQuoting.PrefixedUtf8(side, name);
    assert value[2..] == name;
  }

  /** The places that the lines before the header lead to. */
  function Opened(name: Bytes): Place {
    START.(oldPath := Some(name), newPath := Some(name))
  }

  lemma StartsWith(word: string, rest: Chars)
    ensures Starts(Ascii(word) + rest, word) && From(Ascii(word) + rest, |word|) == rest
  {
    assert (Ascii(word) + rest)[..|word|] == Ascii(word);
  }

  lemma StartsElsewhere(line: Chars, word: string)
    requires line != [] && word != "" && line[0] != word[0] as int
    ensures !Starts(line, word)
  {
    assert Ascii(word)[0] == word[0] as int;
  }

  /** The file lines are read whole without a refusal. */
  lemma FileLines(tables: Tables, documented: Documented, name: Bytes, a: Chars, b: Chars, hunks: seq<Chars>)
    requires Unquote(tables, a, OLD) == Ok(Some(name)) && Unquote(tables, b, NEW) == Ok(Some(name))
    ensures MaskedDiff(tables, documented, START, FileDiff(a, b, hunks)).Ok? ==
            MaskedDiff(tables, documented, Opened(name), hunks).Ok?
  {
    hide Starts, From, MaskedDiff, Unquote;
    var lines := FileDiff(a, b, hunks);
    StartsWith("diff --git ", a + [32] + b);
    assert Ascii("diff --git ") + (a + [32] + b) == lines[0];
    ReadLine(tables, documented, lines, 0, START, START);
    IndexLine(lines[1]);
    ReadLine(tables, documented, lines, 1, START, START);
    StartsWith("--- ", a);
    StartsWith("+++ ", b);
    HeaderWords(lines[2]);
    HeaderWords(lines[3]);
    ReadLine(tables, documented, lines, 2, START, START.(oldPath := Some(name)));
    ReadLine(tables, documented, lines, 3, START.(oldPath := Some(name)), Opened(name));
    assert lines[0..] == lines && lines[4..] == hunks;
  }

  lemma QuotedLines(tables: Tables, documented: Documented, name: Bytes, hunks: seq<Chars>)
    requires ValidUtf8(name) && PathQuoting.SafePath(name)
    ensures MaskedDiff(tables, documented, START, QuotedFile(name, hunks)).Ok? ==
            MaskedDiff(tables, documented, Opened(name), hunks).Ok?
  {
    hide MaskedDiff, Unquote, Spelled;
    WholeName(tables, OLD, name);
    WholeName(tables, NEW, name);
    FileLines(tables, documented, name, Spelled(OLD, name), Spelled(NEW, name), hunks);
  }

  lemma IndexLine(line: Chars)
    requires line != [] && line[0] == 'i' as int
    ensures !Starts(line, "diff --git ") && !Starts(line, "--- ") && !Starts(line, "+++ ") && !Starts(line, "@@")
  {
    StartsElsewhere(line, "diff --git ");
    StartsElsewhere(line, "--- ");
    StartsElsewhere(line, "+++ ");
    StartsElsewhere(line, "@@");
  }

  lemma ReadLine(tables: Tables, documented: Documented, lines: seq<Chars>, k: nat, p: Place, q: Place)
    requires k < |lines| && DiffLine(tables, documented, p, lines[k]).Ok?
    requires DiffLine(tables, documented, p, lines[k]).value.0 == q
    ensures MaskedDiff(tables, documented, p, lines[k..]).Ok? == MaskedDiff(tables, documented, q, lines[k + 1..]).Ok?
  {
    hide DiffLine, MaskedDiff;
    MaskedCons(tables, documented, p, lines[k], lines[k + 1..]);
    assert lines[k..] == [lines[k]] + lines[k + 1..];
  }

  /** A header that reads, or a line of a hunk. */
  predicate Carried(tables: Tables, line: Chars) {
    if Starts(line, "@@") then ReadHeader(tables, line).Some? else Starts(line, "+") || Starts(line, "-")
  }

  /** So are the lines of the hunks. */
  lemma {:induction false} HunkLines(tables: Tables, documented: Documented, p: Place, hunks: seq<Chars>)
    requires HasPath(p) && (p.inHunk || (hunks != [] && Starts(hunks[0], "@@")))
    requires forall k :: 0 <= k < |hunks| ==> Carried(tables, hunks[k])
    ensures MaskedDiff(tables, documented, p, hunks).Ok?
    decreases |hunks|
  {
    hide Starts, ReadHeader, Matches, From;
    if hunks != [] {
      HeaderWords(hunks[0]);
      HunkLine(tables, documented, p, hunks[0]);
      HunkLines(tables, documented, DiffLine(tables, documented, p, hunks[0]).value.0, hunks[1..]);
    }
  }

  lemma HunkLine(tables: Tables, documented: Documented, p: Place, line: Chars)
    requires HasPath(p) && (p.inHunk || Starts(line, "@@")) && Carried(tables, line)
    ensures DiffLine(tables, documented, p, line).Ok?
    ensures DiffLine(tables, documented, p, line).value.0.inHunk && HasPath(DiffLine(tables, documented, p, line).value.0)
  {
    hide Starts, ReadHeader, Matches, From;
    HeaderWords(line);
    OneSign(line);
  }

  lemma OneSign(line: Chars)
    ensures Starts(line, "+") || Starts(line, "-") ==> !Starts(line, "diff --git ")
  {
    assert Starts(line, "+") ==> line[0] == Ascii("+")[0];
    assert Starts(line, "-") ==> line[0] == Ascii("-")[0];
    assert Starts(line, "diff --git ") ==> line[0] == Ascii("diff --git ")[0];
  }

  // ---------------------------------------------------------------- Hunk headers

  lemma {:induction false} DigitsAre(tables: Tables, s: Chars, i: nat, j: nat)
    requires i <= j < |s| && (forall k :: i <= k < j ==> DigitOf(tables, s[k]).Some?) && DigitOf(tables, s[j]).None?
    ensures DigitsEnd(tables, s, i) == j
    decreases j - i
  {
    if i < j {
      DigitsAre(tables, s, i + 1, j);
    }
  }

  /** A count of `n` ones. */
  function CountOf(n: nat): Chars {
    if n == 0 then [] else [44] + seq(n, _ => 49)
  }

  /** Where the words and digits of a header of this form stand. */
  lemma HeaderShape(tables: Tables, n: nat)
    ensures var line, m := Ascii("@@ -1") + CountOf(n) + Ascii(" +1 @@"), 5 + |CountOf(n)|;
      && |line| == m + 6 > n && Starts(line, "@@")
      && AfterWord(line, 0, "@@ -") == Some(4) && AfterWord(line, m, " +") == Some(m + 2)
      && AfterWord(line, m + 3, " @@") == Some(m + 6)
      && line[4] == 49 && line[m] == 32 && line[m + 2] == 49 && line[m + 3] == 32
      && (n > 0 ==> line[5] == 44 && m > 6 && forall k :: 6 <= k < m ==> line[k] == 49)
      && (n == 0 ==> m == 5)
  {
    var line, m := Ascii("@@ -1") + CountOf(n) + Ascii(" +1 @@"), 5 + |CountOf(n)|;
    assert line[..2] == Ascii("@@");
    assert line[0..4] == Ascii("@@ -");
    assert line[m..m + 2] == Ascii(" +");
    assert line[m + 3..m + 6] == Ascii(" @@");
  }

  /** A header of this form is matched to its end, and its numbers are small. */
  lemma HeaderOf(tables: Tables, n: nat)
    ensures var line := Ascii("@@ -1") + CountOf(n) + Ascii(" +1 @@");
      && Starts(line, "@@") && ReadHeader(tables, line).Some?
      && MatchHeader(tables, line).Some? && MatchHeader(tables, line).value.end == |line| && |line| > n
  {
    hide Value, DigitsEnd, AfterWord, Starts, CountOf;
    var line := Ascii("@@ -1") + CountOf(n) + Ascii(" +1 @@");
    var m := 5 + |CountOf(n)|;
    HeaderShape(tables, n);
    DigitsAre(tables, line, 4, 5);
    if n > 0 {
      DigitsAre(tables, line, 6, m);
    }
    DigitsAre(tables, line, m + 2, m + 3);
  }

  /** A header whose match goes beyond the prefix is refused by the streaming form, wherever it stands. */
  lemma LongHeader(tables: Tables, documented: Documented, path: Option<Bytes>, p: Place, number: nat, line: Chars)
    requires Starts(line, "@@") && MatchHeader(tables, line).Some? && MatchHeader(tables, line).value.end > CHUNK_BYTES
    ensures StreamedLine(tables, documented, path, true, p, number, line).Err?
  {
    hide Starts, ReadHeader, MatchHeader, Prefix, Unquote;
    SamePrefixStarts(line);
    HeaderWords(line);
    PrefixReads(tables, line);
  }

  // ---------------------------------------------------------------- The diffs

  /** A break other than CR ends a line. */
  lemma SplitOne(line: Chars, b: nat, rest: Chars)
    requires Unbroken(line) && IsBreak(b) && b != CR
    ensures Texts(SplitLines(line + [b] + rest)) == [line] + Texts(SplitLines(rest))
  {
    hide SplitLines;
    FirstLine(line, [b], rest);
    assert ([Line(line, [b])] + SplitLines(rest))[1..] == SplitLines(rest);
  }

  lemma {:induction false} SplitAfter(lines: seq<Chars>, rest: Chars)
    requires forall k :: 0 <= k < |lines| ==> Visible(lines[k])
    ensures Texts(SplitLines(Ended(lines) + rest)) == lines + Texts(SplitLines(rest))
  {
    hide Texts, SplitLines;
    if lines == [] {
      assert Ended(lines) + rest == rest;
      assert lines + Texts(SplitLines(rest)) == Texts(SplitLines(rest));
    } else {
      SplitAfter(lines[1..], rest);
      SplitOne(lines[0], NL, Ended(lines[1..]) + rest);
      Regroup(lines[0] + [NL], Ended(lines[1..]), rest);
      Regroup([lines[0]], lines[1..], Texts(SplitLines(rest)));
      assert lines == [lines[0]] + lines[1..];
    }
  }

  lemma SplitEnded(lines: seq<Chars>)
    requires forall k :: 0 <= k < |lines| ==> Visible(lines[k])
    ensures Texts(SplitLines(Ended(lines))) == lines
  {
    SplitAfter(lines, []);
    assert Ended(lines) + [] == Ended(lines);
    assert Texts(SplitLines([])) == [];
    assert lines + [] == lines;
  }

  /** A quote and `n` letters. */
  function QuotedName(n: nat): Bytes {
    [PathQuoting.QUOTE] + seq(n, _ => 120)
  }

  lemma {:induction false} NoSlash(s: Bytes)
    requires PathQuoting.SLASH !in s
    ensures PathQuoting.Components(s) == [s]
  {
    if s != [] {
      NoSlash(s[1..]);
      assert [s[0]] + s[1..] == s;
      assert [s[1..]][0] == s[1..] && [s[1..]][1..] == [];
    }
  }

  lemma {:induction false} EscapeGrows(s: Bytes)
    ensures |PathQuoting.Escape(s)| >= |s|
  {
    if s != [] {
      EscapeGrows(s[1..]);
    }
  }

  /** Such a name is safe, and printed in quotes. */
  lemma QuotedNameSafe(tables: Tables, n: nat, side: Byte)
    ensures ValidUtf8(QuotedName(n)) && PathQuoting.SafePath(QuotedName(n))
    ensures PathQuoting.QuoteDiffPath(tables.paths, side, QuotedName(n)) == Spelled(side, QuotedName(n))
    ensures |Spelled(side, QuotedName(n))| > n
  {
    var name := QuotedName(n);
    ValidAscii(name);
    NoSlash(name);
    assert name[0] == PathQuoting.QUOTE;
    var value := [side, PathQuoting.SLASH] + name;
    assert value[2] == PathQuoting.QUOTE;
    EscapeGrows(value);
  }

  function OneLineHunk(): (hunk: seq<Chars>)
    ensures |hunk| == 3
  {
    [Ascii("@@ -1") + CountOf(0) + Ascii(" +1 @@"), Ascii("-x"), Ascii("+y")]
  }

  lemma OneLineCarried(tables: Tables)
    ensures forall k :: 0 <= k < 3 ==> Carried(tables, OneLineHunk()[k])
    ensures Starts(OneLineHunk()[0], "@@")
  {
    hide ReadHeader, Starts, CountOf, MatchHeader;
    HeaderOf(tables, 0);
    ChangeCarried(tables, "-", Ascii("x"));
    ChangeCarried(tables, "+", Ascii("y"));
    assert OneLineHunk()[1] == Ascii("-") + Ascii("x") && OneLineHunk()[2] == Ascii("+") + Ascii("y");
  }

  lemma ChangeCarried(tables: Tables, sign: string, rest: Chars)
    requires sign == "-" || sign == "+"
    ensures Carried(tables, Ascii(sign) + rest)
  {
    hide ReadHeader;
    StartsWith(sign, rest);
    StartsElsewhere(Ascii(sign) + rest, "@@");
  }

  /**
   A file whose quoted name is longer than the prefix.  The whole-text form reads its name;
   the streaming form loses the closing quote.
   */
  lemma QuotedNameDiffers(tables: Tables, documented: Documented, n: nat)
    requires documented != map[] && n >= CHUNK_BYTES
    ensures var value := Ended(QuotedFile(QuotedName(n), OneLineHunk()));
      && Masked(tables, documented, None, true, value).Ok?
      && Streamed(tables, documented, None, true, START, 1, Texts(SplitLines(value))).Err?
  {
    hide *;
    var name := QuotedName(n);
    var lines := QuotedFile(name, OneLineHunk());
    QuotedNameSafe(tables, n, OLD);
    OneLineCarried(tables);
    OneLineParts();
    QuotedVisible(name, OneLineHunk());
    SplitEnded(lines);
    QuotedLines(tables, documented, name, OneLineHunk());
    OpenedHasPath(name);
    HunkLines(tables, documented, Opened(name), OneLineHunk());
    MaskedRun(tables, documented, Ended(lines));
    QuotedFileIs(name, OneLineHunk());
    LongSpelling(tables, documented, START, 3, name);
    NameRefused(tables, documented, Spelled(OLD, name), Spelled(NEW, name), OneLineHunk());
  }

  lemma QuotedFileIs(name: Bytes, hunks: seq<Chars>)
    ensures QuotedFile(name, hunks) == FileDiff(Spelled(OLD, name), Spelled(NEW, name), hunks) && !START.inHunk
  {
  }

  lemma OpenedHasPath(name: Bytes)
    ensures HasPath(Opened(name))
  {
  }

  lemma QuotedVisible(name: Bytes, hunks: seq<Chars>)
    requires forall k :: 0 <= k < |hunks| ==> Visible(hunks[k])
    ensures forall k :: 0 <= k < |QuotedFile(name, hunks)| ==> Visible(QuotedFile(name, hunks)[k])
  {
    hide Spelled, Visible;
    SpelledVisible(OLD, name);
    SpelledVisible(NEW, name);
    FileDiffVisible(Spelled(OLD, name), Spelled(NEW, name), hunks);
  }

  lemma FileDiffVisible(a: Chars, b: Chars, hunks: seq<Chars>)
    requires Visible(a) && Visible(b) && forall k :: 0 <= k < |hunks| ==> Visible(hunks[k])
    ensures forall k :: 0 <= k < |FileDiff(a, b, hunks)| ==> Visible(FileDiff(a, b, hunks)[k])
  {
    hide Visible;
    WordVisible("diff --git ");
    WordVisible("index 587be6b..975fbec 100644");
    WordVisible("--- ");
    WordVisible("+++ ");
    VisibleJoin(Ascii("--- "), a);
    VisibleJoin(Ascii("+++ "), b);
    VisibleJoin(Ascii("diff --git "), a);
    SpaceVisible();
    VisibleJoin(Ascii("diff --git ") + a, [32]);
    VisibleJoin(Ascii("diff --git ") + a + [32], b);
  }

  lemma VisibleJoin(a: Chars, b: Chars)
    requires Visible(a) && Visible(b)
    ensures Visible(a + b)
  {
  }

  lemma WordVisible(word: string)
    requires forall k :: 0 <= k < |word| ==> ' ' <= word[k] <= '~'
    ensures Visible(Ascii(word))
  {
  }

  lemma SpaceVisible()
    ensures Visible([32])
  {
  }

  lemma MaskedRun(tables: Tables, documented: Documented, value: Chars)
    requires documented != map[] && MaskedDiff(tables, documented, START, Texts(SplitLines(value))).Ok?
    ensures Masked(tables, documented, None, true, value).Ok?
  {
    hide MaskedDiff, SplitLines, Join;
  }

  lemma NameRefused(tables: Tables, documented: Documented, a: Chars, b: Chars, hunks: seq<Chars>)
    requires StreamedLine(tables, documented, None, true, START, 3, Ascii("--- ") + a).Err?
    ensures Streamed(tables, documented, None, true, START, 1, FileDiff(a, b, hunks)).Err?
  {
    hide Streamed, StreamedLine;
    var lines := FileDiff(a, b, hunks);
    assert lines[0] == Ascii("diff --git ") + (a + [32] + b);
    EarlyLines(tables, documented, a + [32] + b, lines[0], lines[1]);
    StreamedCons(tables, documented, None, START, 1, lines[0], lines[1..]);
    assert lines == [lines[0]] + lines[1..];
    StreamedCons(tables, documented, None, START, 2, lines[1], lines[2..]);
    assert lines[1..] == [lines[1]] + lines[2..];
    StreamedCons(tables, documented, None, START, 3, lines[2], lines[3..]);
    assert lines[2..] == [lines[2]] + lines[3..];
  }

  lemma EarlyLines(tables: Tables, documented: Documented, names: Chars, first: Chars, second: Chars)
    requires first == Ascii("diff --git ") + names && second != [] && second[0] == 'i' as int
    ensures StreamedLine(tables, documented, None, true, START, 1, first).Ok?
    ensures StreamedLine(tables, documented, None, true, START, 1, first).value.0 == START
    ensures StreamedLine(tables, documented, None, true, START, 2, second).Ok?
    ensures StreamedLine(tables, documented, None, true, START, 2, second).value.0 == START
  {
    hide Starts, Prefix, Entry;
    StartsWith("diff --git ", names);
    IndexLine(second);
    SamePrefixStarts(first);
    SamePrefixStarts(second);
  }

  /** If the streaming form refuses a line wherever it stands, it refuses the text. */
  lemma {:induction false} RefusedAnywhere(tables: Tables, documented: Documented, p: Place, number: nat, lines: seq<Chars>, k: nat)
    requires k < |lines| && forall q, m :: StreamedLine(tables, documented, None, true, q, m, lines[k]).Err?
    ensures Streamed(tables, documented, None, true, p, number, lines).Err?
    decreases k
  {
    hide StreamedLine;
    var e := StreamedLine(tables, documented, None, true, p, number, lines[0]);
    if k > 0 && e.Ok? {
      RefusedAnywhere(tables, documented, e.value.0, number + 1, lines[1..], k - 1);
    }
  }

  /** A change of one line, whose new text goes on behind a form feed. */
  function FeedDiff(more: Chars): Chars {
    Ended(QuotedFile(QuotedName(0), OneLineHunk()[..2])) + (Ascii("+y") + [12] + more)
  }

  /** Lines break at form feeds, so what goes on is read as lines of the diff. */
  lemma FeedLines(more: Chars)
    ensures Texts(SplitLines(FeedDiff(more))) == QuotedFile(QuotedName(0), OneLineHunk()) + Texts(SplitLines(more))
  {
    hide SplitLines, Texts, Ended, Spelled, QuotedName, OneLineHunk;
    var hunk, rest := OneLineHunk()[..2], Texts(SplitLines(more));
    OneLineParts();
    QuotedVisible(QuotedName(0), hunk);
    SplitAfter(QuotedFile(QuotedName(0), hunk), Ascii("+y") + [12] + more);
    SplitOne(Ascii("+y"), 12, more);
    assert hunk + [Ascii("+y")] == OneLineHunk();
    assert QuotedFile(QuotedName(0), hunk) + ([Ascii("+y")] + rest) == QuotedFile(QuotedName(0), OneLineHunk()) + rest;
  }

  lemma OneLineParts()
    ensures |OneLineHunk()| == 3 && OneLineHunk()[2] == Ascii("+y")
    ensures forall k :: 0 <= k < 3 ==> Visible(OneLineHunk()[k])
  {
  }

  function LongCount(n: nat): Chars {
    Ascii("@@ -1") + CountOf(n) + Ascii(" +1 @@")
  }

  /**
   A changed line with a form feed, behind which stands what looks like a hunk header longer
   than the prefix.  The whole-text form matches the header; in the prefix it does not match.
   */
  lemma LongCountDiffers(tables: Tables, documented: Documented, n: nat)
    requires documented != map[] && n >= CHUNK_BYTES
    ensures Masked(tables, documented, None, true, FeedDiff(Ended([LongCount(n)]))).Ok?
    ensures Streamed(tables, documented, None, true, START, 1, Texts(SplitLines(FeedDiff(Ended([LongCount(n)]))))).Err?
  {
    hide *;
    var header := LongCount(n);
    var name, hunks := QuotedName(0), OneLineHunk() + [header];
    FeedLines(Ended([header]));
    LongCountVisible(n);
    SplitEnded([header]);
    MoreHunks(name, OneLineHunk(), [header]);
    QuotedNameSafe(tables, 0, OLD);
    OneLineCarried(tables);
    HeaderOf(tables, n);
    LongCountIs(n);
    LongCarried(tables, header);
    QuotedLines(tables, documented, name, hunks);
    OneLineParts();
    OpenedHasPath(name);
    HunkLines(tables, documented, Opened(name), hunks);
    MaskedRun(tables, documented, FeedDiff(Ended([header])));
    forall q, m ensures StreamedLine(tables, documented, None, true, q, m, header).Err? {
      LongHeader(tables, documented, None, q, m, header);
    }
    RefusedAnywhere(tables, documented, START, 1, QuotedFile(name, hunks), 7);
  }

  lemma LongCountIs(n: nat)
    ensures LongCount(n) == Ascii("@@ -1") + CountOf(n) + Ascii(" +1 @@")
  {
  }

  lemma LongCountVisible(n: nat)
    ensures Visible(LongCount(n))
  {
  }

  lemma MoreHunks(name: Bytes, hunks: seq<Chars>, more: seq<Chars>)
    ensures QuotedFile(name, hunks) + more == QuotedFile(name, hunks + more)
    ensures |QuotedFile(name, hunks + more)| == 4 + |hunks| + |more|
    ensures forall k :: 0 <= k < |more| ==> QuotedFile(name, hunks + more)[4 + |hunks| + k] == more[k]
  {
    hide Spelled;
  }

  lemma LongCarried(tables: Tables, header: Chars)
    requires Starts(header, "@@") && ReadHeader(tables, header).Some?
    ensures Carried(tables, header)
  {
  }

  // ---------------------------------------------------------------- Plain names

  /** Names that are printed as they are. */
  function Plainly(side: Byte, name: Bytes): Bytes {
    [side, PathQuoting.SLASH] + name
  }

  function Letters(n: nat): Bytes {
    seq(n, _ => 120)
  }

  /** What a plain text is read as, if it holds no white space. */
  lemma PlainReads(tables: Tables, side: Byte, name: Bytes)
    requires PathQuoting.IsSide(side) && forall k :: 0 <= k < |name| ==> 0x20 < name[k] < 0x7F
    ensures Unquote(tables, Plainly(side, name), side) == (if PathQuoting.SafePath(name) then Ok(Some(name)) else Err)
    ensures Visible(Plainly(side, name))
  {
    hide PathQuoting.SafePath;
    var value := Plainly(side, name);
    EncodeAscii(value);
    assert value[2..] == name;
    assert value[0] == side != PathQuoting.DEV_NULL[0];
  }

  lemma LettersSafe(n: nat)
    requires n > 4
    ensures PathQuoting.SafePath(Letters(n))
  {
    NoSlash(Letters(n));
  }

  lemma {:induction false} ComponentsBehind(s: Bytes, t: Bytes)
    requires PathQuoting.SLASH !in s
    ensures PathQuoting.Components(s + [PathQuoting.SLASH] + t) == [s] + PathQuoting.Components(t)
  {
    var all := s + [PathQuoting.SLASH] + t;
    if s == [] {
      assert all[1..] == t;
    } else {
      ComponentsBehind(s[1..], t);
      assert all[1..] == s[1..] + [PathQuoting.SLASH] + t;
      assert ([s[1..]] + PathQuoting.Components(t))[1..] == PathQuoting.Components(t);
      assert [s[0]] + s[1..] == s;
    }
  }

  /** A name whose slash is the last character of the prefix. */
  function SlashName(): Bytes {
    Letters(CHUNK_BYTES - 7) + [PathQuoting.SLASH] + [121]
  }

  lemma SlashParts()
    ensures PathQuoting.GoodComponents(SlashName())
    ensures !PathQuoting.GoodComponents(Letters(CHUNK_BYTES - 7) + [PathQuoting.SLASH])
  {
    hide PathQuoting.Components;
    var s, none: Bytes := Letters(CHUNK_BYTES - 7), [];
    assert PathQuoting.SLASH !in s && |s| > 4;
    NoSlash([121]);
    NoSlash(none);
    hide Letters;
    ComponentsBehind(s, [121]);
    ComponentsBehind(s, none);
    assert s + [PathQuoting.SLASH] + none == s + [PathQuoting.SLASH];
    assert PathQuoting.Components(s + [PathQuoting.SLASH])[1] == none;
  }

  /** Bytes of the two names: no control byte, backslash or space. */
  lemma SlashBytes()
    ensures forall k :: 0 <= k < |SlashName()| ==> 0x20 < SlashName()[k] < 0x7F && SlashName()[k] != PathQuoting.BACKSLASH
    ensures |SlashName()| > 1 && SlashName()[0] == 120
  {
  }

  lemma SlashNameSafe()
    ensures PathQuoting.SafePath(SlashName()) && ValidUtf8(SlashName())
    ensures !PathQuoting.SafePath(Letters(CHUNK_BYTES - 7) + [PathQuoting.SLASH])
  {
    hide PathQuoting.GoodComponents, PathQuoting.SafePath, ValidUtf8;
    var cut := Letters(CHUNK_BYTES - 7) + [PathQuoting.SLASH];
    assert |cut| > 1 && cut[0] == 120;
    SlashBytes();
    ValidAscii(SlashName());
    hide SlashName, Letters;
    SlashParts();
    PartsDecide(SlashName());
    PartsDecide(cut);
  }

  lemma PartsDecide(path: Bytes)
    requires |path| > 1 && path[0] != PathQuoting.SLASH
    requires forall k :: 0 <= k < |path| ==> 0x20 < path[k] < 0x7F && path[k] != PathQuoting.BACKSLASH
    ensures PathQuoting.SafePath(path) <==> PathQuoting.GoodComponents(path)
  {
    hide PathQuoting.GoodComponents;
  }

  /** Git and the quoting function print it as it is. */
  lemma SlashNamePlain(tables: Tables, side: Byte)
    requires PathQuoting.IsSide(side)
    ensures PathQuoting.QuoteDiffPath(tables.paths, side, SlashName()) == Plainly(side, SlashName())
  {
  }

  /** A plain name cut behind a slash: whole it is read, cut it is refused. */
  lemma SlashNameDiffers(tables: Tables, documented: Documented)
    requires documented != map[]
    ensures var value := Ended(FileDiff(Plainly(OLD, SlashName()), Plainly(NEW, SlashName()), OneLineHunk()));
      && Masked(tables, documented, None, true, value).Ok?
      && Streamed(tables, documented, None, true, START, 1, Texts(SplitLines(value))).Err?
  {
    hide *;
    var name, a, b := SlashName(), Plainly(OLD, SlashName()), Plainly(NEW, SlashName());
    var lines := FileDiff(a, b, OneLineHunk());
    SlashNameSafe();
    SlashNameReads(tables);
    OneLineCarried(tables);
    OneLineParts();
    FileDiffVisible(a, b, OneLineHunk());
    SplitEnded(lines);
    FileLines(tables, documented, name, a, b, OneLineHunk());
    OpenedHasPath(name);
    HunkLines(tables, documented, Opened(name), OneLineHunk());
    MaskedRun(tables, documented, Ended(lines));
    SlashNameCut(tables, documented);
    NameRefused(tables, documented, a, b, OneLineHunk());
  }

  lemma SlashNameReads(tables: Tables)
    ensures Unquote(tables, Plainly(OLD, SlashName()), OLD) == Ok(Some(SlashName())) && Visible(Plainly(OLD, SlashName()))
    ensures Unquote(tables, Plainly(NEW, SlashName()), NEW) == Ok(Some(SlashName())) && Visible(Plainly(NEW, SlashName()))
  {
    SlashBytes();
    hide Unquote, PathQuoting.SafePath, SlashName, ValidUtf8, Plainly, Visible;
    SlashNameSafe();
    PlainReads(tables, OLD, SlashName());
    PlainReads(tables, NEW, SlashName());
  }

  lemma SlashNameCut(tables: Tables, documented: Documented)
    ensures StreamedLine(tables, documented, None, true, START, 3, Ascii("--- ") + Plainly(OLD, SlashName())).Err?
  {
    hide Unquote, PathQuoting.SafePath, SlashName, Letters, Plainly;
    var cut := Letters(CHUNK_BYTES - 7) + [PathQuoting.SLASH];
    SlashNameSafe();
    CutBytes();
    PlainReads(tables, OLD, cut);
    NameLine(tables, documented, START, 3, Plainly(OLD, SlashName()));
  }

  lemma CutBytes()
    ensures var cut := Letters(CHUNK_BYTES - 7) + [PathQuoting.SLASH];
      && (forall k :: 0 <= k < |cut| ==> 0x20 < cut[k] < 0x7F)
      && |Plainly(OLD, SlashName())| + 4 > CHUNK_BYTES && Plainly(OLD, SlashName())[..CHUNK_BYTES - 4] == Plainly(OLD, cut)
  {
    assert Plainly(OLD, SlashName())[..CHUNK_BYTES - 4] == Plainly(OLD, Letters(CHUNK_BYTES - 7) + [PathQuoting.SLASH]);
  }

  // ---------------------------------------------------------------- The other direction

  /** What looks like the line of a name with a space behind the prefix. */
  function SpacedLate(n: nat): Chars {
    Ascii("--- ") + (Plainly(OLD, Letters(n)) + Ascii(" y"))
  }

  /** Outside a hunk, the whole-text form refuses it; the streaming form reads the letters before the space. */
  lemma SpacedLateLine(tables: Tables, documented: Documented, p: Place, number: nat, n: nat)
    requires !p.inHunk && n >= CHUNK_BYTES
    ensures DiffLine(tables, documented, p, SpacedLate(n)).Err?
    ensures StreamedLine(tables, documented, None, true, p, number, SpacedLate(n)).Ok?
  {
    hide Starts, Unquote, From, Letters, Plainly, PathQuoting.SafePath;
    var text := Plainly(OLD, Letters(n)) + Ascii(" y");
    StartsWith("--- ", text);
    HeaderWords(SpacedLate(n));
    SpacedRefused(tables, n);
    LateCut(n);
    PlainReads(tables, OLD, Letters(CHUNK_BYTES - 6));
    LettersSafe(CHUNK_BYTES - 6);
    NameLine(tables, documented, p, number, text);
  }

  lemma LateCut(n: nat)
    requires n >= CHUNK_BYTES
    ensures var text, cut := Plainly(OLD, Letters(n)) + Ascii(" y"), Letters(CHUNK_BYTES - 6);
      && (forall k :: 0 <= k < |cut| ==> 0x20 < cut[k] < 0x7F)
      && |text| + 4 > CHUNK_BYTES && text[..CHUNK_BYTES - 4] == Plainly(OLD, cut)
  {
    assert (Plainly(OLD, Letters(n)) + Ascii(" y"))[..CHUNK_BYTES - 4] == Plainly(OLD, Letters(CHUNK_BYTES - 6));
  }

  lemma SpacedRefused(tables: Tables, n: nat)
    ensures Unquote(tables, Plainly(OLD, Letters(n)) + Ascii(" y"), OLD).Err?
  {
    var text := Plainly(OLD, Letters(n)) + Ascii(" y");
    EncodeAscii(text);
    assert text[|text| - 2] == 32;
    assert text[0] == OLD != PathQuoting.DEV_NULL[0];
    assert PathQuoting.Blank(tables.paths, Encode(text));
  }

  /** A line that ends the file's part of the diff. */
  function NextFile(): Chars {
    Ascii("diff --git ") + []
  }

  lemma NextFileLine(tables: Tables, documented: Documented, p: Place, number: nat)
    ensures DiffLine(tables, documented, p, NextFile()).Ok? && !DiffLine(tables, documented, p, NextFile()).value.0.inHunk
    ensures StreamedLine(tables, documented, None, true, p, number, NextFile()).Ok?
    ensures !StreamedLine(tables, documented, None, true, p, number, NextFile()).value.0.inHunk
  {
    hide Starts, Entry, From;
    StartsWith("diff --git ", []);
    SamePrefixStarts(NextFile());
  }

  /** The two lines: refused by one form and not by the other, wherever they stand. */
  lemma TailDiffers(tables: Tables, documented: Documented, p: Place, number: nat, n: nat)
    requires n >= CHUNK_BYTES
    ensures MaskedDiff(tables, documented, p, [NextFile(), SpacedLate(n)]).Err?
    ensures Streamed(tables, documented, None, true, p, number, [NextFile(), SpacedLate(n)]).Ok?
  {
    hide *;
    NextFileLine(tables, documented, p, number);
    var whole, streamed := DiffLine(tables, documented, p, NextFile()).value.0,
                           StreamedLine(tables, documented, None, true, p, number, NextFile()).value.0;
    SpacedLateLine(tables, documented, whole, number + 1, n);
    SpacedLateLine(tables, documented, streamed, number + 1, n);
    assert [NextFile()] + ([SpacedLate(n)] + []) == [NextFile(), SpacedLate(n)];
    MaskedCons(tables, documented, p, NextFile(), [SpacedLate(n)] + []);
    MaskedFirst(tables, documented, whole, SpacedLate(n), []);
    StreamedCons(tables, documented, None, p, number, NextFile(), [SpacedLate(n)] + []);
    StreamedCons(tables, documented, None, streamed, number + 1, SpacedLate(n), []);
    StreamedNone(tables, documented, StreamedLine(tables, documented, None, true, streamed, number + 1, SpacedLate(n)).value.0, number + 2);
  }

  lemma MaskedFirst(tables: Tables, documented: Documented, p: Place, line: Chars, rest: seq<Chars>)
    requires DiffLine(tables, documented, p, line).Err?
    ensures MaskedDiff(tables, documented, p, [line] + rest).Err?
  {
    hide DiffLine;
  }

  lemma StreamedNone(tables: Tables, documented: Documented, p: Place, number: nat)
    ensures Streamed(tables, documented, None, true, p, number, []).Ok?
  {
  }

  lemma {:induction false} MaskedTail(tables: Tables, documented: Documented, p: Place, lines: seq<Chars>, tail: seq<Chars>)
    requires forall q :: MaskedDiff(tables, documented, q, tail).Err?
    ensures MaskedDiff(tables, documented, p, lines + tail).Err?
    decreases |lines|
  {
    hide DiffLine, Shown;
    if lines == [] {
      assert lines + tail == tail;
    } else {
      assert (lines + tail)[1..] == lines[1..] + tail;
      if DiffLine(tables, documented, p, lines[0]).Ok? {
        MaskedTail(tables, documented, DiffLine(tables, documented, p, lines[0]).value.0, lines[1..], tail);
      }
    }
  }

  lemma {:induction false} StreamedTail(tables: Tables, documented: Documented, p: Place, number: nat, lines: seq<Chars>,
                                        tail: seq<Chars>)
    requires Streamed(tables, documented, None, true, p, number, lines).Ok?
    requires forall q, m :: Streamed(tables, documented, None, true, q, m, tail).Ok?
    ensures Streamed(tables, documented, None, true, p, number, lines + tail).Ok?
    decreases |lines|
  {
    hide StreamedLine;
    if lines == [] {
      assert lines + tail == tail;
    } else {
      assert (lines + tail)[1..] == lines[1..] + tail;
      StreamedTail(tables, documented, StreamedLine(tables, documented, None, true, p, number, lines[0]).value.0, number + 1,
                   lines[1..], tail);
    }
  }

  /** Short lines are read alike. */
  lemma {:induction false} ShortSame(tables: Tables, documented: Documented, p: Place, lines: seq<Chars>)
    requires forall k :: 0 <= k < |lines| ==> |lines[k]| <= CHUNK_BYTES
    ensures AllSame(tables, documented, p, lines)
    decreases |lines|
  {
    hide DiffLine, HeaderEnds, IsPathLine;
    if lines != [] && DiffLine(tables, documented, p, lines[0]).Ok? {
      ShortSame(tables, documented, DiffLine(tables, documented, p, lines[0]).value.0, lines[1..]);
    }
  }

  lemma {:induction false} EscapeLength(s: Bytes)
    ensures |PathQuoting.Escape(s)| <= 4 * |s|
  {
    if s != [] {
      EscapeLength(s[1..]);
    }
  }

  lemma ShortFile()
    ensures forall k :: 0 <= k < |QuotedFile(QuotedName(0), OneLineHunk())| ==>
              |QuotedFile(QuotedName(0), OneLineHunk())[k]| <= CHUNK_BYTES
  {
    EscapeLength([OLD, PathQuoting.SLASH] + QuotedName(0));
    EscapeLength([NEW, PathQuoting.SLASH] + QuotedName(0));
    assert |Spelled(OLD, QuotedName(0))| <= 14 && |Spelled(NEW, QuotedName(0))| <= 14;
    hide Spelled;
  }

  /** Behind form feeds in a changed line: what looks like another file, and the line above. */
  function LateDiff(n: nat): Chars {
    FeedDiff(NextFile() + [12] + Ended([SpacedLate(n)]))
  }

  /** A diff that the whole-text form refuses and the streaming form does not. */
  lemma LateSpaceDiffers(tables: Tables, documented: Documented, n: nat)
    requires IsManifest(documented) && n >= CHUNK_BYTES
    ensures Masked(tables, documented, None, true, LateDiff(n)).Err?
    ensures Streamed(tables, documented, None, true, START, 1, Texts(SplitLines(LateDiff(n)))).Ok?
  {
    assert documented != map[];
    hide *;
    var name, tail := QuotedName(0), [NextFile(), SpacedLate(n)];
    var lines := QuotedFile(name, OneLineHunk());
    LateLines(n);
    forall q ensures MaskedDiff(tables, documented, q, tail).Err? {
      TailDiffers(tables, documented, q, 0, n);
    }
    forall q, m: nat ensures Streamed(tables, documented, None, true, q, m, tail).Ok? {
      TailDiffers(tables, documented, q, m, n);
    }
    MaskedTail(tables, documented, START, lines, tail);
    MaskedFails(tables, documented, LateDiff(n));
    QuotedNameSafe(tables, 0, OLD);
    OneLineCarried(tables);
    OneLineParts();
    OpenedHasPath(name);
    QuotedLines(tables, documented, name, OneLineHunk());
    HunkLines(tables, documented, Opened(name), OneLineHunk());
    ShortFile();
    ShortSame(tables, documented, START, lines);
    AlikeSelf(documented, START);
    SameDiff(tables, documented, None, START, START, 1, lines);
    StreamedTail(tables, documented, START, 1, lines, tail);
  }

  lemma AlikeSelf(documented: Documented, p: Place)
    ensures Alike(documented, p, p)
  {
  }

  lemma MaskedFails(tables: Tables, documented: Documented, value: Chars)
    requires documented != map[] && MaskedDiff(tables, documented, START, Texts(SplitLines(value))).Err?
    ensures Masked(tables, documented, None, true, value).Err?
  {
    hide MaskedDiff, SplitLines, Join;
  }

  lemma LateLines(n: nat)
    ensures Texts(SplitLines(LateDiff(n))) == QuotedFile(QuotedName(0), OneLineHunk()) + [NextFile(), SpacedLate(n)]
  {
    hide SplitLines, Texts, Ended, QuotedFile, QuotedName, OneLineHunk, SpacedLate, NextFile, FeedDiff;
    FeedLines(NextFile() + [12] + Ended([SpacedLate(n)]));
    LateVisible(n);
    SplitOne(NextFile(), 12, Ended([SpacedLate(n)]));
    SplitEnded([SpacedLate(n)]);
    assert [NextFile()] + [SpacedLate(n)] == [NextFile(), SpacedLate(n)];
  }

  lemma LateVisible(n: nat)
    ensures Visible(SpacedLate(n)) && Unbroken(NextFile()) && IsBreak(12) && 12 != CR
  {
  }

  // ---------------------------------------------------------------- Without a manifest

  /**
   Without a manifest: a file name with a space, which Git prints without
   quotes and with a final TAB.  The whole-text form returns the diff as it is.
   */
  lemma SpacedNameDiffers(tables: Tables, rest: seq<Chars>)
    requires forall k :: 0 <= k < |rest| ==> Visible(rest[k])
    ensures var value := Ascii("diff --git ") + Ascii("a/x y b/x y") + [NL] + (Ascii("--- ") + (Ascii("a/x y") + [9]) + [NL] + Ended(rest));
      && Masked(tables, map[], None, true, value) == Ok(value)
      && Streamed(tables, map[], None, true, START, 1, Texts(SplitLines(value))).Err?
  {
    hide SplitLines, Texts, Ended, Streamed, StreamedLine;
    var first, second := Ascii("diff --git ") + Ascii("a/x y b/x y"), Ascii("--- ") + (Ascii("a/x y") + [9]);
    SplitOne(first, NL, second + [NL] + Ended(rest));
    SplitOne(second, NL, Ended(rest));
    SplitEnded(rest);
    SpacedLine(tables, first, second);
    StreamedCons(tables, map[], None, START, 1, first, [second] + rest);
    StreamedCons(tables, map[], None, START, 2, second, rest);
  }

  lemma SpacedLine(tables: Tables, first: Chars, second: Chars)
    requires first == Ascii("diff --git ") + Ascii("a/x y b/x y") && second == Ascii("--- ") + (Ascii("a/x y") + [9])
    ensures StreamedLine(tables, map[], None, true, START, 1, first).Ok?
    ensures StreamedLine(tables, map[], None, true, START, 1, first).value.0 == START
    ensures StreamedLine(tables, map[], None, true, START, 2, second).Err?
  {
    hide Starts, Entry;
    StartsWith("diff --git ", Ascii("a/x y b/x y"));
    StartsWith("--- ", Ascii("a/x y") + [9]);
    HeaderWords(second);
    EncodeAscii(Ascii("a/x y") + [9]);
    assert Encode(Ascii("a/x y") + [9])[3] == 32;
  }
}
