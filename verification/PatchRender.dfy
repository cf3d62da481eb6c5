/**
 The patch of an untracked file in scripts/lit-push-ready.py: `spool_untracked_patch`, which
 never holds a line, writes what `render_untracked_patch` makes of the whole text.  UTF-8
 encoding is left to the caller: it turns equal texts into equal bytes.
 */
module PatchRender {
  import opened Common
  import opened Splitter

  function Digits(n: nat): (s: Chars)
    ensures s != [] && forall k :: 0 <= k < |s| ==> 48 <= s[k] <= 57
  {
    if n < 10 then [48 + n] else Digits(n / 10) + [48 + n % 10]
  }

  /** The mark of a line without a line end, which starts with a backslash. */
  function Unended(): Chars {
    Ascii("\\") + Ascii(" No newline at end of file")
  }

  function NoNewline(): Chars {
    [NL] + Unended() + [NL]
  }

  /** The header, for a file with `count` lines. */
  function Head(oldPath: Chars, newPath: Chars, executable: bool, empty: bool, count: nat): Chars {
    Ascii("diff --git ") + oldPath + Ascii(" ") + newPath + Ascii("\nnew file mode ")
    + Ascii(if executable then "100755\n" else "100644\n")
    + (if empty then Ascii("index 0000000..e69de29\n")
       else Ascii("--- /dev/null\n+++ ") + newPath + Ascii("\n@@ -0,0 +1,") + Digits(count) + Ascii(" @@\n"))
  }

  predicate EndsWithNewline(s: Chars) {
    s != [] && s[|s| - 1] == NL
  }

  function RenderLine(line: Line): Chars {
    [43] + line.text + line.ending + (if EndsWithNewline(line.ending) then [] else NoNewline())
  }

  function RenderLines(lines: seq<Line>): Chars {
    if lines == [] then []
    else RenderLines(lines[..|lines| - 1]) + RenderLine(lines[|lines| - 1])
  }

  /** The patch of a file with text `payload`; a NUL makes it binary. */
  function Patch(oldPath: Chars, newPath: Chars, executable: bool, payload: Chars): Result<Chars> {
    if 0 in payload then Err
    else Ok(Head(oldPath, newPath, executable, payload == [], |SplitLines(payload)|) + RenderLines(SplitLines(payload)))
  }

  lemma RenderSnoc(lines: seq<Line>, line: Line)
    ensures RenderLines(lines + [line]) == RenderLines(lines) + RenderLine(line)
  {
    assert (lines + [line])[..|lines|] == lines;
  }

  /** `render_untracked_patch(name, payload, mode)` */
  method RenderUntrackedPatch(oldPath: Chars, newPath: Chars, executable: bool, payload: Chars) returns (r: Result<Chars>)
    ensures r == Patch(oldPath, newPath, executable, payload)
  {
    hide Head, RenderLine, SplitLines;
    if 0 in payload {
      return Err;
    }
    var lines := SplitLines(payload);
    var parts := Head(oldPath, newPath, executable, payload == [], |lines|);
    if payload == [] {
      NoLines();
      assert parts + [] == parts;
      return Ok(parts);
    }
    ghost var head := parts;
    for k := 0 to |lines|
      invariant parts == head + RenderLines(lines[..k])
    {
      assert lines[..k + 1] == lines[..k] + [lines[k]];
      RenderSnoc(lines[..k], lines[k]);
      parts := parts + RenderLine(lines[k]);
    }
    assert lines[..|lines|] == lines;
    r := Ok(parts);
  }

  /** What the second pass has written after the fragments `out`. */
  ghost function Written(out: seq<Fragment>): Chars {
    RenderLines(Complete(out)) + (if Going(out) then [43] + Tail(out) else [])
  }

  /** A line has begun and goes on. */
  predicate Going(out: seq<Fragment>) {
    out != [] && out[|out| - 1].ending.None?
  }

  lemma NothingHeld(out: seq<Fragment>)
    requires !Going(out)
    ensures Tail(out) == [] && Written(out) == RenderLines(Complete(out))
  {
    assert RenderLines(Complete(out)) + [] == RenderLines(Complete(out));
  }

  /** What is written for a break. */
  function EndText(ending: Chars): Chars {
    ending + (if EndsWithNewline(ending) then [] else NoNewline())
  }

  lemma WriteText(out: seq<Fragment>, text: Chars)
    ensures Written(out + [Fragment(text, None)]) == Written(out) + (if Going(out) then [] else [43]) + text
  {
    hide RenderLines, Complete, Tail;
    SnocFragment(out, Fragment(text, None));
    var done := RenderLines(Complete(out));
    if Going(out) {
      assert done + ([43] + (Tail(out) + text)) == done + ([43] + Tail(out)) + [] + text;
    } else {
      NothingHeld(out);
      assert done + ([43] + ([] + text)) == done + [43] + text;
    }
  }

  lemma WriteBreak(out: seq<Fragment>, text: Chars, ending: Chars)
    ensures Written(out + [Fragment(text, Some(ending))])
         == Written(out) + (if Going(out) then [] else [43]) + text + EndText(ending)
  {
    hide RenderLines, Complete, Tail, EndsWithNewline, NoNewline;
    SnocFragment(out, Fragment(text, Some(ending)));
    RenderSnoc(Complete(out), Line(Tail(out) + text, ending));
    var done, end := RenderLines(Complete(out)), if EndsWithNewline(ending) then [] else NoNewline();
    NothingHeld(out + [Fragment(text, Some(ending))]);
    if Going(out) {
      assert done + ([43] + (Tail(out) + text) + ending + end) == done + ([43] + Tail(out)) + [] + text + (ending + end);
    } else {
      NothingHeld(out);
      assert done + ([43] + ([] + text) + ending + end) == done + [43] + text + (ending + end);
    }
  }

  lemma {:induction false} NoNul(chunks: seq<Chars>, k: nat)
    requires k < |chunks| && 0 in chunks[k]
    ensures 0 in Concat(chunks)
  {
    if k > 0 {
      NoNul(chunks[1..], k - 1);
    }
  }

  lemma {:induction false} NulSomewhere(chunks: seq<Chars>)
    requires 0 in Concat(chunks)
    ensures exists k :: 0 <= k < |chunks| && 0 in chunks[k]
  {
    if 0 !in chunks[0] {
      NulSomewhere(chunks[1..]);
      var k :| 0 <= k < |chunks[1..]| && 0 in chunks[1..][k];
      assert 0 in chunks[k + 1];
    }
  }

  /** The number of lines, counted over fragments. */
  method CountLines(out: seq<Fragment>) returns (lines: nat)
    requires Solid(out)
    ensures lines == |Regrouped(out)|
  {
    hide Complete, Tail;
    lines := 0;
    var partial := false;
    NoFragments();
    for k := 0 to |out|
      invariant lines == |Complete(out[..k])| && partial == Going(out[..k])
    {
      assert out[..k + 1] == out[..k] + [out[k]];
      SnocFragment(out[..k], out[k]);
      partial := true;
      if out[k].ending.Some? {
        lines := lines + 1;
        partial := false;
      }
    }
    assert out[..|out|] == out;
    lines := lines + if partial then 1 else 0;
    TailHeld(out);
  }

  lemma NoFragments()
    ensures Complete([]) == []
  {
  }

  lemma TailHeld(out: seq<Fragment>)
    requires Solid(out)
    ensures Tail(out) != [] <==> Going(out)
  {
  }

  method WriteFragments(out: seq<Fragment>) returns (patch: Chars)
    requires Solid(out)
    ensures patch == RenderLines(Regrouped(out))
  {
    hide Written, RenderLines, Complete, Tail, NoNewline, EndsWithNewline, RenderLine;
    patch := [];
    var beginning := true;
    NothingWritten();
    for k := 0 to |out|
      invariant patch == Written(out[..k]) && beginning == !Going(out[..k])
    {
      assert out[..k + 1] == out[..k] + [out[k]];
      ghost var before := patch;
      if beginning {
        patch := patch + [43];
        beginning := false;
      }
      patch := patch + out[k].text;
      assert patch == before + (if Going(out[..k]) then [] else [43]) + out[k].text;
      WriteText(out[..k], out[k].text);
      if out[k].ending.Some? {
        var ending := out[k].ending.value;
        WriteBreak(out[..k], out[k].text, ending);
        ghost var line := patch;
        patch := patch + ending;
        if !EndsWithNewline(ending) {
          patch := patch + NoNewline();
        }
        assert patch == line + EndText(ending);
        beginning := true;
      }
    }
    assert out[..|out|] == out;
    if !beginning {
      patch := patch + NoNewline();
    }
    LastLine(out);
  }

  lemma NothingWritten()
    ensures Written([]) == []
  {
  }

  /** A line that goes on at the end of the file gets its break and the mark. */
  lemma LastLine(out: seq<Fragment>)
    requires Solid(out)
    ensures RenderLines(Regrouped(out)) == Written(out) + (if Going(out) then NoNewline() else [])
  {
    hide RenderLines, Complete, NoNewline;
    if Going(out) {
      var line := Line(Tail(out), []);
      RenderSnoc(Complete(out), line);
      assert [43] + Tail(out) + [] + NoNewline() == [43] + Tail(out) + NoNewline();
    } else {
      NothingHeld(out);
      assert Complete(out) + [] == Complete(out);
    }
  }

  /**
   `spool_untracked_patch(name, patch)`.  The file is read in `blocks`, and decoded twice, in
   `first` for the line count and in `second` for the body; the cuts are independent.
   */
  method SpoolUntrackedPatch(oldPath: Chars, newPath: Chars, executable: bool,
                             blocks: seq<Chars>, first: seq<Chars>, second: seq<Chars>) returns (r: Result<Chars>)
    requires Concat(blocks) == Concat(first) == Concat(second)
    ensures r == Patch(oldPath, newPath, executable, Concat(blocks))
  {
    hide Head, RenderLine, SplitLines, Regrouped, RenderLines;
    var size := 0;
    for k := 0 to |blocks|
      invariant forall j :: 0 <= j < k ==> 0 !in blocks[j]
      invariant size == |Concat(blocks[..k])|
    {
      if 0 in blocks[k] {
        NoNul(blocks, k);
        return Err;
      }
      ConcatSnoc(blocks, k);
      size := size + |blocks[k]|;
    }
    assert blocks[..|blocks|] == blocks;
    if 0 in Concat(blocks) {
      NulSomewhere(blocks);
    }
    var out := SplitTextFragments(first);
    var lines := CountLines(out);
    var header := Head(oldPath, newPath, executable, size == 0, lines);
    out := SplitTextFragments(second);
    var body := WriteFragments(out);
    r := Ok(header + body);
  }

  // ---------------------------------------------------------------- The patch holds the file

  function Mark(): Chars {
    Unended() + [NL]
  }

  function FirstNewline(s: Chars): (n: nat)
    ensures n <= |s| && NL !in s[..n] && (n < |s| ==> s[n] == NL)
  {
    if s == [] || s[0] == NL then 0
    else
      var n := 1 + FirstNewline(s[1..]);
      assert s[..n] == [s[0]] + s[1..][..n - 1];
      n
  }

  /** What applying the body of such a patch adds: each line without its plus, and without its LF if the mark follows. */
  function Applied(body: Chars): Option<Chars>
    decreases |body|
  {
    if body == [] then Some([])
    else if body[0] != 43 || FirstNewline(body) == |body| then None
    else
      var n := FirstNewline(body);
      var rest := body[n + 1..];
      if Mark() <= rest then Before(body[1..n], Applied(rest[|Mark()|..]))
      else Before(body[1..n + 1], Applied(rest))
  }

  function Before(s: Chars, r: Option<Chars>): Option<Chars> {
    if r.Some? then Some(s + r.value) else None
  }

  lemma FirstNewlineIs(s: Chars, n: nat)
    requires n < |s| && s[n] == NL && NL !in s[..n]
    ensures FirstNewline(s) == n
  {
    var m := FirstNewline(s);
    assert forall k :: 0 <= k < n ==> s[..n][k] == s[k];
    assert forall k :: 0 <= k < m ==> s[..m][k] == s[k];
  }

  /** A line that ends with LF, then the rest of the body, which starts no mark. */
  lemma AppliedLine(text: Chars, rest: Chars)
    requires NL !in text && !(Mark() <= rest)
    ensures Applied([43] + text + [NL] + rest) == Before(text + [NL], Applied(rest))
  {
    var s, n := [43] + text + [NL] + rest, |text| + 1;
    assert s[..n] == [43] + text && s[n] == NL && s[n + 1..] == rest && s[1..n + 1] == text + [NL];
    FirstNewlineIs(s, n);
  }

  /** A line whose LF the mark takes back. */
  lemma AppliedMarked(text: Chars, rest: Chars)
    requires NL !in text
    ensures Applied([43] + text + NoNewline() + rest) == Before(text, Applied(rest))
  {
    var s, n := [43] + text + NoNewline() + rest, |text| + 1;
    var after := Mark() + rest;
    assert NoNewline() == [NL] + Mark();
    assert s == [43] + text + [NL] + after;
    assert s[..n] == [43] + text && s[n] == NL && s[n + 1..] == after && s[1..n] == text;
    assert after[|Mark()|..] == rest;
    FirstNewlineIs(s, n);
  }

  lemma {:induction false} RenderCons(line: Line, lines: seq<Line>)
    ensures RenderLines([line] + lines) == RenderLine(line) + RenderLines(lines)
    decreases |lines|
  {
    hide RenderLine;
    if lines == [] {
      assert [line] + lines == [] + [line];
      RenderSnoc([], line);
      assert [] + RenderLine(line) == RenderLine(line) + [];
    } else {
      var last := lines[|lines| - 1];
      RenderCons(line, lines[..|lines| - 1]);
      RenderSnoc([line] + lines[..|lines| - 1], last);
      assert [line] + lines == [line] + lines[..|lines| - 1] + [last];
      Regroup(RenderLine(line), RenderLines(lines[..|lines| - 1]), RenderLine(last));
    }
  }

  lemma NoMarkFirst(lines: seq<Line>)
    ensures !(Mark() <= RenderLines(lines))
  {
    assert Mark()[0] == 92;
    if lines != [] {
      RenderCons(lines[0], lines[1..]);
      assert [lines[0]] + lines[1..] == lines;
      assert RenderLines(lines)[0] == 43;
    }
  }

  /** The first line of a text holds no LF but, perhaps, its last character. */
  lemma NewlineLast(s: Chars, n: nat, e: nat)
    requires LineEnds(s, n, e) && e > 0
    ensures NL !in s[..e - 1] && (EndsWithNewline(s[n..e]) <==> s[e - 1] == NL)
  {
    assert forall k :: 0 <= k < n ==> s[..n][k] == s[k];
    forall k | 0 <= k < e - 1 ensures s[k] != NL {
      assert k < n ==> !IsBreak(s[..n][k]);
    }
    if n > 0 {
      assert !IsBreak(s[..n][n - 1]);
    }
  }

  lemma AppliedFirst(line: Line, rest: Chars)
    requires var whole := line.text + line.ending; whole != [] && NL !in whole[..|whole| - 1]
    requires EndsWithNewline(line.ending) <==> EndsWithNewline(line.text + line.ending)
    requires !(Mark() <= rest)
    ensures Applied(RenderLine(line) + rest) == Before(line.text + line.ending, Applied(rest))
  {
    hide Applied, Mark, NoNewline;
    var whole := line.text + line.ending;
    var n := |whole| - 1;
    assert whole == whole[..n] + [whole[n]];
    Regroup([43], line.text, line.ending);
    if EndsWithNewline(whole) {
      Regroup([43], whole[..n], [NL]);
      assert [43] + whole + [] == [43] + whole;
      AppliedLine(whole[..n], rest);
    } else {
      AppliedMarked(whole, rest);
    }
  }

  /** Applying the patch of a text restores the text, whatever line breaks it holds. */
  lemma {:induction false} PatchRestores(s: Chars)
    ensures Applied(RenderLines(SplitLines(s))) == Some(s)
    decreases |s|
  {
    if s == [] {
      NoLines();
    } else {
      hide SplitLines, RenderLines, RenderLine, Applied, Mark, LineEnds;
      var n, e := FirstOf(s);
      var line := Line(s[..n], s[n..e]);
      PatchRestores(s[e..]);
      RenderCons(line, SplitLines(s[e..]));
      NoMarkFirst(SplitLines(s[e..]));
      NewlineLast(s, n, e);
      ThreeParts(s, n, e);
      assert line.text + line.ending == s[..e] && s[..e][..e - 1] == s[..e - 1];
      AppliedFirst(line, RenderLines(SplitLines(s[e..])));
    }
  }
}
