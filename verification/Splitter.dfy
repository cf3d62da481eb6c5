/**
 `split_text_fragments` of scripts/lit-push-ready.py: cut a stream of text chunks at line
 breaks without holding a whole line.  Regrouped, the fragments are the lines of the whole
 text, wherever the chunks were cut; in particular CR LF stays one break.
 */
module Splitter {
  import opened Common

  /** Code points. */
  type Chars = seq<nat>

  function Ascii(s: string): Chars {
    seq(|s|, i requires 0 <= i < |s| => s[i] as int)
  }

  const CR := 13
  const NL := 10

  /** The breaks of `str.splitlines`. */
  predicate IsBreak(c: nat) {
    10 <= c <= 13 || 0x1C <= c <= 0x1E || c == 0x85 || c == 0x2028 || c == 0x2029
  }

  /** The breaks by their code points: LF, VT, FF, CR, FS, GS, RS, NEL and the two separators. */
  lemma BreaksAre(c: nat)
    ensures IsBreak(c) <==> c in [0x0A, 0x0B, 0x0C, 0x0D, 0x1C, 0x1D, 0x1E, 0x85, 0x2028, 0x2029]
  {
    var all := [0x0A, 0x0B, 0x0C, 0x0D, 0x1C, 0x1D, 0x1E, 0x85, 0x2028, 0x2029];
    assert all[0] == 10 && all[1] == 11 && all[2] == 12 && all[3] == 13 && all[4] == 28 && all[5] == 29 && all[6] == 30;
    assert all[7] == 0x85 && all[8] == 0x2028 && all[9] == 0x2029;
  }

  /** A line and its break, which is empty at the end of a text that ends without one. */
  datatype Line = Line(text: Chars, ending: Chars)

  predicate Unbroken(s: Chars) {
    forall k :: 0 <= k < |s| ==> !IsBreak(s[k])
  }

  /** Where the first break is. */
  function LineLength(s: Chars): (n: nat)
    ensures n <= |s| && Unbroken(s[..n]) && (n < |s| ==> IsBreak(s[n]))
  {
    if s == [] || IsBreak(s[0]) then 0
    else
      var n := 1 + LineLength(s[1..]);
      assert s[..n] == [s[0]] + s[1..][..n - 1];
      n
  }

  /** The length of the break at the front of `s`. */
  function BreakLength(s: Chars): (n: nat)
    ensures n <= |s| && (s != [] && IsBreak(s[0]) ==> n > 0)
  {
    if s == [] || !IsBreak(s[0]) then 0
    else if |s| >= 2 && s[0] == CR && s[1] == NL then 2
    else 1
  }

  /** `s.splitlines(keepends=True)`, with each line and its break apart. */
  function SplitLines(s: Chars): seq<Line>
    decreases |s|
  {
    if s == [] then []
    else
      var n := LineLength(s);
      var e := n + BreakLength(s[n..]);
      [Line(s[..n], s[n..e])] + SplitLines(s[e..])
  }

  lemma JoinCons(line: Line, rest: seq<Line>)
    ensures Joined([line] + rest) == line.text + line.ending + Joined(rest)
  {
    assert ([line] + rest)[1..] == rest;
  }

  lemma FirstOf(s: Chars) returns (n: nat, e: nat)
    requires s != []
    ensures n <= e <= |s| && e > 0 && SplitLines(s) == [Line(s[..n], s[n..e])] + SplitLines(s[e..])
    ensures LineEnds(s, n, e)
  {
    n := LineLength(s);
    e := n + BreakLength(s[n..]);
    assert e > n ==> s[n..][0] == s[n];
    assert e == n + 2 ==> s[n..][1] == s[n + 1];
  }

  /** No break before `n`; there the text ends, or one character breaks, or CR LF. */
  predicate LineEnds(s: Chars, n: nat, e: nat) {
    && n <= e <= |s| && Unbroken(s[..n])
    && ((e == n == |s|) || (e == n + 1 && IsBreak(s[n])) || (e == n + 2 && s[n] == CR && s[n + 1] == NL))
  }

  /** The lines, joined, are the text. */
  lemma {:induction false} SplitLinesJoin(s: Chars)
    ensures Joined(SplitLines(s)) == s
    decreases |s|
  {
    if s == [] {
      NoLines();
    } else {
      hide *;
      var n, e := FirstOf(s);
      SplitLinesJoin(s[e..]);
      JoinCons(Line(s[..n], s[n..e]), SplitLines(s[e..]));
      ThreeParts(s, n, e);
    }
  }

  lemma ThreeParts(s: Chars, n: nat, e: nat)
    requires n <= e <= |s|
    ensures s[..n] + s[n..e] + s[e..] == s
  {
  }

  lemma NoLines()
    ensures SplitLines([]) == [] && Joined([]) == []
  {
  }

  function Joined(lines: seq<Line>): Chars {
    if lines == [] then [] else lines[0].text + lines[0].ending + Joined(lines[1..])
  }

  /** A piece of a line; `None` says that the line goes on. */
  datatype Fragment = Fragment(text: Chars, ending: Option<Chars>)

  /** The lines that the fragments complete. */
  function Complete(out: seq<Fragment>): seq<Line> {
    if out == [] then []
    else
      var last := out[|out| - 1];
      if last.ending.None? then Complete(out[..|out| - 1])
      else Complete(out[..|out| - 1]) + [Line(Tail(out[..|out| - 1]) + last.text, last.ending.value)]
  }

  /** What they hold of a line that goes on. */
  function Tail(out: seq<Fragment>): Chars {
    if out == [] then []
    else
      var last := out[|out| - 1];
      if last.ending.None? then Tail(out[..|out| - 1]) + last.text else []
  }

  /** The lines of a whole fragment stream. */
  function Regrouped(out: seq<Fragment>): seq<Line> {
    Complete(out) + Rest(Tail(out))
  }

  function Rest(tail: Chars): seq<Line> {
    if tail == [] then [] else [Line(tail, [])]
  }

  lemma SnocFragment(out: seq<Fragment>, f: Fragment)
    ensures Complete(out + [f]) == if f.ending.None? then Complete(out)
                                   else Complete(out) + [Line(Tail(out) + f.text, f.ending.value)]
    ensures Tail(out + [f]) == if f.ending.None? then Tail(out) + f.text else []
  {
    assert (out + [f])[..|out|] == out;
  }

  lemma {:induction false} LineLengthIs(s: Chars, n: nat)
    requires n <= |s| && Unbroken(s[..n]) && (n < |s| ==> IsBreak(s[n]))
    ensures LineLength(s) == n
  {
    var m := LineLength(s);
    assert forall k :: 0 <= k < n ==> s[..n][k] == s[k];
    assert forall k :: 0 <= k < m ==> s[..m][k] == s[k];
  }

  /** The first line of `text + ending + rest`. */
  lemma FirstLine(text: Chars, ending: Chars, rest: Chars)
    requires Unbroken(text) && ending != [] && IsBreak(ending[0]) && BreakLength(ending + rest) == |ending|
    ensures SplitLines(text + ending + rest) == [Line(text, ending)] + SplitLines(rest)
  {
    var s, n := text + ending + rest, |text|;
    assert s[..n] == text && s[n] == ending[0];
    LineLengthIs(s, n);
    assert s[n..] == ending + rest && s[n..n + |ending|] == ending && s[n + |ending|..] == rest;
  }

  lemma UnbrokenLine(s: Chars)
    requires Unbroken(s)
    ensures SplitLines(s) == Rest(s)
  {
    if s != [] {
      assert s[..|s|] == s;
      LineLengthIs(s, |s|);
      assert s[|s|..] == [];
    }
  }

  /** What the fragments so far leave to be split: `more` follows them. */
  ghost predicate Splitting(out: seq<Fragment>, more: Chars, whole: Chars) {
    Unbroken(Tail(out)) && SplitLines(whole) == Complete(out) + SplitLines(Tail(out) + more)
  }

  /** The last fragment, if the line goes on after it, is not empty. */
  predicate Solid(out: seq<Fragment>) {
    out != [] && out[|out| - 1].ending.None? ==> out[|out| - 1].text != []
  }

  /** A line ends with a break. */
  predicate Proper(out: seq<Fragment>) {
    forall k :: 0 <= k < |out| && out[k].ending.Some? ==> out[k].ending.value != [] && IsBreak(out[k].ending.value[0])
  }

  lemma TakeBreak(out: seq<Fragment>, text: Chars, ending: Chars, more: Chars, whole: Chars)
    requires Splitting(out, text + ending + more, whole) && Unbroken(text)
    requires ending != [] && IsBreak(ending[0]) && BreakLength(ending + more) == |ending|
    ensures Splitting(out + [Fragment(text, Some(ending))], more, whole)
  {
    hide SplitLines, BreakLength;
    SnocFragment(out, Fragment(text, Some(ending)));
    FirstLine(Tail(out) + text, ending, more);
    assert Tail(out) + (text + ending + more) == (Tail(out) + text) + ending + more;
    Regroup(Complete(out), [Line(Tail(out) + text, ending)], SplitLines(more));
    assert [] + more == more;
  }

  lemma TakeText(out: seq<Fragment>, text: Chars, more: Chars, whole: Chars)
    requires Splitting(out, text + more, whole) && Unbroken(text)
    ensures Splitting(out + [Fragment(text, None)], more, whole)
  {
    hide SplitLines, Complete;
    SnocFragment(out, Fragment(text, None));
    Regroup(Tail(out), text, more);
  }

  /** A break that the chunk does not cut at its CR is the break of the whole stream. */
  lemma BreakWithin(s: Chars, after: Chars)
    requires s != [] && IsBreak(s[0]) && !(s[0] == CR && |s| == 1)
    ensures BreakLength(s + after) == BreakLength(s)
  {
  }

  /** One chunk, once no CR is pending; `after` is what follows the chunk. */
  method SplitChunk(out0: seq<Fragment>, chunk: Chars, ghost after: Chars, ghost whole: Chars)
    returns (out: seq<Fragment>, pendingCr: bool)
    requires Splitting(out0, chunk + after, whole) && Solid(out0) && Proper(out0)
    ensures Splitting(out, if pendingCr then [CR] + after else after, whole)
    ensures Proper(out) && (!pendingCr ==> Solid(out))
  {
    hide Splitting, Complete, Tail;
    out, pendingCr := out0, false;
    var start, at := 0, 0;
    assert chunk[0..] == chunk;
    while at < |chunk|
      invariant 0 <= start <= at <= |chunk| && Unbroken(chunk[start..at])
      invariant !pendingCr && Solid(out) && Proper(out)
      invariant Splitting(out, chunk[start..] + after, whole)
    {
      if !IsBreak(chunk[at]) {
        assert chunk[start..at + 1] == chunk[start..at] + [chunk[at]];
        at := at + 1;
        continue;
      }
      var text := chunk[start..at];
      if chunk[at] == CR && at + 1 == |chunk| {
        assert chunk[start..] + after == text + ([CR] + after);
        TakeText(out, text, [CR] + after, whole);
        out, pendingCr := out + [Fragment(text, None)], true;
        return;
      }
      var end := at + BreakLength(chunk[at..]);
      var ending := chunk[at..end];
      assert ending[0] == chunk[at];
      BreakWithin(chunk[at..], after);
      assert chunk[start..] + after == text + ending + (chunk[end..] + after);
      assert ending + (chunk[end..] + after) == chunk[at..] + after;
      TakeBreak(out, text, ending, chunk[end..] + after, whole);
      out := out + [Fragment(text, Some(ending))];
      start, at := end, end;
    }
    if start < |chunk| {
      assert chunk[start..at] == chunk[start..];
      TakeText(out, chunk[start..], after, whole);
      out := out + [Fragment(chunk[start..], None)];
    } else {
      assert chunk[start..] + after == after;
    }
  }

  /** `split_text_fragments(chunks)` */
  method SplitTextFragments(chunks: seq<Chars>) returns (out: seq<Fragment>)
    ensures Regrouped(out) == SplitLines(Concat(chunks)) && Solid(out) && Proper(out)
  {
    hide Splitting, Complete, Tail;
    ghost var whole := Concat(chunks);
    out := [];
    var pendingCr := false;
    StartSplitting(whole);
    assert chunks[0..] == chunks;
    for k := 0 to |chunks|
      invariant Splitting(out, (if pendingCr then [CR] else []) + Concat(chunks[k..]), whole)
      invariant Proper(out) && (!pendingCr ==> Solid(out))
    {
      ghost var after := Concat(chunks[k + 1..]);
      assert chunks[k..][1..] == chunks[k + 1..];
      var chunk := chunks[k];
      if chunk == [] {
        assert (if pendingCr then [CR] else []) + Concat(chunks[k..]) == (if pendingCr then [CR] else []) + after;
        continue;
      }
      if pendingCr {
        out, chunk := SettleCr(out, chunk, after, whole);
      } else {
        assert [] + (chunk + after) == chunk + after;
      }
      out, pendingCr := SplitChunk(out, chunk, after, whole);
      assert !pendingCr ==> [] + after == after;
    }
    assert chunks[|chunks|..] == [];
    if pendingCr {
      assert [CR] + [] == [] + [CR] + [];
      TakeBreak(out, [], [CR], [], whole);
      out := out + [Fragment([], Some([CR]))];
    }
    EndSplitting(out, whole);
  }

  lemma StartSplitting(whole: Chars)
    ensures Splitting([], [] + whole, whole)
  {
    assert [] + whole == whole && [] + ([] + whole) == whole;
  }

  lemma EndSplitting(out: seq<Fragment>, whole: Chars)
    requires Splitting(out, [], whole)
    ensures Regrouped(out) == SplitLines(whole)
  {
    assert Tail(out) + [] == Tail(out);
    UnbrokenLine(Tail(out));
  }

  /** A CR that ended the last chunk is a break of its own unless this chunk starts with LF. */
  method SettleCr(out0: seq<Fragment>, chunk0: Chars, ghost after: Chars, ghost whole: Chars)
    returns (out: seq<Fragment>, chunk: Chars)
    requires chunk0 != [] && Splitting(out0, [CR] + (chunk0 + after), whole) && Proper(out0)
    ensures Splitting(out, chunk + after, whole) && Solid(out) && Proper(out)
  {
    hide Splitting, Complete, Tail;
    if chunk0[0] == NL {
      chunk := chunk0[1..];
      assert [CR] + (chunk0 + after) == [] + [CR, NL] + (chunk + after);
      TakeBreak(out0, [], [CR, NL], chunk + after, whole);
      out := out0 + [Fragment([], Some([CR, NL]))];
    } else {
      chunk := chunk0;
      assert [CR] + (chunk0 + after) == [] + [CR] + (chunk + after);
      assert ([CR] + (chunk + after))[1] == chunk0[0];
      TakeBreak(out0, [], [CR], chunk + after, whole);
      out := out0 + [Fragment([], Some([CR]))];
    }
  }
}
