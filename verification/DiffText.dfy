/**
 How the masker of scripts/lit-push-ready.py reads a line of a diff: a quoted path after
 `--- ` or `+++ `, and the hunk header `@@ -(\d+)(?:,\d+)? \+(\d+)(?:,\d+)? @@`; and what
 becomes of either when only the front of the line is read.
 */
module DiffText {
  import opened Common
  import opened Utf8
  import opened Splitter
  import PathQuoting

  const OLD: Byte := 97
  const NEW: Byte := 98

  /** Python's tables: those of paths, and the values of decimal digits beyond ASCII. */
  datatype Tables = Tables(paths: PathQuoting.Tables, digit: nat -> Option<nat>)

  // ---------------------------------------------------------------- Names

  /** The UTF-8 encoding of one character. */
  function EncodeChar(c: nat): (r: Bytes)
    ensures r != [] && |r| <= 4
  {
    if c < 0x80 then [c]
    else if c < 0x800 then [0xC0 + c / 64, 0x80 + c % 64]
    else if c < 0x10000 then [0xE0 + c / 4096, 0x80 + c / 64 % 64, 0x80 + c % 64]
    else [0xF0 + c / 262144 % 8, 0x80 + c / 4096 % 64, 0x80 + c / 64 % 64, 0x80 + c % 64]
  }

  /** A character that is not a surrogate. */
  predicate Scalar(c: nat) {
    c < 0xD800 || 0xE000 <= c < 0x110000
  }

  /** The character that a well-formed sequence of bytes encodes (section 3 of RFC 3629). */
  function Point(s: Bytes): int {
    var b: seq<int> := s;
    match |b|
    case 1 => b[0]
    case 2 => (b[0] - 0xC0) * 64 + (b[1] - 0x80)
    case 3 => ((b[0] - 0xE0) * 64 + (b[1] - 0x80)) * 64 + (b[2] - 0x80)
    case 4 => (((b[0] - 0xF0) * 64 + (b[1] - 0x80)) * 64 + (b[2] - 0x80)) * 64 + (b[3] - 0x80)
    case _ => -1
  }

  lemma Halves(c: nat)
    ensures c == 64 * (c / 64) + c % 64 && c / 64 / 64 == c / 4096 && c / 4096 / 64 == c / 262144
  {
  }

  /** A scalar value is encoded by one well-formed character, which stands for it. */
  lemma EncodesPoint(c: nat)
    requires Scalar(c)
    ensures CharLength(EncodeChar(c)) == |EncodeChar(c)| && Point(EncodeChar(c)) == c
  {
    Halves(c);
    Halves(c / 64);
    Halves(c / 4096);
    if c < 0x800 {
      EncodesShort(c);
    } else if c < 0x10000 {
      EncodesThree(c, c / 4096, c / 64 % 64, c % 64);
    } else {
      EncodesFour(c, c / 262144, c / 4096 % 64, c / 64 % 64, c % 64);
    }
  }

  lemma EncodesShort(c: nat)
    requires c < 0x800
    ensures CharLength(EncodeChar(c)) == |EncodeChar(c)| && Point(EncodeChar(c)) == c
  {
  }

  lemma EncodesThree(c: nat, x: nat, y: nat, z: nat)
    requires 0x800 <= c < 0x10000 && Scalar(c) && c == (x * 64 + y) * 64 + z && y < 64 && z < 64
    requires x == c / 4096 && y == c / 64 % 64 && z == c % 64
    ensures CharLength(EncodeChar(c)) == |EncodeChar(c)| && Point(EncodeChar(c)) == c
  {
    var s := EncodeChar(c);
    assert x < 16 && s == [0xE0 + x, 0x80 + y, 0x80 + z];
    hide EncodeChar;
  }

  lemma EncodesFour(c: nat, w: nat, x: nat, y: nat, z: nat)
    requires 0x10000 <= c && Scalar(c) && c == ((w * 64 + x) * 64 + y) * 64 + z && x < 64 && y < 64 && z < 64
    requires w == c / 262144 && x == c / 4096 % 64 && y == c / 64 % 64 && z == c % 64
    ensures CharLength(EncodeChar(c)) == |EncodeChar(c)| && Point(EncodeChar(c)) == c
  {
    var s := EncodeChar(c);
    assert w < 5 && s == [0xF0 + w, 0x80 + x, 0x80 + y, 0x80 + z];
    hide EncodeChar;
  }

  function Encode(s: Chars): Bytes {
    if s == [] then [] else EncodeChar(s[0]) + Encode(s[1..])
  }

  lemma {:induction false} EncodeJoin(a: Chars, b: Chars)
    ensures Encode(a + b) == Encode(a) + Encode(b)
  {
    if a == [] {
      assert a + b == b;
    } else {
      EncodeJoin(a[1..], b);
      assert (a + b)[1..] == a[1..] + b;
      Regroup(EncodeChar(a[0]), Encode(a[1..]), Encode(b));
    }
  }

  lemma {:induction false} EncodeLength(s: Chars)
    ensures |s| <= |Encode(s)| <= 4 * |s|
  {
    if s != [] {
      EncodeLength(s[1..]);
    }
  }

  /** ASCII text encodes to itself. */
  lemma {:induction false} EncodeAscii(s: Chars)
    requires forall k :: 0 <= k < |s| ==> s[k] < 0x80
    ensures Encode(s) == s
  {
    if s != [] {
      EncodeAscii(s[1..]);
      assert [s[0]] + s[1..] == s;
    }
  }

  /** `unquote_diff_path(text, side)`; the name is given in UTF-8. */
  function Unquote(tables: Tables, text: Chars, side: Byte): Result<Option<Bytes>> {
    PathQuoting.UnquoteDiffPath(tables.paths, Encode(text), side)
  }

  predicate Refused(tables: Tables, text: Chars, side: Byte) {
    Unquote(tables, text, side).Err?
  }

  /** No shorter front of a text of some length stands for the same name: they read alike only if both are refused. */
  lemma CutNames(tables: Tables, text: Chars, n: nat, side: Byte)
    requires 16384 < n < |text|
    ensures Unquote(tables, text, side) == Unquote(tables, text[..n], side)
       <==> Refused(tables, text, side) && Refused(tables, text[..n], side)
    ensures !Refused(tables, text, side) ==> LongName(Unquote(tables, text, side).value)
    ensures !Refused(tables, text[..n], side) ==> LongName(Unquote(tables, text[..n], side).value)
  {
    var front, rest := Encode(text[..n]), Encode(text[n..]);
    assert text[..n] + text[n..] == text;
    EncodeJoin(text[..n], text[n..]);
    EncodeLength(text[..n]);
    EncodeLength(text[n..]);
    var value := Encode(text);
    assert value == front + rest && value[..|front|] == front;
    PathQuoting.CutPath(tables.paths, value, |front|, side);
    PathQuoting.LongPath(tables.paths, value, side);
    PathQuoting.LongPath(tables.paths, front, side);
  }

  predicate LongName(name: Option<Bytes>) {
    name.Some? && |name.value| > 4000
  }

  // ---------------------------------------------------------------- Hunk headers

  function DigitOf(tables: Tables, c: nat): Option<nat> {
    if c >= 0x80 then tables.digit(c) else if 48 <= c <= 57 then Some(c - 48) else None
  }

  /** Where the digits that start at `i` end. */
  function DigitsEnd(tables: Tables, s: Chars, i: nat): (j: nat)
    requires i <= |s|
    ensures i <= j <= |s|
    ensures forall k :: i <= k < j ==> DigitOf(tables, s[k]).Some?
    ensures j < |s| ==> DigitOf(tables, s[j]).None?
    decreases |s| - i
  {
    if i == |s| || DigitOf(tables, s[i]).None? then i else DigitsEnd(tables, s, i + 1)
  }

  /** Where `word` ends, if it stands at `i`. */
  function AfterWord(s: Chars, i: nat, word: string): Option<nat> {
    if i + |word| <= |s| && s[i..i + |word|] == Ascii(word) then Some(i + |word|) else None
  }

  /** `\d+` */
  function AfterNumber(tables: Tables, s: Chars, i: nat): Option<nat>
    requires i <= |s|
  {
    if DigitsEnd(tables, s, i) > i then Some(DigitsEnd(tables, s, i)) else None
  }

  /** `(?:,\d+)?`, before a character that is no comma. */
  function AfterCount(tables: Tables, s: Chars, i: nat): Option<nat>
    requires i <= |s|
  {
    if i < |s| && s[i] == 44 then AfterNumber(tables, s, i + 1) else Some(i)
  }

  /** A match: where the two numbers stand, and where it ends. */
  datatype Header = Header(first: nat, firstEnd: nat, second: nat, secondEnd: nat, end: nat)

  function MatchHeader(tables: Tables, s: Chars): (h: Option<Header>)
    ensures h.Some? ==> h.value.first < h.value.firstEnd < h.value.second < h.value.secondEnd < h.value.end <= |s|
  {
    var a := AfterWord(s, 0, "@@ -");
    if a.None? then None else
    var b := AfterNumber(tables, s, a.value);
    if b.None? then None else
    var c := AfterCount(tables, s, b.value);
    if c.None? then None else
    var d := AfterWord(s, c.value, " +");
    if d.None? then None else
    var e := AfterNumber(tables, s, d.value);
    if e.None? then None else
    var f := AfterCount(tables, s, e.value);
    if f.None? then None else
    var g := AfterWord(s, f.value, " @@");
    if g.None? then None else Some(Header(a.value, b.value, d.value, e.value, g.value))
  }

  function Value(tables: Tables, s: Chars): nat {
    if s == [] then 0
    else
      var digit := DigitOf(tables, s[|s| - 1]);
      10 * Value(tables, s[..|s| - 1]) + if digit.Some? then digit.value else 0
  }

  /** The two line numbers; `None` if there is no match or a number does not convert. */
  function ReadHeader(tables: Tables, s: Chars): Option<(nat, nat)> {
    var m := MatchHeader(tables, s);
    if m.None? || m.value.firstEnd - m.value.first > MAX_DIGITS || m.value.secondEnd - m.value.second > MAX_DIGITS then None
    else Some((Value(tables, s[m.value.first..m.value.firstEnd]), Value(tables, s[m.value.second..m.value.secondEnd])))
  }

  lemma WordCut(s: Chars, n: nat, i: nat, word: string)
    requires i <= n <= |s|
    ensures AfterWord(s[..n], i, word) ==
            if AfterWord(s, i, word).Some? && AfterWord(s, i, word).value <= n then AfterWord(s, i, word) else None
  {
    if i + |word| <= n {
      assert s[..n][i..i + |word|] == s[i..i + |word|];
    }
  }

  lemma {:induction false} DigitsCut(tables: Tables, s: Chars, n: nat, i: nat)
    requires i <= n <= |s|
    ensures DigitsEnd(tables, s[..n], i) == if DigitsEnd(tables, s, i) <= n then DigitsEnd(tables, s, i) else n
    decreases n - i
  {
    if i < n {
      assert s[..n][i] == s[i];
      if DigitOf(tables, s[i]).Some? {
        DigitsCut(tables, s, n, i + 1);
      }
    }
  }

  lemma CountCut(tables: Tables, s: Chars, n: nat, i: nat)
    requires i < n <= |s|
    ensures AfterCount(tables, s, i).Some? && AfterCount(tables, s, i).value < n ==>
            AfterCount(tables, s[..n], i) == AfterCount(tables, s, i)
    ensures AfterCount(tables, s[..n], i).Some? && AfterCount(tables, s[..n], i).value < n ==>
            AfterCount(tables, s[..n], i) == AfterCount(tables, s, i)
  {
    DigitsCut(tables, s, n, i + 1);
  }

  lemma MatchShorter(tables: Tables, s: Chars, n: nat)
    requires n <= |s| && MatchHeader(tables, s).Some? && MatchHeader(tables, s).value.end <= n
    ensures MatchHeader(tables, s[..n]) == MatchHeader(tables, s)
  {
    hide AfterCount, DigitsEnd;
    var h := MatchHeader(tables, s).value;
    var c, f := AfterCount(tables, s, h.firstEnd).value, AfterCount(tables, s, h.secondEnd).value;
    WordCut(s, n, 0, "@@ -");
    DigitsCut(tables, s, n, h.first);
    CountCut(tables, s, n, h.firstEnd);
    WordCut(s, n, c, " +");
    DigitsCut(tables, s, n, h.second);
    CountCut(tables, s, n, h.secondEnd);
    WordCut(s, n, f, " @@");
  }

  lemma MatchLonger(tables: Tables, s: Chars, n: nat)
    requires n <= |s| && MatchHeader(tables, s[..n]).Some?
    ensures MatchHeader(tables, s) == MatchHeader(tables, s[..n])
  {
    hide AfterCount, DigitsEnd;
    var h := MatchHeader(tables, s[..n]).value;
    var c, f := AfterCount(tables, s[..n], h.firstEnd).value, AfterCount(tables, s[..n], h.secondEnd).value;
    WordCut(s, n, 0, "@@ -");
    DigitsCut(tables, s, n, h.first);
    CountCut(tables, s, n, h.firstEnd);
    WordCut(s, n, c, " +");
    DigitsCut(tables, s, n, h.second);
    CountCut(tables, s, n, h.secondEnd);
    WordCut(s, n, f, " @@");
  }

  /** A front of the text matches exactly if it reaches to the end of the text's match. */
  lemma MatchCut(tables: Tables, s: Chars, n: nat)
    requires n <= |s|
    ensures MatchHeader(tables, s[..n]) ==
            if MatchHeader(tables, s).Some? && MatchHeader(tables, s).value.end <= n then MatchHeader(tables, s) else None
  {
    hide AfterWord, AfterCount, AfterNumber;
    if MatchHeader(tables, s[..n]).Some? {
      MatchLonger(tables, s, n);
    } else if MatchHeader(tables, s).Some? && MatchHeader(tables, s).value.end <= n {
      MatchShorter(tables, s, n);
    }
  }

  /** So its front gives a header's numbers exactly if the match does not go on. */
  lemma HeaderCut(tables: Tables, s: Chars, n: nat)
    requires n <= |s|
    ensures ReadHeader(tables, s[..n]) ==
            if MatchHeader(tables, s).Some? && MatchHeader(tables, s).value.end > n then None else ReadHeader(tables, s)
  {
    hide MatchHeader, Value;
    MatchCut(tables, s, n);
    if MatchHeader(tables, s[..n]).Some? {
      var h := MatchHeader(tables, s).value;
      assert s[..n][h.first..h.firstEnd] == s[h.first..h.firstEnd];
      assert s[..n][h.second..h.secondEnd] == s[h.second..h.secondEnd];
    }
  }
}
