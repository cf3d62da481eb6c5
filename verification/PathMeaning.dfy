/**
 What the texts of names mean: UTF-8 is what encodes characters, a quoted name is a list of
 spelled bytes, and a safe name is one whose parts between slashes are ordinary.
 */
module PathMeaning {
  import opened Common
  import opened Utf8
  import opened PathQuoting
  import opened Splitter
  import DiffText

  // ---------------------------------------------------------------- UTF-8

  predicate Scalars(chars: Chars) {
    forall k :: 0 <= k < |chars| ==> DiffText.Scalar(chars[k])
  }

  lemma CharBefore(a: Bytes, b: Bytes)
    requires 0 < CharLength(a) == |a|
    ensures CharLength(a + b) == |a| && (a + b)[|a|..] == b
  {
  }

  lemma {:induction false} EncodedIsValid(chars: Chars)
    requires Scalars(chars)
    ensures ValidUtf8(DiffText.Encode(chars))
  {
    if chars != [] {
      hide CharLength, DiffText.EncodeChar, DiffText.Point;
      EncodedIsValid(chars[1..]);
      DiffText.EncodesPoint(chars[0]);
      CharBefore(DiffText.EncodeChar(chars[0]), DiffText.Encode(chars[1..]));
    }
  }

  /** Every character that is accepted is the encoding of a scalar value. */
  lemma PointEncodes(s: Bytes)
    requires 0 < CharLength(s) == |s|
    ensures DiffText.Point(s) >= 0 && DiffText.Scalar(DiffText.Point(s)) && DiffText.EncodeChar(DiffText.Point(s)) == s
  {
    var c := DiffText.Point(s);
    var b: seq<int> := s;
    if |s| == 2 {
      Quotient(c, b[0] - 0xC0, b[1] - 0x80);
    } else if |s| == 3 {
      Quotient(c, (b[0] - 0xE0) * 64 + (b[1] - 0x80), b[2] - 0x80);
      Quotient(c / 64, b[0] - 0xE0, b[1] - 0x80);
      DiffText.Halves(c);
    } else if |s| == 4 {
      Quotient(c, ((b[0] - 0xF0) * 64 + (b[1] - 0x80)) * 64 + (b[2] - 0x80), b[3] - 0x80);
      Quotient(c / 64, (b[0] - 0xF0) * 64 + (b[1] - 0x80), b[2] - 0x80);
      Quotient(c / 64 / 64, b[0] - 0xF0, b[1] - 0x80);
      DiffText.Halves(c);
    }
  }

  lemma Quotient(c: int, x: int, y: int)
    requires 0 <= y < 64 && c == x * 64 + y
    ensures c / 64 == x && c % 64 == y
  {
  }

  lemma FirstPoint(s: Bytes) returns (c: nat, rest: Bytes)
    requires ValidUtf8(s) && s != []
    ensures DiffText.Scalar(c) && s == DiffText.EncodeChar(c) + rest && ValidUtf8(rest) && |rest| < |s|
  {
    var n := CharLength(s);
    CharLengthPrefix(s, n);
    hide CharLength, DiffText.EncodeChar, DiffText.Point;
    PointEncodes(s[..n]);
    c, rest := DiffText.Point(s[..n]), s[n..];
  }

  lemma {:induction false} ValidIsEncoded(s: Bytes) returns (chars: Chars)
    requires ValidUtf8(s)
    ensures Scalars(chars) && DiffText.Encode(chars) == s
    decreases |s|
  {
    hide ValidUtf8, DiffText.EncodeChar, DiffText.Scalar;
    if s == [] {
      return [];
    }
    var c, rest := FirstPoint(s);
    var more := ValidIsEncoded(rest);
    chars := [c] + more;
    assert chars[1..] == more;
  }

  /** Text is accepted exactly if it encodes characters other than surrogates. */
  lemma Utf8Is(s: Bytes)
    ensures ValidUtf8(s) <==> exists chars :: Scalars(chars) && DiffText.Encode(chars) == s
  {
    if ValidUtf8(s) {
      var chars := ValidIsEncoded(s);
    } else {
      forall chars | Scalars(chars) ensures DiffText.Encode(chars) != s {
        EncodedIsValid(chars);
      }
    }
  }

  // ---------------------------------------------------------------- Quoted names

  /** A byte as it is spelled in a quoted name. */
  datatype Spelling = Itself(b: Byte) | Escaped(letter: Byte) | Octal(high: nat, middle: nat, low: nat)

  /** The letters a, b, t, n, v, f, r, the quote and the backslash, and what they spell. */
  const ESCAPES := map[97 := 7, 98 := 8, 116 := 9, 110 := 10, 118 := 11, 102 := 12, 114 := 13, 34 := 34, 92 := 92]

  predicate ValidSpelling(x: Spelling) {
    match x
    case Itself(b) => b != 92
    case Escaped(letter) => letter in ESCAPES
    case Octal(high, middle, low) => high < 4 && middle < 8 && low < 8
  }

  predicate ValidSpellings(xs: seq<Spelling>) {
    forall k :: 0 <= k < |xs| ==> ValidSpelling(xs[k])
  }

  function SpellingText(x: Spelling): Bytes
    requires ValidSpelling(x)
  {
    match x
    case Itself(b) => [b]
    case Escaped(letter) => [92, letter]
    case Octal(high, middle, low) => [92, 48 + high, 48 + middle, 48 + low]
  }

  function SpellingValue(x: Spelling): Byte
    requires ValidSpelling(x)
  {
    match x
    case Itself(b) => b
    case Escaped(letter) => ESCAPES[letter]
    case Octal(high, middle, low) => 64 * high + 8 * middle + low
  }

  function SpellingsText(xs: seq<Spelling>): Bytes
    requires ValidSpellings(xs)
  {
    if xs == [] then [] else SpellingText(xs[0]) + SpellingsText(xs[1..])
  }

  function SpellingValues(xs: seq<Spelling>): Bytes
    requires ValidSpellings(xs)
  {
    if xs == [] then [] else [SpellingValue(xs[0])] + SpellingValues(xs[1..])
  }

  lemma SpellingRead(x: Spelling, rest: Bytes)
    requires ValidSpelling(x)
    ensures Unescape(SpellingText(x) + rest) == Prepend(SpellingValue(x), Unescape(rest))
  {
    var s := SpellingText(x) + rest;
    assert s[|SpellingText(x)|..] == rest;
  }

  lemma {:induction false} SpellingsRead(xs: seq<Spelling>)
    requires ValidSpellings(xs)
    ensures Unescape(SpellingsText(xs)) == Ok(SpellingValues(xs))
  {
    if xs != [] {
      hide SpellingText, SpellingValue, Unescape;
      SpellingsRead(xs[1..]);
      SpellingRead(xs[0], SpellingsText(xs[1..]));
    } else {
      assert Unescape([]) == Ok([]);
    }
  }

  lemma FirstSpelling(s: Bytes) returns (x: Spelling, rest: Bytes)
    requires s != [] && Unescape(s).Ok?
    ensures ValidSpelling(x) && s == SpellingText(x) + rest && Unescape(rest).Ok? && |rest| < |s|
  {
    if s[0] != 92 {
      return Itself(s[0]), s[1..];
    } else if Letter(s[1]).Some? {
      return Escaped(s[1]), s[2..];
    }
    x, rest := Octal(s[1] - 48, s[2] - 48, s[3] - 48), s[4..];
  }

  lemma {:induction false} SpellingsOf(s: Bytes) returns (xs: seq<Spelling>)
    requires Unescape(s).Ok?
    ensures ValidSpellings(xs) && s == SpellingsText(xs)
    decreases |s|
  {
    if s == [] {
      return [];
    }
    var x, rest := FirstSpelling(s);
    hide SpellingText, Unescape;
    var more := SpellingsOf(rest);
    xs := [x] + more;
    assert xs[1..] == more;
  }

  /** The text between the quotes is read exactly as the bytes that it spells, and refused if it spells none. */
  lemma UnescapeIs(s: Bytes, value: Bytes)
    ensures Unescape(s) == Ok(value) <==> exists xs :: ValidSpellings(xs) && SpellingsText(xs) == s && SpellingValues(xs) == value
  {
    hide Unescape, SpellingsText, SpellingValues;
    if Unescape(s) == Ok(value) {
      var xs := SpellingsOf(s);
      SpellingsRead(xs);
    }
    forall xs | ValidSpellings(xs) && SpellingsText(xs) == s && SpellingValues(xs) == value ensures Unescape(s) == Ok(value) {
      SpellingsRead(xs);
    }
  }

  /** A quoted name is printable ASCII, and one without quotes holds nothing that would call for them. */
  predicate Shown(t: Bytes) {
    if t != [] && t[0] == 34 then forall k :: 0 <= k < |t| ==> 32 <= t[k] < 127
    else forall k :: 0 <= k < |t| ==> 32 < t[k] != 127 && t[k] != 34 && t[k] != 92
  }

  lemma {:induction false} EscapePrintable(s: Bytes)
    ensures forall k :: 0 <= k < |Escape(s)| ==> 32 <= Escape(s)[k] < 127
  {
    if s != [] {
      EscapePrintable(s[1..]);
    }
  }

  /** So no name breaks a line of a patch, whatever bytes it holds. */
  lemma QuoteShows(tables: Tables, side: Byte, name: Bytes)
    requires IsSide(side)
    ensures Shown(QuoteDiffPath(tables, side, name))
  {
    EscapePrintable([side, SLASH] + name);
  }

  // ---------------------------------------------------------------- Safe names

  /** `s[i..j]` is a part of `s` between slashes, or before the first or behind the last. */
  predicate IsPart(s: Bytes, i: nat, j: nat)
    requires i <= j <= |s|
  {
    (i == 0 || s[i - 1] == 47) && (j == |s| || s[j] == 47) && forall k :: i <= k < j ==> s[k] != 47
  }

  predicate Ordinary(part: Bytes) {
    part != Ascii("") && part != Ascii(".") && part != Ascii("..") && part != Ascii(".git")
  }

  predicate PartsOrdinary(s: Bytes) {
    forall i, j :: 0 <= i <= j <= |s| && IsPart(s, i, j) ==> Ordinary(s[i..j])
  }

  /** The first part, and the others. */
  lemma {:induction false} FirstPart(s: Bytes) returns (n: nat)
    ensures n <= |s| && IsPart(s, 0, n) && Components(s)[0] == s[..n]
    ensures Components(s)[1..] == if n == |s| then [] else Components(s[n + 1..])
  {
    if s == [] || s[0] == SLASH {
      n := 0;
    } else {
      var m := FirstPart(s[1..]);
      n := m + 1;
      assert s[..n] == [s[0]] + s[1..][..m];
      assert m < |s| - 1 ==> s[1..][m + 1..] == s[n + 1..];
      assert forall k :: 1 <= k < n ==> s[k] == s[1..][k - 1];
    }
  }

  lemma WordsAre(part: Bytes)
    ensures BadComponent(part) <==> !Ordinary(part)
  {
    assert Ascii(".git") == [46, 103, 105, 116] && Ascii("..") == [46, 46] && Ascii(".") == [46] && Ascii("") == [];
  }

  lemma GoodParts(s: Bytes, n: nat)
    requires n <= |s| && Components(s)[0] == s[..n]
    requires Components(s)[1..] == if n == |s| then [] else Components(s[n + 1..])
    ensures GoodComponents(s) <==> !BadComponent(s[..n]) && (n < |s| ==> GoodComponents(s[n + 1..]))
  {
    hide BadComponent;
    var rest := Components(s)[1..];
    assert forall k :: 0 <= k < |rest| ==> rest[k] == Components(s)[k + 1];
  }

  /** The other parts are parts of what is behind the first one. */
  lemma PartBehind(s: Bytes, n: nat, i: nat, j: nat)
    requires n < |s| && IsPart(s, 0, n) && i <= j <= |s| && IsPart(s, i, j)
    ensures if i == 0 then j == n else n < i && IsPart(s[n + 1..], i - n - 1, j - n - 1)
    ensures i > 0 ==> s[n + 1..][i - n - 1..j - n - 1] == s[i..j]
  {
  }

  lemma PartsBehind(s: Bytes, n: nat)
    requires n < |s| && IsPart(s, 0, n)
    ensures PartsOrdinary(s) <==> Ordinary(s[0..n]) && PartsOrdinary(s[n + 1..])
  {
    hide Ordinary;
    var rest := s[n + 1..];
    if PartsOrdinary(s) {
      forall i, j | 0 <= i <= j <= |rest| && IsPart(rest, i, j) ensures Ordinary(rest[i..j]) {
        assert IsPart(s, i + n + 1, j + n + 1) && s[i + n + 1..j + n + 1] == rest[i..j];
      }
    }
    hide IsPart;
    if Ordinary(s[0..n]) && PartsOrdinary(rest) {
      forall i, j | 0 <= i <= j <= |s| && IsPart(s, i, j) ensures Ordinary(s[i..j]) {
        PartBehind(s, n, i, j);
      }
    }
  }

  lemma PartsAlone(s: Bytes)
    requires IsPart(s, 0, |s|)
    ensures PartsOrdinary(s) <==> Ordinary(s[0..|s|])
  {
    hide Ordinary;
  }

  /** The two ways to find the parts agree. */
  lemma {:induction false} ComponentsAre(s: Bytes)
    ensures GoodComponents(s) <==> PartsOrdinary(s)
    decreases |s|
  {
    var n := FirstPart(s);
    GoodParts(s, n);
    WordsAre(s[..n]);
    assert s[0..n] == s[..n];
    hide *;
    if n < |s| {
      ComponentsAre(s[n + 1..]);
      PartsBehind(s, n);
    } else {
      PartsAlone(s);
    }
  }

  lemma NoEmptyPart(name: Bytes)
    ensures PartsOrdinary(name) ==> name != [] && name[0] != 47
  {
    if name == [] || name[0] == 47 {
      assert IsPart(name, 0, 0) && !Ordinary(name[0..0]);
    }
  }

  /** `validate_path` accepts exactly UTF-8 without NUL of at most 32768 bytes, whose parts are ordinary. */
  lemma ValidPathIs(name: Bytes)
    ensures ValidPath(name) <==>
      |name| <= 32768 && 0 !in name && PartsOrdinary(name) && exists chars :: Scalars(chars) && DiffText.Encode(chars) == name
  {
    hide ValidUtf8, Components, PartsOrdinary, Scalars;
    Utf8Is(name);
    ComponentsAre(name);
    NoEmptyPart(name);
  }

  /** The patch reader accepts a lone dot too, but no backslash and no control character. */
  lemma SafePathIs(path: Bytes)
    ensures SafePath(path) <==>
      && (PartsOrdinary(path) || path == Ascii("."))
      && forall k :: 0 <= k < |path| ==> 32 <= path[k] && path[k] != 92 && path[k] != 127
  {
    hide GoodComponents, PartsOrdinary;
    ComponentsAre(path);
    NoEmptyPart(path);
    assert Ascii(".") == [46];
  }

  // ---------------------------------------------------------------- What is read as a name

  /** `text` is `value` between quotes, spelled byte by byte. */
  ghost predicate Quotes(text: Bytes, value: Bytes) {
    exists xs :: ValidSpellings(xs) && text == [34] + SpellingsText(xs) + [34] && SpellingValues(xs) == value
  }

  lemma QuotesAre(text: Bytes, value: Bytes)
    ensures Quotes(text, value) <==>
      |text| >= 2 && text[0] == 34 && text[|text| - 1] == 34 && Unescape(text[1..|text| - 1]) == Ok(value)
  {
    hide Unescape, SpellingsText, SpellingValues, ValidSpellings;
    forall xs | ValidSpellings(xs) && text == [34] + SpellingsText(xs) + [34] && SpellingValues(xs) == value
      ensures |text| >= 2 && text[0] == 34 && text[|text| - 1] == 34 && Unescape(text[1..|text| - 1]) == Ok(value) {
      assert text[1..|text| - 1] == SpellingsText(xs);
      UnescapeIs(text[1..|text| - 1], value);
    }
    if |text| >= 2 && text[0] == 34 && text[|text| - 1] == 34 && Unescape(text[1..|text| - 1]) == Ok(value) {
      UnescapeIs(text[1..|text| - 1], value);
      assert text == [34] + text[1..|text| - 1] + [34];
    }
  }

  /** `path_value(raw, prefix)` reads exactly the valid names of a text of at most 32768 bytes, as they are or quoted. */
  lemma PathValueIs(raw: Bytes, prefix: Bytes, name: Bytes)
    ensures PathValue(raw, prefix) == Ok(name) <==>
      && 0 < |raw| <= 32768 && ValidPath(name)
      && ((raw[0] != 34 && raw == prefix + name) || Quotes(raw, prefix + name))
  {
    hide Unescape, ValidPath, Quotes;
    QuotesAre(raw, prefix + name);
    NoName();
    if PathValue(raw, prefix) == Ok(name) {
      var value := if raw[0] == 34 then Unescape(if |raw| == 1 then [] else raw[1..|raw| - 1]).value else raw;
      assert value == prefix + name;
    }
    assert (prefix + name)[|prefix|..] == name;
  }

  lemma NoName()
    ensures Unescape([]) == Ok([]) && !ValidPath([])
  {
  }

  predicate Ascii7(s: Bytes) {
    forall b :: b in s ==> 0 <= b < 128
  }

  predicate WhiteAscii(b: Byte) {
    b in {9, 10, 11, 12, 13, 28, 29, 30, 31, 32}
  }

  /** `unquote_diff_path(value, side)` reads exactly the safe names behind the side: as they are, if there is no white space, or quoted. */
  lemma UnquoteIs(tables: Tables, value: Bytes, side: Byte, name: Bytes)
    requires IsSide(side)
    ensures UnquoteDiffPath(tables, value, side) == Ok(Some(name)) <==>
      && SafePath(name)
      && (|| (value == [side, 47] + name && (forall k :: 0 <= k < |value| ==> !WhiteAscii(value[k])) && (Ascii7(value) || !tables.blank(value)))
          || (Quotes(value, [side, 47] + name) && ValidUtf8(name)))
  {
    hide Unescape, SafePath, Quotes, ValidUtf8;
    var whole := [side, 47] + name;
    QuotesAre(value, whole);
    SideUtf8(side, name);
    BlankIs(tables, value);
    hide Blank;
    assert whole[2..] == name && DEV_NULL[0] == 47;
    if value != [] && value[0] == 34 && |value| >= 2 && Unescape(value[1..|value| - 1]).Ok? {
      CheckedIs(Unescape(value[1..|value| - 1]).value, side, name);
    }
    CheckedIs(value, side, name);
  }

  lemma CheckedIs(value: Bytes, side: Byte, name: Bytes)
    ensures CheckedPath(value, side) == Ok(Some(name)) <==> value == [side, 47] + name && SafePath(name)
  {
    hide SafePath;
    if [side, 47] <= value {
      assert value == [side, 47] + value[2..];
    }
    assert ([side, 47] + name)[2..] == name;
  }

  lemma AsciiIs(s: Bytes)
    ensures IsAscii(s) <==> Ascii7(s)
  {
    if Ascii7(s) {
      forall k | 0 <= k < |s| ensures s[k] < 0x80 {
        assert s[k] in s;
      }
    }
  }

  lemma BlankIs(tables: Tables, value: Bytes)
    ensures Blank(tables, value) <==>
      (exists k :: 0 <= k < |value| && WhiteAscii(value[k])) || !(Ascii7(value) || !tables.blank(value))
  {
    AsciiIs(value);
    hide IsAscii, Ascii7;
  }

  lemma SideUtf8(side: Byte, name: Bytes)
    ensures side < 0x80 ==> (ValidUtf8([side, 47] + name) <==> ValidUtf8(name))
  {
    var value := [side, 47] + name;
    assert value[1..][1..] == name && value[1..][0] == 47;
  }
}
