/**
 Git's quoted paths: `quote_diff_path` and `unquote_diff_path` of scripts/lit-push-ready.py,
 `path_value` and `validate_path` of scripts/bounded_review.py.  Names are byte strings; a
 Python string stands for its UTF-8 (surrogateescape) encoding.
 */
module PathQuoting {
  import opened Common
  import opened Utf8

  const QUOTE: Byte := 34
  const BACKSLASH: Byte := 92
  const SLASH: Byte := 47
  const DOT: Byte := 46
  const MAX_PATH := 32768

  // ---------------------------------------------------------------- Escapes

  /** The byte that a single letter after a backslash stands for. */
  function Letter(b: Byte): Option<Byte> {
    if b == 97 then Some(7)          // a
    else if b == 98 then Some(8)     // b
    else if b == 116 then Some(9)    // t
    else if b == 110 then Some(10)   // n
    else if b == 118 then Some(11)   // v
    else if b == 102 then Some(12)   // f
    else if b == 114 then Some(13)   // r
    else if b == QUOTE || b == BACKSLASH then Some(b)
    else None
  }

  predicate IsOctal(b: Byte) {
    48 <= b <= 55
  }

  /** Undo the escapes of a quoted path. */
  function Unescape(s: Bytes): Result<Bytes>
    decreases |s|
  {
    if s == [] then Ok([])
    else if s[0] != BACKSLASH then Prepend(s[0], Unescape(s[1..]))
    else if |s| < 2 then Err
    else if Letter(s[1]).Some? then Prepend(Letter(s[1]).value, Unescape(s[2..]))
    else if |s| < 4 || !(48 <= s[1] <= 51) || !IsOctal(s[2]) || !IsOctal(s[3]) then Err
    else Prepend(64 * (s[1] - 48) + 8 * (s[2] - 48) + (s[3] - 48), Unescape(s[4..]))
  }

  function Prepend(b: Byte, r: Result<Bytes>): Result<Bytes> {
    if r.Ok? then Ok([b] + r.value) else Err
  }

  /** One byte of the text between the quotes, and where the next one starts. */
  method DecodeItem(source: Bytes, index: nat) returns (r: Result<(Byte, nat)>)
    requires index < |source|
    ensures r.Ok? ==> index < r.value.1 <= |source|
    ensures Unescape(source[index..]) == if r.Ok? then Prepend(r.value.0, Unescape(source[r.value.1..])) else Err
  {
    ghost var rest := source[index..];
    var item, next := source[index], index + 1;
    assert rest[1..] == source[next..];
    if item == BACKSLASH {
      if next >= |source| {
        return Err;
      }
      assert rest[1] == source[next];
      if Letter(source[next]).Some? {
        assert rest[2..] == source[next + 1..];
        return Ok((Letter(source[next]).value, next + 1));
      }
      if next + 3 > |source| {
        return Err;
      }
      var octal := source[next..next + 3];
      assert rest[1] == octal[0] && rest[2] == octal[1] && rest[3] == octal[2] && rest[4..] == source[next + 3..];
      if !(48 <= octal[0] <= 51 && IsOctal(octal[1]) && IsOctal(octal[2])) {
        return Err;
      }
      item := 64 * (octal[0] - 48) + 8 * (octal[1] - 48) + (octal[2] - 48);
      next := next + 3;
    }
    r := Ok((item, next));
  }

  /** The loop both unquoting functions run over the text between the quotes. */
  method DecodeQuoted(source: Bytes) returns (r: Result<Bytes>)
    ensures r == Unescape(source)
  {
    var decoded: Bytes, index := [], 0;
    assert source[0..] == source;
    PrependAll(decoded, Unescape(source));
    while index < |source|
      invariant 0 <= index <= |source|
      invariant Unescape(source) == Behind(decoded, Unescape(source[index..]))
    {
      hide Unescape;
      var item := DecodeItem(source, index);
      if item.Err? {
        return Err;
      }
      BehindOne(decoded, item.value.0, Unescape(source[item.value.1..]));
      decoded := decoded + [item.value.0];
      index := item.value.1;
    }
    assert source[index..] == [];
    assert decoded + [] == decoded;
    r := Ok(decoded);
  }

  ghost function Behind(decoded: Bytes, r: Result<Bytes>): Result<Bytes> {
    if r.Ok? then Ok(decoded + r.value) else Err
  }

  lemma PrependAll(none: Bytes, r: Result<Bytes>)
    requires none == []
    ensures Behind(none, r) == r
  {
    if r.Ok? {
      assert none + r.value == r.value;
    }
  }

  lemma BehindOne(decoded: Bytes, b: Byte, r: Result<Bytes>)
    ensures Behind(decoded, Prepend(b, r)) == Behind(decoded + [b], r)
  {
    if r.Ok? {
      assert decoded + ([b] + r.value) == decoded + [b] + r.value;
    }
  }

  function Octal(b: Byte): Bytes {
    [BACKSLASH, 48 + b / 64, 48 + b / 8 % 8, 48 + b % 8]
  }

  /** `quote_diff_path`'s escape of one byte. */
  function EscapeByte(b: Byte): Bytes {
    if b == BACKSLASH || b == QUOTE then [BACKSLASH, b]
    else if b == 9 then [BACKSLASH, 116]
    else if b == 10 then [BACKSLASH, 110]
    else if b == 13 then [BACKSLASH, 114]
    else if 0x20 <= b <= 0x7E then [b]
    else Octal(b)
  }

  /** Git's escape of one byte, which knows more letters. */
  function GitEscapeByte(b: Byte): Bytes {
    if b == 7 then [BACKSLASH, 97]
    else if b == 8 then [BACKSLASH, 98]
    else if b == 11 then [BACKSLASH, 118]
    else if b == 12 then [BACKSLASH, 102]
    else EscapeByte(b)
  }

  function Escape(s: Bytes): Bytes {
    if s == [] then [] else EscapeByte(s[0]) + Escape(s[1..])
  }

  function GitEscape(s: Bytes): Bytes {
    if s == [] then [] else GitEscapeByte(s[0]) + GitEscape(s[1..])
  }

  lemma UnescapeOne(b: Byte, rest: Bytes, git: bool)
    ensures var e := if git then GitEscapeByte(b) else EscapeByte(b);
            Unescape(e + rest) == Prepend(b, Unescape(rest))
  {
    hide Unescape, Octal;
    if git && (b == 7 || b == 8 || b == 11 || b == 12) {
      UnescapeLetter(if b == 7 then 97 else if b == 8 then 98 else if b == 11 then 118 else 102, b, rest);
    } else if b == BACKSLASH || b == QUOTE {
      UnescapeLetter(b, b, rest);
    } else if b == 9 || b == 10 || b == 13 {
      UnescapeLetter(if b == 9 then 116 else if b == 10 then 110 else 114, b, rest);
    } else if 0x20 <= b <= 0x7E {
      UnescapePlain(b, rest);
    } else {
      UnescapeOctal(b, rest);
    }
  }

  lemma UnescapePlain(b: Byte, rest: Bytes)
    requires b != BACKSLASH
    ensures Unescape([b] + rest) == Prepend(b, Unescape(rest))
  {
    assert ([b] + rest)[1..] == rest;
  }

  lemma UnescapeLetter(letter: Byte, b: Byte, rest: Bytes)
    requires Letter(letter) == Some(b)
    ensures Unescape([BACKSLASH, letter] + rest) == Prepend(b, Unescape(rest))
  {
    assert ([BACKSLASH, letter] + rest)[2..] == rest;
  }

  lemma UnescapeOctal(b: Byte, rest: Bytes)
    ensures Unescape(Octal(b) + rest) == Prepend(b, Unescape(rest))
  {
    hide Unescape;
    OctalValue(b);
    UnescapeDigits(48 + b / 64, 48 + b / 8 % 8, 48 + b % 8, rest);
  }

  lemma OctalValue(b: Byte)
    ensures b / 64 < 4 && 64 * (b / 64) + 8 * (b / 8 % 8) + b % 8 == b
  {
  }

  lemma UnescapeDigits(high: Byte, middle: Byte, low: Byte, rest: Bytes)
    requires 48 <= high <= 51 && IsOctal(middle) && IsOctal(low)
    ensures Unescape([BACKSLASH, high, middle, low] + rest) ==
            Prepend(64 * (high - 48) + 8 * (middle - 48) + (low - 48), Unescape(rest))
  {
    var s := [BACKSLASH, high, middle, low] + rest;
    assert s[0] == BACKSLASH && s[1] == high && s[2] == middle && s[3] == low && s[4..] == rest;
  }

  /** Escaping loses nothing. */
  lemma {:induction false} EscapeInverts(s: Bytes)
    ensures Unescape(Escape(s)) == Ok(s)
  {
    if s != [] {
      EscapeInverts(s[1..]);
      UnescapeOne(s[0], Escape(s[1..]), false);
      assert [s[0]] + s[1..] == s;
    }
  }

  lemma {:induction false} GitEscapeInverts(s: Bytes)
    ensures Unescape(GitEscape(s)) == Ok(s)
  {
    if s != [] {
      GitEscapeInverts(s[1..]);
      UnescapeOne(s[0], GitEscape(s[1..]), true);
      assert [s[0]] + s[1..] == s;
    }
  }

  // ---------------------------------------------------------------- Which names are safe

  function Components(s: Bytes): (r: seq<Bytes>)
    ensures |r| > 0
  {
    if s == [] then [[]]
    else
      var rest := Components(s[1..]);
      if s[0] == SLASH then [[]] + rest else [[s[0]] + rest[0]] + rest[1..]
  }

  predicate BadComponent(part: Bytes) {
    part == [] || part == [DOT] || part == [DOT, DOT] || part == [DOT, 103, 105, 116]  // .git
  }

  predicate GoodComponents(s: Bytes) {
    forall k :: 0 <= k < |Components(s)| ==> !BadComponent(Components(s)[k])
  }

  /** `validate_path(name)`. */
  predicate ValidPath(name: Bytes) {
    0 < |name| <= MAX_PATH && Text(name) && name[0] != SLASH && GoodComponents(name)
  }

  /**
   The checks at the end of `unquote_diff_path`.  A lone dot passes: it is its own
   normal form and has no parts.
   */
  predicate SafePath(path: Bytes) {
    && path != [] && path[0] != SLASH && BACKSLASH !in path
    && (forall k :: 0 <= k < |path| ==> path[k] >= 0x20 && path[k] != 0x7F)
    && (path == [DOT] || GoodComponents(path))
  }

  // ---------------------------------------------------------------- bounded_review.py

  /** `path_value(raw, prefix)`. */
  function PathValue(raw: Bytes, prefix: Bytes): Result<Bytes> {
    if !(0 < |raw| <= MAX_PATH) then Err
    else if raw[0] == QUOTE then
      // a lone quote is its own closing quote, and stands for nothing
      if raw[|raw| - 1] != QUOTE then Err
      else if Unescape(if |raw| == 1 then [] else raw[1..|raw| - 1]).Err? then Err
      else Unprefixed(Unescape(if |raw| == 1 then [] else raw[1..|raw| - 1]).value, prefix)
    else Unprefixed(raw, prefix)
  }

  function Unprefixed(raw: Bytes, prefix: Bytes): Result<Bytes> {
    if !(prefix <= raw) then Err
    else if ValidPath(raw[|prefix|..]) then Ok(raw[|prefix|..])
    else Err
  }

  function Quoted(escaped: Bytes): Bytes {
    [QUOTE] + escaped + [QUOTE]
  }

  lemma PathValueQuoted(escaped: Bytes, value: Bytes, prefix: Bytes)
    requires Unescape(escaped) == Ok(value) && |escaped| + 2 <= MAX_PATH
    ensures PathValue(Quoted(escaped), prefix) == Unprefixed(value, prefix)
  {
    hide Unescape, Unprefixed;
    assert Quoted(escaped)[1..|Quoted(escaped)| - 1] == escaped;
  }

  // ---------------------------------------------------------------- lit-push-ready.py

  /**
   Python's tables for text beyond ASCII: has a white space character; has a character from
   U+0080 to U+00FF.
   */
  datatype Tables = Tables(blank: Bytes -> bool, latin: Bytes -> bool)

  predicate IsAscii(value: Bytes) {
    forall k :: 0 <= k < |value| ==> value[k] < 0x80
  }

  /** `any(character.isspace() for character in value)` */
  predicate Blank(tables: Tables, value: Bytes) {
    || (exists k :: 0 <= k < |value| && (9 <= value[k] <= 13 || 28 <= value[k] <= 32))
    || (!IsAscii(value) && tables.blank(value))
  }

  predicate NeedsQuotes(tables: Tables, value: Bytes) {
    || Blank(tables, value) || (!IsAscii(value) && tables.latin(value))
    || exists k :: 0 <= k < |value| && (value[k] < 0x20 || value[k] == 0x7F || value[k] == QUOTE || value[k] == BACKSLASH)
  }

  /** `quote_diff_path(prefix, name)`; `side` is the letter a or b. */
  function QuoteDiffPath(tables: Tables, side: Byte, name: Bytes): Bytes {
    var value := [side, SLASH] + name;
    if NeedsQuotes(tables, value) then Quoted(Escape(value)) else value
  }

  const DEV_NULL: Bytes := [47, 100, 101, 118, 47, 110, 117, 108, 108]

  /** `unquote_diff_path(value, prefix)`; `Ok(None)` is the null device. */
  function UnquoteDiffPath(tables: Tables, value: Bytes, side: Byte): Result<Option<Bytes>> {
    if value == DEV_NULL then Ok(None)
    else if value != [] && value[0] == QUOTE then
      if |value| < 2 || value[|value| - 1] != QUOTE then Err
      else
        var decoded := Unescape(value[1..|value| - 1]);
        if decoded.Err? || !ValidUtf8(decoded.value) then Err else CheckedPath(decoded.value, side)
    else if Blank(tables, value) then Err
    else CheckedPath(value, side)
  }

  function CheckedPath(value: Bytes, side: Byte): Result<Option<Bytes>> {
    if [side, SLASH] <= value && SafePath(value[2..]) then Ok(Some(value[2..])) else Err
  }

  predicate IsSide(side: Byte) {
    side == 97 || side == 98
  }

  /**
   Unquoting gives the name back exactly when the name is safe; a name that is not UTF-8
   comes back only if nothing in it called for quotes.  Otherwise it is refused.
   */
  lemma QuoteRoundTrip(tables: Tables, side: Byte, name: Bytes)
    requires IsSide(side)
    ensures UnquoteDiffPath(tables, QuoteDiffPath(tables, side, name), side) ==
      (if SafePath(name) && (NeedsQuotes(tables, [side, SLASH] + name) ==> ValidUtf8([side, SLASH] + name))
       then Ok(Some(name)) else Err)
  {
    var value := [side, SLASH] + name;
    assert value[2..] == name;
    if NeedsQuotes(tables, value) {
      UnquoteQuoted(tables, value, side);
    } else {
      assert value[0] == side;
    }
  }

  lemma UnquoteQuoted(tables: Tables, value: Bytes, side: Byte)
    ensures UnquoteDiffPath(tables, Quoted(Escape(value)), side)
         == if ValidUtf8(value) then CheckedPath(value, side) else Err
  {
    var quoted := Quoted(Escape(value));
    EscapeInverts(value);
    assert quoted[0] == QUOTE && quoted[|quoted| - 1] == QUOTE;
    assert quoted[1..|quoted| - 1] == Escape(value);
    assert quoted != DEV_NULL by {
      assert DEV_NULL[0] == 47;
    }
  }

  lemma PrefixedUtf8(side: Byte, name: Bytes)
    requires IsSide(side)
    ensures ValidUtf8([side, SLASH] + name) <==> ValidUtf8(name)
  {
    var value := [side, SLASH] + name;
    assert value[1..][1..] == name && value[1..][0] == SLASH;
  }

  /** So for UTF-8 names the safety rule alone decides. */
  lemma QuoteRoundTripText(tables: Tables, side: Byte, name: Bytes)
    requires IsSide(side) && ValidUtf8(name)
    ensures UnquoteDiffPath(tables, QuoteDiffPath(tables, side, name), side) == Ok(Some(name)) <==> SafePath(name)
  {
    PrefixedUtf8(side, name);
    QuoteRoundTrip(tables, side, name);
  }

  // ---------------------------------------------------------------- Names that are cut

  lemma {:induction false} UnescapeJoin(a: Bytes, b: Bytes)
    requires Unescape(a).Ok?
    ensures Unescape(a + b) == Behind(Unescape(a).value, Unescape(b))
    decreases |a|
  {
    if a == [] {
      assert a + b == b;
      PrependAll([], Unescape(b));
    } else {
      var n := if a[0] != BACKSLASH then 1 else if Letter(a[1]).Some? then 2 else 4;
      assert (a + b)[n..] == a[n..] + b;
      UnescapeJoin(a[n..], b);
      PrependBehind(Unescape(a).value[0], Unescape(a[n..]).value, Unescape(b));
    }
  }

  lemma PrependBehind(b: Byte, decoded: Bytes, r: Result<Bytes>)
    ensures Prepend(b, Behind(decoded, r)) == Behind([b] + decoded, r)
  {
    if r.Ok? {
      Regroup([b], decoded, r.value);
    }
  }

  /** No escape shrinks a byte to less than a quarter. */
  lemma {:induction false} UnescapeLength(s: Bytes)
    requires Unescape(s).Ok?
    ensures |s| <= 4 * |Unescape(s).value|
    decreases |s|
  {
    if s != [] {
      UnescapeLength(s[if s[0] != BACKSLASH then 1 else if Letter(s[1]).Some? then 2 else 4..]);
    }
  }

  /** A long text stands for a long name. */
  lemma LongPath(tables: Tables, value: Bytes, side: Byte)
    requires |value| > 16384
    ensures UnquoteDiffPath(tables, value, side).Ok? ==>
            var name := UnquoteDiffPath(tables, value, side).value;
            name.Some? && |name.value| > 4000
  {
    if UnquoteDiffPath(tables, value, side).Ok? && value[0] == QUOTE {
      UnescapeLength(value[1..|value| - 1]);
    }
  }

  /** A text and its front never stand for the same name. */
  lemma CutPath(tables: Tables, value: Bytes, n: nat, side: Byte)
    requires |DEV_NULL| < n < |value|
    ensures UnquoteDiffPath(tables, value, side) == UnquoteDiffPath(tables, value[..n], side)
       <==> UnquoteDiffPath(tables, value, side).Err? && UnquoteDiffPath(tables, value[..n], side).Err?
  {
    var front := value[..n];
    if UnquoteDiffPath(tables, value, side).Ok? && UnquoteDiffPath(tables, front, side).Ok? && value[0] == QUOTE {
      var a, b := front[1..n - 1], value[n - 1..|value| - 1];
      CutInside(value, n);
      UnescapeJoin(a, b);
      if Unescape(b).Ok? {
        UnescapeLength(b);
        assert |Unescape(a + b).value| > |Unescape(a).value|;
      }
    }
  }

  lemma CutInside(value: Bytes, n: nat)
    requires 2 <= n < |value|
    ensures value[1..|value| - 1] == value[..n][1..n - 1] + value[n - 1..|value| - 1]
  {
  }

  /** An escaped name that is cut before one of its quotes is cut inside an escape. */
  lemma {:induction false} EscapeCut(s: Bytes, n: nat)
    requires n < |Escape(s)| && Escape(s)[n] == QUOTE
    ensures Unescape(Escape(s)[..n]).Err?
  {
    var e := EscapeByte(s[0]);
    if n < |e| {
      assert e == [BACKSLASH, QUOTE] && Escape(s)[..n] == [BACKSLASH];
    } else {
      EscapeCut(s[1..], n - |e|);
      assert Escape(s)[..n] == e + Escape(s[1..])[..n - |e|];
      UnescapeOne(s[0], Escape(s[1..])[..n - |e|], false);
    }
  }

  /** So a quoted name without its end is refused, wherever it is cut. */
  lemma QuotedCut(tables: Tables, value: Bytes, n: nat, side: Byte)
    requires 0 < n < |Quoted(Escape(value))|
    ensures UnquoteDiffPath(tables, Quoted(Escape(value))[..n], side).Err?
  {
    hide Escape, Unescape, CheckedPath, ValidUtf8;
    var escaped, front := Escape(value), Quoted(Escape(value))[..n];
    assert front[0] == QUOTE && DEV_NULL[0] == SLASH;
    if n >= 2 && front[n - 1] == QUOTE {
      assert front[1..n - 1] == escaped[..n - 2] && front[n - 1] == escaped[n - 2];
      EscapeCut(value, n - 2);
    }
  }

  /** The other module reads the same quoting: it accepts a valid path within its length limit. */
  lemma PathValueReadsQuotes(tables: Tables, side: Byte, name: Bytes)
    requires IsSide(side)
    ensures PathValue(QuoteDiffPath(tables, side, name), [side, SLASH]) == Ok(name)
       <==> ValidPath(name) && |QuoteDiffPath(tables, side, name)| <= MAX_PATH
  {
    var value := [side, SLASH] + name;
    assert value[2..] == name;
    EscapeInverts(value);
    if NeedsQuotes(tables, value) && |Quoted(Escape(value))| <= MAX_PATH {
      PathValueQuoted(Escape(value), value, [side, SLASH]);
    }
  }

  /** The two rules differ: a lone dot is safe for one and invalid for the other. */
  lemma LoneDot()
    ensures SafePath([DOT]) && !ValidPath([DOT])
  {
    var none: seq<Bytes> := [[]];
    assert Components([]) == none && [DOT][1..] == [];
    assert Components([DOT]) == [[DOT] + none[0]] + none[1..];
    assert [DOT] + none[0] == [DOT];
    assert BadComponent(Components([DOT])[0]);
  }
}
