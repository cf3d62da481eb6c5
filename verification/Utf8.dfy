/** Bytes, and the well-formed byte sequences of section 4 of RFC 3629. */
module Utf8 {

  type Byte = x: int | 0 <= x < 256

  type Bytes = seq<Byte>

  /** A byte that continues a character: the source's `b & 0xC0 == 0x80`. */
  predicate IsTail(b: Byte) {
    0x80 <= b <= 0xBF
  }

  predicate Tails(s: Bytes, n: nat) {
    n < |s| && forall k :: 1 <= k <= n ==> IsTail(s[k])
  }

  /** The length of the well-formed character at the front of `s`; zero if there is none. */
  function CharLength(s: Bytes): (n: nat)
    ensures n <= |s| && n <= 4
    ensures n > 0 ==> !IsTail(s[0]) && forall k :: 1 <= k < n ==> IsTail(s[k])
  {
    if s == [] then 0
    else if s[0] <= 0x7F then 1
    else if 0xC2 <= s[0] <= 0xDF && Tails(s, 1) then 2
    else if 0xE0 <= s[0] <= 0xEF && Tails(s, 2)
            && (s[0] == 0xE0 ==> 0xA0 <= s[1]) && (s[0] == 0xED ==> s[1] <= 0x9F) then 3
    else if 0xF0 <= s[0] <= 0xF4 && Tails(s, 3)
            && (s[0] == 0xF0 ==> 0x90 <= s[1]) && (s[0] == 0xF4 ==> s[1] <= 0x8F) then 4
    else 0
  }

  predicate ValidUtf8(s: Bytes)
    decreases |s|
  {
    s == [] || (CharLength(s) > 0 && ValidUtf8(s[CharLength(s)..]))
  }

  /** `c` is not in the middle of a character. */
  predicate CharStart(s: Bytes, c: nat) {
    c == |s| || (c < |s| && !IsTail(s[c]))
  }

  lemma CharLengthPrefix(s: Bytes, m: nat)
    requires 0 < CharLength(s) <= m <= |s|
    ensures CharLength(s[..m]) == CharLength(s)
  {
  }

  /** Cutting valid text at a character start leaves two valid texts. */
  lemma {:induction false} ValidCut(s: Bytes, c: nat)
    requires ValidUtf8(s) && c <= |s| && CharStart(s, c)
    ensures ValidUtf8(s[..c]) && ValidUtf8(s[c..])
    decreases |s|
  {
    if c == 0 {
      assert s[0..] == s;
    } else {
      var n := CharLength(s);
      assert c >= n;
      CharLengthPrefix(s, c);
      ValidCut(s[n..], c - n);
      assert s[n..][..c - n] == s[..c][n..];
      assert s[n..][c - n..] == s[c..];
    }
  }

  lemma ValidStart(s: Bytes)
    requires ValidUtf8(s)
    ensures CharStart(s, 0)
  {
  }

  /** `text(payload)`: UTF-8 without NUL. */
  predicate Text(s: Bytes) {
    0 !in s && ValidUtf8(s)
  }

  /** A character starts after every ASCII byte. */
  lemma {:induction false} AfterAscii(s: Bytes, c: nat)
    requires ValidUtf8(s) && 0 < c <= |s| && s[c - 1] < 0x80
    ensures CharStart(s, c)
    decreases |s|
  {
    hide CharLength;
    var n := CharLength(s);
    if c > n {
      AfterAscii(s[n..], c - n);
    } else if c == n && c < |s| {
      assert CharLength(s[n..]) > 0;
      assert s[n..][0] == s[c];
    } else if c < n {
      LongStart(s);
    }
  }

  lemma LongStart(s: Bytes)
    requires CharLength(s) > 1
    ensures s[0] >= 0x80
  {
  }

  lemma CharLengthJoin(s: Bytes, t: Bytes)
    requires CharLength(s) > 0
    ensures CharLength(s + t) == CharLength(s)
  {
    assert forall k :: 0 <= k < |s| ==> (s + t)[k] == s[k];
  }

  lemma {:induction false} ValidJoin(s: Bytes, t: Bytes)
    requires ValidUtf8(s) && ValidUtf8(t)
    ensures ValidUtf8(s + t)
    decreases |s|
  {
    if s == [] {
      assert s + t == t;
    } else {
      hide CharLength;
      var n := CharLength(s);
      ValidJoin(s[n..], t);
      CharLengthJoin(s, t);
      assert (s + t)[n..] == s[n..] + t;
    }
  }

  lemma {:induction false} ValidAscii(s: Bytes)
    requires forall k :: 0 <= k < |s| ==> s[k] < 0x80
    ensures ValidUtf8(s)
  {
    if s != [] {
      ValidAscii(s[1..]);
    }
  }

  lemma TextSlice(s: Bytes, a: nat, b: nat)
    requires Text(s) && a <= b <= |s| && CharStart(s, a) && CharStart(s, b)
    ensures Text(s[a..b])
  {
    ValidCut(s, b);
    assert a < b ==> !IsTail(s[..b][a]);
    ValidCut(s[..b], a);
    assert s[..b][a..] == s[a..b];
  }

  /** A character has at most four bytes, so a character start is never far behind. */
  lemma {:induction false} StartNearby(s: Bytes, e: nat) returns (c: nat)
    requires ValidUtf8(s) && e <= |s|
    ensures c <= e <= c + 3 && CharStart(s, c)
    ensures forall d :: c < d <= e ==> !CharStart(s, d)
    decreases |s|
  {
    if s == [] {
      c := 0;
    } else {
      var n := CharLength(s);
      if e < n {
        c := 0;
        forall d | 0 < d <= e ensures !CharStart(s, d) {
          assert IsTail(s[d]);
        }
      } else {
        c := StartNearby(s[n..], e - n);
        forall d | c + n < d <= e ensures !CharStart(s, d) {
          assert !CharStart(s[n..], d - n);
        }
        c := c + n;
      }
    }
  }

  /** Where the first `b` is. */
  function First(s: Bytes, b: Byte): (n: nat)
    requires b in s
    ensures n < |s| && s[n] == b && b !in s[..n]
  {
    if s[0] == b then 0
    else
      assert s == [s[0]] + s[1..];
      assert forall k :: 1 <= k < |s| ==> s[1..][k - 1] == s[k];
      1 + First(s[1..], b)
  }

  lemma FirstIs(s: Bytes, b: Byte, n: nat)
    requires n < |s| && s[n] == b && b !in s[..n]
    ensures b in s && First(s, b) == n
  {
    var m := First(s, b);
    assert forall k :: 0 <= k < n ==> s[..n][k] == s[k];
    assert forall k :: 0 <= k < m ==> s[..m][k] == s[k];
  }
}
