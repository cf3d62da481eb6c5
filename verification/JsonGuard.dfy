/**
 The lexical guard of scripts/normal_release_archive.py `decode`, which bounds nesting and
 size before any JSON is parsed.  On the canonical text of every JSON value (sections 4, 5
 and 7 of RFC 8259) it agrees with the value's structure, whatever the strings contain.
 */
module JsonGuard {
  import opened Common
  import opened Utf8

  const MAX_DEPTH := 64
  const MAX_NODES := 500000
  const MAX_BYTES := 50 * 1024 * 1024

  // ---------------------------------------------------------------- Values and their canonical text

  /** A character of a string literal as `ensure_ascii` writes it. */
  datatype Unit = Plain(b: Byte) | Short(letter: Byte) | Hex(a: Byte, b: Byte, c: Byte, d: Byte)

  /** `number` is the text of a number; the lists are those of arrays and objects. */
  datatype Json = Word(word: Bytes) | Number(number: Bytes) | Str(units: seq<Unit>) | Arr(items: Items) | Obj(members: Members)

  datatype Items = NoItems | Item(value: Json, rest: Items)

  datatype Members = NoMembers | Member(key: seq<Unit>, value: Json, rest: Members)

  predicate HexDigit(b: Byte) {
    48 <= b <= 57 || 97 <= b <= 102
  }

  /** Section 7: everything but quotes, backslashes and control characters may stand for itself. */
  predicate ValidUnit(u: Unit) {
    match u
    case Plain(b) => 0x20 <= b <= 0x7F && b != 34 && b != 92
    case Short(letter) => letter in [34, 92, 98, 102, 110, 114, 116]
    case Hex(a, b, c, d) => HexDigit(a) && HexDigit(b) && HexDigit(c) && HexDigit(d)
  }

  predicate ValidUnits(units: seq<Unit>) {
    forall k :: 0 <= k < |units| ==> ValidUnit(units[k])
  }

  /** Digits, signs, points and exponents; section 6 allows fewer texts. */
  predicate NumberByte(b: Byte) {
    48 <= b <= 57 || b == 43 || b == 45 || b == 46 || b == 69 || b == 101
  }

  predicate LetterByte(b: Byte) {
    97 <= b <= 122
  }

  predicate Valid(v: Json) {
    match v
    case Word(word) => forall k :: 0 <= k < |word| ==> LetterByte(word[k])
    case Number(number) => forall k :: 0 <= k < |number| ==> NumberByte(number[k])
    case Str(units) => ValidUnits(units)
    case Arr(items) => ValidItems(items)
    case Obj(members) => ValidMembers(members)
  }

  predicate ValidItems(items: Items) {
    items.NoItems? || (Valid(items.value) && ValidItems(items.rest))
  }

  predicate ValidMembers(members: Members) {
    members.NoMembers? || (ValidUnits(members.key) && Valid(members.value) && ValidMembers(members.rest))
  }

  function UnitText(u: Unit): Bytes {
    match u
    case Plain(b) => [b]
    case Short(letter) => [92, letter]
    case Hex(a, b, c, d) => [92, 117, a, b, c, d]
  }

  function UnitsText(units: seq<Unit>): Bytes {
    if units == [] then [] else UnitText(units[0]) + UnitsText(units[1..])
  }

  function Literal(units: seq<Unit>): Bytes {
    [34] + UnitsText(units) + [34]
  }

  /** Compact separators, no white space. */
  function Text(v: Json): Bytes {
    match v
    case Word(word) => word
    case Number(number) => number
    case Str(units) => Literal(units)
    case Arr(items) => [91] + ItemsText(items) + [93]
    case Obj(members) => [123] + MembersText(members) + [125]
  }

  function ItemsText(items: Items): Bytes {
    if items.NoItems? then []
    else Text(items.value) + (if items.rest.NoItems? then [] else [44] + ItemsText(items.rest))
  }

  function MembersText(members: Members): Bytes {
    if members.NoMembers? then []
    else Literal(members.key) + [58] + Text(members.value)
         + (if members.rest.NoMembers? then [] else [44] + MembersText(members.rest))
  }

  /** `canonical(value)` */
  function Canonical(v: Json): Bytes {
    Text(v) + [10]
  }

  // ---------------------------------------------------------------- The structure to be bounded

  function Max(a: nat, b: nat): nat {
    if a < b then b else a
  }

  /** How deep containers nest. */
  function Nesting(v: Json): nat {
    match v
    case Word(_) => 0
    case Number(_) => 0
    case Str(_) => 0
    case Arr(items) => 1 + ItemsNesting(items)
    case Obj(members) => 1 + MembersNesting(members)
  }

  function ItemsNesting(items: Items): nat {
    if items.NoItems? then 0 else Max(Nesting(items.value), ItemsNesting(items.rest))
  }

  function MembersNesting(members: Members): nat {
    if members.NoMembers? then 0 else Max(Nesting(members.value), MembersNesting(members.rest))
  }

  /** The number of containers, commas and colons. */
  function Nodes(v: Json): nat {
    match v
    case Word(_) => 0
    case Number(_) => 0
    case Str(_) => 0
    case Arr(items) => 1 + ItemsNodes(items)
    case Obj(members) => 1 + MembersNodes(members)
  }

  function ItemsNodes(items: Items): nat {
    if items.NoItems? then 0
    else Nodes(items.value) + (if items.rest.NoItems? then 0 else 1 + ItemsNodes(items.rest))
  }

  function MembersNodes(members: Members): nat {
    if members.NoMembers? then 0
    else 1 + Nodes(members.value) + (if members.rest.NoMembers? then 0 else 1 + MembersNodes(members.rest))
  }

  // ---------------------------------------------------------------- The scan

  datatype State = State(quoted: bool, escaped: bool, depth: int, nodes: int)

  function Next(s: State, b: Byte): State {
    if s.quoted then
      if s.escaped then s.(escaped := false)
      else if b == 92 then s.(escaped := true)
      else if b == 34 then s.(quoted := false)
      else s
    else if b == 34 then s.(quoted := true)
    else if b == 91 || b == 123 then s.(depth := s.depth + 1, nodes := s.nodes + 1)
    else if b == 93 || b == 125 then s.(depth := s.depth - 1)
    else if b == 44 || b == 58 then s.(nodes := s.nodes + 1)
    else s
  }

  predicate Bounded(s: State) {
    0 <= s.depth <= MAX_DEPTH && s.nodes <= MAX_NODES
  }

  /** The state after the whole text, if every state on the way was bounded. */
  function Scan(s: State, text: Bytes): Option<State>
    decreases |text|
  {
    if text == [] then Some(s)
    else if Bounded(Next(s, text[0])) then Scan(Next(s, text[0]), text[1..])
    else None
  }

  /** The guard. */
  method LexicalGuard(raw: Bytes) returns (ok: bool)
    ensures ok <==> 0 < |raw| <= MAX_BYTES && Scan(State(false, false, 0, 0), raw).Some?
  {
    if !(0 < |raw| <= MAX_BYTES) {
      return false;
    }
    var quoted, escaped := false, false;
    var depth, nodes := 0, 0;
    assert raw[0..] == raw;
    for k := 0 to |raw|
      invariant Scan(State(false, false, 0, 0), raw) == Scan(State(quoted, escaped, depth, nodes), raw[k..])
    {
      var byte := raw[k];
      assert raw[k..][1..] == raw[k + 1..];
      if quoted {
        if escaped {
          escaped := false;
        } else if byte == 92 {
          escaped := true;
        } else if byte == 34 {
          quoted := false;
        }
      } else if byte == 34 {
        quoted := true;
      } else if byte == 91 || byte == 123 {
        depth := depth + 1;
        nodes := nodes + 1;
      } else if byte == 93 || byte == 125 {
        depth := depth - 1;
      } else if byte == 44 || byte == 58 {
        nodes := nodes + 1;
      }
      if !(0 <= depth <= MAX_DEPTH && nodes <= MAX_NODES) {
        return false;
      }
    }
    ok := true;
  }

  // ---------------------------------------------------------------- Scanning canonical text

  lemma {:induction false} ScanJoin(s: State, a: Bytes, b: Bytes)
    ensures Scan(s, a + b) == if Scan(s, a).None? then None else Scan(Scan(s, a).value, b)
    decreases |a|
  {
    if a == [] {
      assert a + b == b;
    } else {
      assert (a + b)[1..] == a[1..] + b;
      ScanJoin(Next(s, a[0]), a[1..], b);
    }
  }

  /** Between values: unquoted and bounded. */
  predicate Outside(s: State) {
    !s.quoted && !s.escaped && Bounded(s)
  }

  /** The state after a text of so much nesting and so many nodes: back at the same depth, if all of it was bounded. */
  function Through(s: State, nesting: nat, nodes: nat): Option<State> {
    if s.depth + nesting <= MAX_DEPTH && s.nodes + nodes <= MAX_NODES then Some(s.(nodes := s.nodes + nodes)) else None
  }

  lemma {:induction false} ScanQuiet(s: State, text: Bytes)
    requires Outside(s) && forall k :: 0 <= k < |text| ==> NumberByte(text[k]) || LetterByte(text[k])
    ensures Scan(s, text) == Some(s)
    decreases |text|
  {
    if text != [] {
      assert Next(s, text[0]) == s;
      ScanQuiet(s, text[1..]);
    }
  }

  lemma ScanUnit(s: State, u: Unit)
    requires s.quoted && !s.escaped && Bounded(s) && ValidUnit(u)
    ensures Scan(s, UnitText(u)) == Some(s)
  {
    match u
    case Plain(b) =>
      assert [b][1..] == [];
    case Short(letter) =>
      assert [92, letter][1..] == [letter] && [letter][1..] == [];
      assert Next(Next(s, 92), letter) == s;
      assert Scan(Next(s, 92), [letter]) == Some(s);
    case Hex(a, b, c, d) =>
      assert [92, 117, a, b, c, d][1..] == [117, a, b, c, d] && [117, a, b, c, d][1..] == [a, b, c, d];
      ScanHex(s, [a, b, c, d]);
      assert Next(Next(s, 92), 117) == s;
      assert Scan(Next(s, 92), [117, a, b, c, d]) == Scan(s, [a, b, c, d]);
  }

  lemma {:induction false} ScanHex(s: State, text: Bytes)
    requires s.quoted && !s.escaped && Bounded(s) && forall k :: 0 <= k < |text| ==> HexDigit(text[k])
    ensures Scan(s, text) == Some(s)
    decreases |text|
  {
    if text != [] {
      ScanHex(s, text[1..]);
    }
  }

  lemma {:induction false} ScanUnits(s: State, units: seq<Unit>)
    requires s.quoted && !s.escaped && Bounded(s) && ValidUnits(units)
    ensures Scan(s, UnitsText(units)) == Some(s)
    decreases |units|
  {
    if units != [] {
      ScanUnit(s, units[0]);
      ScanUnits(s, units[1..]);
      ScanJoin(s, UnitText(units[0]), UnitsText(units[1..]));
    }
  }

  lemma ScanByte(s: State, b: Byte)
    ensures Scan(s, [b]) == if Bounded(Next(s, b)) then Some(Next(s, b)) else None
  {
    assert [b][1..] == [];
  }

  /** A string passes unnoticed, whatever brackets, commas or quotes it holds. */
  lemma ScanLiteral(s: State, units: seq<Unit>)
    requires Outside(s) && ValidUnits(units)
    ensures Scan(s, Literal(units)) == Some(s)
  {
    hide ValidUnits;
    var q := s.(quoted := true);
    ScanByte(s, 34);
    ScanUnits(q, units);
    ScanByte(q, 34);
    ScanJoin(s, [34], UnitsText(units));
    ScanJoin(s, [34] + UnitsText(units), [34]);
  }

  lemma {:induction false} ScanText(s: State, v: Json)
    requires Outside(s) && Valid(v)
    ensures Scan(s, Text(v)) == Through(s, Nesting(v), Nodes(v))
    decreases v, 0
  {
    hide Scan, Next, Literal, ValidUnits;
    match v
    case Word(word) => ScanQuiet(s, word);
    case Number(number) => ScanQuiet(s, number);
    case Str(units) => ScanLiteral(s, units);
    case Arr(items) =>
      var inner := s.(depth := s.depth + 1, nodes := s.nodes + 1);
      if Bounded(inner) {
        ScanItems(inner, items);
      }
      ThroughContainer(s, 93, ItemsNesting(items), ItemsNodes(items));
      ScanContainer(s, 91, ItemsText(items), 93, if Bounded(inner) then Through(inner, ItemsNesting(items), ItemsNodes(items)) else None,
                    Through(s, Nesting(v), Nodes(v)));
    case Obj(members) =>
      var inner := s.(depth := s.depth + 1, nodes := s.nodes + 1);
      if Bounded(inner) {
        ScanMembers(inner, members);
      }
      ThroughContainer(s, 125, MembersNesting(members), MembersNodes(members));
      ScanContainer(s, 123, MembersText(members), 125,
                    if Bounded(inner) then Through(inner, MembersNesting(members), MembersNodes(members)) else None,
                    Through(s, Nesting(v), Nodes(v)));
  }

  function Kept(s: State): Option<State> {
    if Bounded(s) then Some(s) else None
  }

  function Onward(s: Option<State>, text: Bytes): Option<State> {
    if s.None? then None else Scan(s.value, text)
  }

  lemma ScanThree(s: State, a: Bytes, b: Bytes, c: Bytes)
    ensures Scan(s, a + b + c) == Onward(Onward(Scan(s, a), b), c)
    ensures Scan(s, a + (b + c)) == Onward(Onward(Scan(s, a), b), c)
  {
    ScanJoin(s, a, b);
    ScanJoin(s, a + b, c);
    assert a + b + c == a + (b + c);
  }

  lemma Structural(s: State, b: Byte)
    requires Outside(s)
    ensures b == 91 || b == 123 ==> Scan(s, [b]) == Kept(s.(depth := s.depth + 1, nodes := s.nodes + 1))
    ensures b == 93 || b == 125 ==> Scan(s, [b]) == Kept(s.(depth := s.depth - 1))
    ensures b == 44 || b == 58 ==> Scan(s, [b]) == Kept(s.(nodes := s.nodes + 1))
  {
    ScanByte(s, b);
  }

  /** A bracket, a text and the closing bracket. */
  lemma ScanContainer(s: State, open: Byte, text: Bytes, close: Byte, u: Option<State>, v: Option<State>)
    requires Outside(s) && (open == 91 || open == 123)
    requires var inner := s.(depth := s.depth + 1, nodes := s.nodes + 1); u == if Bounded(inner) then Scan(inner, text) else None
    requires v == Onward(u, [close])
    ensures Scan(s, [open] + text + [close]) == v
  {
    hide Scan, Next;
    Structural(s, open);
    ScanThree(s, [open], text, [close]);
  }

  lemma ThroughContainer(s: State, close: Byte, nesting: nat, nodes: nat)
    requires Outside(s) && (close == 93 || close == 125)
    ensures var inner := s.(depth := s.depth + 1, nodes := s.nodes + 1);
            Onward(if Bounded(inner) then Through(inner, nesting, nodes) else None, [close]) == Through(s, 1 + nesting, 1 + nodes)
  {
    hide Scan, Next;
    var inner := s.(depth := s.depth + 1, nodes := s.nodes + 1);
    if Bounded(inner) && Through(inner, nesting, nodes).Some? {
      Structural(Through(inner, nesting, nodes).value, close);
    }
  }

  /** One value after another: both must be within the bounds. */
  lemma ThroughTwice(s: State, n: nat, m: nat, n': nat, m': nat)
    ensures Through(s, Max(n, n'), m + m')
         == (if Through(s, n, m).None? then None else Through(Through(s, n, m).value, n', m'))
  {
  }

  lemma {:induction false} ScanItems(s: State, items: Items)
    requires Outside(s) && ValidItems(items)
    ensures Scan(s, ItemsText(items)) == Through(s, ItemsNesting(items), ItemsNodes(items))
    decreases items, 0
  {
    if items.Item? {
      var v, rest := items.value, items.rest;
      ScanText(s, v);
      if rest.NoItems? {
        assert Text(v) + [] == Text(v);
      } else {
        var t := Through(s, Nesting(v), Nodes(v));
        ScanJoin(s, Text(v), [44] + ItemsText(rest));
        if t.Some? {
          ScanSeparator(t.value, 44, ItemsText(rest));
          if Bounded(t.value.(nodes := t.value.nodes + 1)) {
            ScanItems(t.value.(nodes := t.value.nodes + 1), rest);
          }
        }
      }
    }
  }

  lemma ScanSeparator(s: State, b: Byte, text: Bytes)
    requires Outside(s) && (b == 44 || b == 58)
    ensures Scan(s, [b] + text) ==
      (var t := s.(nodes := s.nodes + 1); if Bounded(t) then Scan(t, text) else None)
  {
    hide Scan, Next;
    Structural(s, b);
    ScanJoin(s, [b], text);
  }

  lemma ThroughColon(s: State, n: nat, m: nat)
    requires Outside(s)
    ensures var t := s.(nodes := s.nodes + 1);
            Through(s, n, 1 + m) == if Bounded(t) then Through(t, n, m) else None
  {
  }

  /** A colon, a value and whatever follows it in the object. */
  lemma ScanMember(s: State, text: Bytes, tail: Bytes, u: Option<State>, v: Option<State>)
    requires Outside(s)
    requires var t := s.(nodes := s.nodes + 1); u == if Bounded(t) then Scan(t, text) else None
    requires v == Onward(u, tail)
    ensures Scan(s, [58] + (text + tail)) == v
  {
    hide Scan, Next;
    Structural(s, 58);
    ScanThree(s, [58], text, tail);
  }

  /** A comma and the other members, if there are any. */
  function RestText(rest: Members): Bytes {
    if rest.NoMembers? then [] else [44] + MembersText(rest)
  }

  lemma FourParts(a: Bytes, b: Bytes, c: Bytes, d: Bytes)
    ensures a + b + c + d == a + (b + (c + d))
  {
  }

  lemma MemberParts(members: Members)
    requires members.Member?
    ensures MembersText(members) == Literal(members.key) + ([58] + (Text(members.value) + RestText(members.rest)))
  {
    hide Literal, Text;
    FourParts(Literal(members.key), [58], Text(members.value), RestText(members.rest));
  }

  lemma {:induction false} ScanMembers(s: State, members: Members)
    requires Outside(s) && ValidMembers(members)
    ensures Scan(s, MembersText(members)) == Through(s, MembersNesting(members), MembersNodes(members))
    decreases members, 0
  {
    hide Scan, Next, ValidUnits, Literal, MembersText, Text;
    if members.NoMembers? {
      ScanNothing(s);
    } else {
      var v, rest := members.value, members.rest;
      var tail := RestText(rest);
      var colon := s.(nodes := s.nodes + 1);
      ScanLiteral(s, members.key);
      MemberParts(members);
      ScanJoin(s, Literal(members.key), [58] + (Text(v) + tail));
      if Bounded(colon) {
        ScanText(colon, v);
      }
      ThroughColon(s, Nesting(v), Nodes(v));
      var t := Through(s, Nesting(v), 1 + Nodes(v));
      if t.Some? {
        ScanRest(t.value, rest);
      }
      var n, m := MembersNesting(rest), if rest.NoMembers? then 0 else 1 + MembersNodes(rest);
      ThroughTwice(s, Nesting(v), 1 + Nodes(v), n, m);
      ScanMember(s, Text(v), tail, t, if t.None? then None else Through(t.value, n, m));
    }
  }

  lemma ScanNothing(s: State)
    requires Outside(s)
    ensures Scan(s, []) == Some(s) == Through(s, 0, 0) && MembersText(NoMembers) == []
  {
  }

  /** The members after a comma, if there are any. */
  lemma ScanRest(s: State, rest: Members)
    requires Outside(s) && ValidMembers(rest)
    ensures Scan(s, RestText(rest))
         == Through(s, MembersNesting(rest), if rest.NoMembers? then 0 else 1 + MembersNodes(rest))
    decreases rest, 1
  {
    hide Scan, Next, MembersText;
    if rest.NoMembers? {
      ScanNothing(s);
    } else {
      var t := s.(nodes := s.nodes + 1);
      ScanSeparator(s, 44, MembersText(rest));
      if Bounded(t) {
        ScanMembers(t, rest);
      }
    }
  }

  /**
   The guard accepts a canonical text exactly when the value nests at most 64 deep and has
   at most 500000 containers, commas and colons; it then ends unquoted, at depth zero, having
   counted them.
   */
  lemma GuardAgrees(v: Json)
    requires Valid(v)
    ensures Scan(State(false, false, 0, 0), Canonical(v)) ==
      if Nesting(v) <= MAX_DEPTH && Nodes(v) <= MAX_NODES then Some(State(false, false, 0, Nodes(v))) else None
  {
    hide Scan, Next, Text, Valid, Nesting, Nodes;
    var s := State(false, false, 0, 0);
    ScanText(s, v);
    ScanJoin(s, Text(v), [10]);
    if Through(s, Nesting(v), Nodes(v)).Some? {
      ScanNewline(Through(s, Nesting(v), Nodes(v)).value);
    }
  }

  lemma ScanNewline(s: State)
    requires Outside(s)
    ensures Scan(s, [10]) == Some(s)
  {
    ScanByte(s, 10);
  }
}
