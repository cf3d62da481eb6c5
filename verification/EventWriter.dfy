/**
 Server-sent events as they are written, and the check of scripts/bounded_review_transport.py as
 their reader: it accepts exactly the complete streams, and returns their last event's response.
 */
module EventWriter {
  import opened Common
  import opened EventStream

  // ---------------------------------------------------------------- Writing

  /** A line of a block: a comment, the event's name, or a line of its data. */
  datatype Item = Note(text: string) | Name(text: string) | Datum(text: string)

  type Block = seq<Item>

  function ItemLine(i: Item): string {
    match i
    case Note(text) => ":" + text
    case Name(text) => "event: " + text
    case Datum(text) => "data: " + text
  }

  function ItemLines(b: Block): seq<string> {
    if b == [] then [] else [ItemLine(b[0])] + ItemLines(b[1..])
  }

  function NamesOf(b: Block): seq<string> {
    if b == [] then [] else (if b[0].Name? then [b[0].text] else []) + NamesOf(b[1..])
  }

  function DataOf(b: Block): seq<string> {
    if b == [] then [] else (if b[0].Datum? then [b[0].text] else []) + DataOf(b[1..])
  }

  function NameOf(b: Block): Option<string> {
    if NamesOf(b) == [] then None else Some(NamesOf(b)[0])
  }

  predicate Plain(s: string) {
    forall k :: 0 <= k < |s| ==> s[k] != '\n' && s[k] != '\r'
  }

  predicate PlainItems(b: Block) {
    forall k :: 0 <= k < |b| ==> Plain(b[k].text)
  }

  /** Some lines, with at most one name, and data if there is a name. */
  predicate ValidBlock(b: Block) {
    b != [] && PlainItems(b) && |NamesOf(b)| <= 1 && (NamesOf(b) != [] ==> DataOf(b) != [])
  }

  predicate ValidBlocks(blocks: seq<Block>) {
    forall k :: 0 <= k < |blocks| ==> ValidBlock(blocks[k])
  }

  function BlockText(b: Block): string {
    JoinWith("\n", ItemLines(b))
  }

  /** Each block and an empty line behind it. */
  function Printed(blocks: seq<Block>): string {
    if blocks == [] then "" else BlockText(blocks[0]) + "\n\n" + Printed(blocks[1..])
  }

  // ---------------------------------------------------------------- What a complete stream is

  /** The names and objects of the blocks with data, if all of those read. */
  function Objects<T>(json: string -> Result<Object<T>>, blocks: seq<Block>): Result<seq<(Option<string>, Object<T>)>> {
    if blocks == [] then Ok([])
    else
      match Objects(json, blocks[..|blocks| - 1])
      case Err => Err
      case Ok(os) =>
        var b := blocks[|blocks| - 1];
        if DataOf(b) == [] then Ok(os)
        else
          match json(JoinWith("\n", DataOf(b)))
          case Err => Err
          case Ok(o) => Ok(os + [(NameOf(b), o)])
  }

  /** The object has a response type, and the event's name, if it has one, is that type. */
  predicate Typed<T>(name: Option<string>, o: Object<T>) {
    o.type_.Some? && "response." <= o.type_.value && (name == None || name == o.type_)
  }

  predicate IsType<T>(o: Object<T>, name: string) {
    o.type_ == Some(name)
  }

  /** Event number `k` of a complete stream. */
  predicate InOrder<T>(os: seq<(Option<string>, Object<T>)>, k: nat)
    requires k < |os|
  {
    var o, first := os[k].1, os[0].1;
    && Typed(os[k].0, o) && o.sequence == Some(k)
    && (IsType(o, "response.created") <==> k == 0)
    && (IsType(o, "response.completed") <==> k == |os| - 1)
    && !IsType(o, "response.failed") && !IsType(o, "response.incomplete") && !IsType(o, "response.cancelled")
    && (o.response.Absent? || o.response.Present?)
    && (k == 0 || k == |os| - 1 ==> o.response.Present?)
    && first.response.Present? && first.response.id.Some? && 1 <= |first.response.id.value| <= 256
    && (o.response.Present? ==> o.response.id == first.response.id)
  }

  /** Numbered from zero, created first, completed last, and one response throughout. */
  predicate Complete<T>(os: seq<(Option<string>, Object<T>)>) {
    0 < |os| <= 100000 && forall k :: 0 <= k < |os| ==> InOrder(os, k)
  }

  function LastResponse<T>(os: seq<(Option<string>, Object<T>)>): Option<T> {
    if os != [] && os[|os| - 1].1.response.Present? then Some(os[|os| - 1].1.response.body) else None
  }

  // ---------------------------------------------------------------- Lines are read back

  lemma {:induction false} FindFrom(text: string, delimiter: string, start: nat, pos: nat)
    requires delimiter != [] && start <= pos && StandsAt(text, delimiter, pos)
    requires forall k :: start <= k < pos ==> !StandsAt(text, delimiter, k)
    ensures Find(text, delimiter, start) == Some(pos)
    decreases pos - start
  {
    if start < pos {
      FindFrom(text, delimiter, start + 1, pos);
    }
  }

  lemma {:induction false} FindNone(text: string, delimiter: string, start: nat)
    requires delimiter != [] && start <= |text| && forall k :: start <= k <= |text| ==> !StandsAt(text, delimiter, k)
    ensures Find(text, delimiter, start) == None
    decreases |text| - start
  {
    if start < |text| {
      FindNone(text, delimiter, start + 1);
    }
  }

  lemma SliceShift(front: string, text: string, a: nat, b: nat)
    requires a <= b <= |text|
    ensures (front + text)[|front| + a..|front| + b] == text[a..b] && (front + text)[|front| + a..] == text[a..]
  {
  }

  lemma StandsShift(front: string, text: string, delimiter: string, k: nat)
    ensures StandsAt(front + text, delimiter, |front| + k) <==> StandsAt(text, delimiter, k)
  {
    if k + |delimiter| <= |text| {
      SliceShift(front, text, k, k + |delimiter|);
    }
  }

  /** Behind a front that is read, the rest is read alone. */
  lemma {:induction false} FindShift(front: string, text: string, delimiter: string, start: nat)
    requires delimiter != [] && start <= |text|
    ensures Find(front + text, delimiter, |front| + start) ==
      match Find(text, delimiter, start) { case None => None case Some(k) => Some(|front| + k) }
    decreases |text| - start
  {
    hide StandsAt;
    StandsShift(front, text, delimiter, start);
    if start + |delimiter| <= |text| && !StandsAt(text, delimiter, start) {
      FindShift(front, text, delimiter, start + 1);
    }
  }

  lemma {:induction false} PiecesShift(front: string, text: string, delimiter: string, start: nat)
    requires delimiter != [] && start <= |text|
    ensures Pieces(front + text, delimiter, |front| + start) == Pieces(text, delimiter, start)
    decreases |text| - start
  {
    hide StandsAt, Find;
    FindShift(front, text, delimiter, start);
    var end := Find(text, delimiter, start);
    OnePiece(text, delimiter, start);
    OnePiece(front + text, delimiter, |front| + start);
    if end.None? {
      SliceShift(front, text, start, |text|);
    } else {
      SliceShift(front, text, start, end.value);
      PiecesShift(front, text, delimiter, end.value + |delimiter|);
    }
  }

  /** The first piece ends at the first delimiter. */
  lemma PiecesCons(piece: string, delimiter: string, rest: string)
    requires delimiter != [] && forall k :: 0 <= k < |piece| ==> !StandsAt(piece + delimiter + rest, delimiter, k)
    ensures Pieces(piece + delimiter + rest, delimiter, 0) == [piece] + Pieces(rest, delimiter, 0)
  {
    hide Find, StandsAt, Pieces;
    var text := piece + delimiter + rest;
    Behind(piece, delimiter, rest);
    FindFrom(text, delimiter, 0, |piece|);
    OnePiece(text, delimiter, 0);
    PiecesShift(piece + delimiter, rest, delimiter, 0);
  }

  lemma Behind(piece: string, delimiter: string, rest: string)
    ensures var text := piece + delimiter + rest;
      StandsAt(text, delimiter, |piece|) && text[0..|piece|] == piece && |piece + delimiter| == |piece| + |delimiter|
  {
    var text := piece + delimiter + rest;
    assert text[|piece|..|piece| + |delimiter|] == delimiter;
  }

  lemma {:induction false} LinesBack(lines: seq<string>)
    requires lines != [] && forall k :: 0 <= k < |lines| ==> Plain(lines[k])
    ensures Pieces(JoinWith("\n", lines), "\n", 0) == lines
  {
    var line := lines[0];
    if |lines| == 1 {
      forall k | 0 <= k <= |line| ensures !StandsAt(line, "\n", k) {
        assert k < |line| ==> line[k..k + 1][0] == line[k];
      }
      FindNone(line, "\n", 0);
      assert line[0..] == line;
    } else {
      var rest := JoinWith("\n", lines[1..]);
      forall k | 0 <= k < |line| ensures !StandsAt(line + "\n" + rest, "\n", k) {
        assert (line + "\n" + rest)[k..k + 1][0] == line[k];
      }
      PiecesCons(line, "\n", rest);
      LinesBack(lines[1..]);
    }
  }

  // ---------------------------------------------------------------- Blocks are read back

  /** A block has no empty line, and neither starts nor ends with a line end. */
  predicate Solid(text: string) {
    && text != [] && text[|text| - 1] != '\n'
    && forall k :: 0 <= k < |text| - 1 ==> !(text[k] == '\n' && text[k + 1] == '\n')
  }

  lemma ItemPlain(i: Item)
    requires Plain(i.text)
    ensures Plain(ItemLine(i)) && ItemLine(i) != []
  {
  }

  lemma {:induction false} LinesPlain(b: Block)
    requires PlainItems(b)
    ensures |ItemLines(b)| == |b| && forall k :: 0 <= k < |b| ==> Plain(ItemLines(b)[k]) && ItemLines(b)[k] != []
  {
    hide ItemLine, Plain;
    if b != [] {
      ItemPlain(b[0]);
      assert forall k :: 1 <= k < |b| ==> b[k] == b[1..][k - 1];
      LinesPlain(b[1..]);
    }
  }

  lemma {:induction false} LinesSolid(lines: seq<string>)
    requires lines != [] && forall k :: 0 <= k < |lines| ==> Plain(lines[k]) && lines[k] != []
    ensures Solid(JoinWith("\n", lines)) && JoinWith("\n", lines)[0] != '\n' && '\r' !in JoinWith("\n", lines)
  {
    if |lines| > 1 {
      LinesSolid(lines[1..]);
      SolidJoin(lines[0], JoinWith("\n", lines[1..]));
    }
  }

  lemma SolidJoin(line: string, rest: string)
    requires Plain(line) && line != [] && Solid(rest) && rest[0] != '\n' && '\r' !in rest
    ensures Solid(line + "\n" + rest) && (line + "\n" + rest)[0] != '\n' && '\r' !in line + "\n" + rest
  {
    var text := line + "\n" + rest;
    forall k | 0 <= k < |text| - 1 ensures !(text[k] == '\n' && text[k + 1] == '\n') {
      if k > |line| {
        assert text[k] == rest[k - |line| - 1] && text[k + 1] == rest[k - |line|];
      } else if k == |line| {
        assert text[k + 1] == rest[0];
      } else {
        assert text[k] == line[k];
      }
    }
    assert text[|text| - 1] == rest[|rest| - 1];
  }

  lemma BlockSolid(b: Block)
    requires ValidBlock(b)
    ensures Solid(BlockText(b)) && '\r' !in BlockText(b)
  {
    hide Plain, Solid, JoinWith;
    LinesPlain(b);
    LinesSolid(ItemLines(b));
  }

  lemma SolidFirst(text: string, rest: string)
    requires Solid(text)
    ensures Pieces(text + "\n\n" + rest, "\n\n", 0) == [text] + Pieces(rest, "\n\n", 0)
  {
    var all := text + "\n\n" + rest;
    forall k | 0 <= k < |text| ensures !StandsAt(all, "\n\n", k) {
      var two := all[k..k + 2];
      assert two[0] == all[k] == text[k] && two[1] == all[k + 1];
      assert k < |text| - 1 ==> all[k + 1] == text[k + 1];
    }
    PiecesCons(text, "\n\n", rest);
  }

  function Texts(blocks: seq<Block>): seq<string> {
    if blocks == [] then [] else [BlockText(blocks[0])] + Texts(blocks[1..])
  }

  lemma {:induction false} BlocksBack(blocks: seq<Block>)
    requires ValidBlocks(blocks)
    ensures Pieces(Printed(blocks), "\n\n", 0) == Texts(blocks) + [""] && '\r' !in Printed(blocks)
  {
    hide BlockText, Solid, Pieces, ValidBlock;
    if blocks == [] {
      NothingBack();
    } else {
      assert ValidBlock(blocks[0]) && forall k :: 0 <= k < |blocks[1..]| ==> blocks[1..][k] == blocks[k + 1];
      BlockSolid(blocks[0]);
      SolidFirst(BlockText(blocks[0]), Printed(blocks[1..]));
      BlocksBack(blocks[1..]);
      Regroup([BlockText(blocks[0])], Texts(blocks[1..]), [""]);
    }
  }

  lemma NothingBack()
    ensures Pieces("", "\n\n", 0) == [""]
  {
    assert ""[0..] == "";
  }

  lemma {:induction false} PrintedEnds(blocks: seq<Block>)
    requires blocks != []
    ensures |Printed(blocks)| >= 2 && Printed(blocks)[|Printed(blocks)| - 2..] == "\n\n"
  {
    hide BlockText;
    var rest := Printed(blocks[1..]);
    if |blocks| > 1 {
      PrintedEnds(blocks[1..]);
      var all, front := Printed(blocks), BlockText(blocks[0]) + "\n\n";
      assert all == front + rest && all[|all| - 2..] == rest[|rest| - 2..];
    } else {
      assert blocks[1..] == [] && rest == "";
      assert (BlockText(blocks[0]) + "\n\n" + "")[|BlockText(blocks[0])|..] == "\n\n";
    }
  }

  // ---------------------------------------------------------------- Fields are read back

  /** What one line adds to the fields read before it. */
  lemma ItemReads(f: Fields, i: Item)
    ensures FieldLine(f, ItemLine(i)) ==
      match i {
        case Note(_) => Ok(f)
        case Name(text) => if f.name.None? then Ok(f.(name := Some(text))) else Err
        case Datum(text) => Ok(f.(data := f.data + [text]))
      }
  {
    var line := ItemLine(i);
    if !i.Note? {
      var colon := if i.Name? then 5 else 4;
      assert line[colon..colon + 1] == ":";
      forall k | 0 <= k < colon ensures !StandsAt(line, ":", k) {
        assert line[k..k + 1][0] == line[k];
      }
      FindFrom(line, ":", 0, colon);
      assert line[..colon] == if i.Name? then "event" else "data";
      assert line[colon + 1..] == " " + i.text && (" " + i.text)[1..] == i.text;
    }
  }

  lemma {:induction false} NamesSnoc(b: Block, i: Item)
    ensures NamesOf(b + [i]) == if i.Name? then NamesOf(b) + [i.text] else NamesOf(b)
  {
    if b == [] {
      assert b + [i] == [i] && [i][1..] == [];
    } else {
      NamesSnoc(b[1..], i);
      assert (b + [i])[1..] == b[1..] + [i];
      if b[0].Name? && i.Name? {
        Regroup([b[0].text], NamesOf(b[1..]), [i.text]);
      }
    }
  }

  lemma {:induction false} DataSnoc(b: Block, i: Item)
    ensures DataOf(b + [i]) == if i.Datum? then DataOf(b) + [i.text] else DataOf(b)
  {
    if b == [] {
      assert b + [i] == [i] && [i][1..] == [];
    } else {
      DataSnoc(b[1..], i);
      assert (b + [i])[1..] == b[1..] + [i];
      if b[0].Datum? && i.Datum? {
        Regroup([b[0].text], DataOf(b[1..]), [i.text]);
      }
    }
  }

  lemma {:induction false} LinesSnoc(b: Block, i: Item)
    ensures ItemLines(b + [i]) == ItemLines(b) + [ItemLine(i)]
  {
    hide ItemLine;
    if b == [] {
      assert b + [i] == [i] && [i][1..] == [];
    } else {
      LinesSnoc(b[1..], i);
      assert (b + [i])[1..] == b[1..] + [i];
      Regroup([ItemLine(b[0])], ItemLines(b[1..]), [ItemLine(i)]);
    }
  }

  lemma {:induction false} ItemsRead(b: Block)
    requires |NamesOf(b)| <= 1
    ensures FieldsOf(ItemLines(b)) == Ok(Fields(NameOf(b), DataOf(b)))
    decreases |b|
  {
    hide ItemLine, FieldLine, NamesOf, DataOf, ItemLines;
    if b == [] {
      NoItems();
    } else {
      var front, i := b[..|b| - 1], b[|b| - 1];
      assert b == front + [i];
      NamesSnoc(front, i);
      DataSnoc(front, i);
      LinesSnoc(front, i);
      ItemsRead(front);
      assert ItemLines(b)[..|ItemLines(b)| - 1] == ItemLines(front);
      ItemReads(Fields(NameOf(front), DataOf(front)), i);
    }
  }

  lemma NoItems()
    ensures NamesOf([]) == [] && DataOf([]) == [] && ItemLines([]) == []
  {
  }

  /** A block's text is read as its name and its data. */
  lemma BlockReads(b: Block)
    requires ValidBlock(b)
    ensures FieldsOf(Pieces(BlockText(b), "\n", 0)) == Ok(Fields(NameOf(b), DataOf(b))) && BlockText(b) != []
  {
    hide ItemLine, FieldsOf, Pieces, Plain;
    LinesPlain(b);
    LinesBack(ItemLines(b));
    ItemsRead(b);
    BlockSolid(b);
  }

  /** The event of a block with data, read from the object itself. */
  lemma BlockEvent<T>(json: string -> Result<Object<T>>, b: Block)
    requires ValidBlock(b)
    ensures ReadBlock(json, BlockText(b)) ==
      if DataOf(b) == [] then Ok(None)
      else match json(JoinWith("\n", DataOf(b))) {
        case Err => Err
        case Ok(o) => if Typed(NameOf(b), o) then Ok(Some(Event(KindOf(o.type_.value), o.sequence, o.response))) else Err
      }
  {
    hide BlockText, FieldsOf, Pieces, KindOf, JoinWith;
    BlockReads(b);
  }

  // ---------------------------------------------------------------- Streams are read back

  lemma {:induction false} TextsSnoc(blocks: seq<Block>, b: Block)
    ensures Texts(blocks + [b]) == Texts(blocks) + [BlockText(b)]
  {
    hide BlockText;
    if blocks == [] {
      assert blocks + [b] == [b] && [b][1..] == [];
    } else {
      TextsSnoc(blocks[1..], b);
      assert (blocks + [b])[1..] == blocks[1..] + [b];
      Regroup([BlockText(blocks[0])], Texts(blocks[1..]), [BlockText(b)]);
    }
  }

  function EventAs<T>(o: Object<T>): Event<T> {
    Event(KindOf(if o.type_.Some? then o.type_.value else ""), o.sequence, o.response)
  }

  function EventsAs<T>(os: seq<(Option<string>, Object<T>)>): (es: seq<Event<T>>)
    ensures |es| == |os| && forall k :: 0 <= k < |os| ==> es[k] == EventAs(os[k].1)
  {
    if os == [] then [] else EventsAs(os[..|os| - 1]) + [EventAs(os[|os| - 1].1)]
  }

  predicate AllTyped<T>(os: seq<(Option<string>, Object<T>)>) {
    forall k :: 0 <= k < |os| ==> Typed(os[k].0, os[k].1)
  }

  lemma TypedSnoc<T>(os: seq<(Option<string>, Object<T>)>, o: (Option<string>, Object<T>))
    ensures AllTyped(os + [o]) <==> AllTyped(os) && Typed(o.0, o.1)
    ensures EventsAs(os + [o]) == EventsAs(os) + [EventAs(o.1)]
  {
    hide Typed, EventAs;
    assert (os + [o])[..|os|] == os && (os + [o])[|os|] == o;
    if AllTyped(os + [o]) {
      assert forall k :: 0 <= k < |os| ==> os[k] == (os + [o])[k];
    }
  }

  /** The events of a written stream are its objects, if all of them read and are typed. */
  lemma {:induction false} EventsAreObjects<T>(json: string -> Result<Object<T>>, blocks: seq<Block>)
    requires ValidBlocks(blocks)
    ensures Events(json, Texts(blocks)) ==
      if Objects(json, blocks).Ok? && AllTyped(Objects(json, blocks).value) then Ok(EventsAs(Objects(json, blocks).value)) else Err
    decreases |blocks|
  {
    hide ValidBlock, ReadBlock, BlockText, Typed, EventsAs, AllTyped, JoinWith, DataOf, NameOf;
    if blocks == [] {
      NoObjects(json);
    } else {
      var n := |blocks| - 1;
      var front, b := blocks[..n], blocks[n];
      assert blocks == front + [b] && ValidBlock(b);
      EventsAreObjects(json, front);
      TextsSnoc(front, b);
      assert Texts(blocks)[..|Texts(blocks)| - 1] == Texts(front);
      BlockEvent(json, b);
      if Objects(json, front).Ok? && DataOf(b) != [] && json(JoinWith("\n", DataOf(b))).Ok? {
        TypedSnoc(Objects(json, front).value, (NameOf(b), json(JoinWith("\n", DataOf(b))).value));
        TypedHasType(NameOf(b), json(JoinWith("\n", DataOf(b))).value);
      }
    }
  }

  lemma TypedHasType<T>(name: Option<string>, o: Object<T>)
    ensures Typed(name, o) ==> o.type_.Some?
  {
  }

  lemma NoObjects<T>(json: string -> Result<Object<T>>)
    ensures AllTyped<T>([]) && EventsAs<T>([]) == []
  {
  }

  /** Kinds and names say the same of typed objects. */
  lemma KindsAre<T>(o: Object<T>)
    requires o.type_.Some?
    ensures EventAs(o).kind.Created? <==> IsType(o, "response.created")
    ensures EventAs(o).kind.Completed? <==> IsType(o, "response.completed")
    ensures EventAs(o).kind.Refused? <==>
      IsType(o, "response.failed") || IsType(o, "response.incomplete") || IsType(o, "response.cancelled")
  {
    assert "response.created" != "response.completed" by {
      assert "response.created"[10] != "response.completed"[10] || "response.created"[11] != "response.completed"[11];
    }
  }

  lemma WholeIsComplete<T>(os: seq<(Option<string>, Object<T>)>)
    requires AllTyped(os) && Whole(EventsAs(os))
    ensures Complete(os)
  {
    hide EventsAs, KindOf, IsType;
    var es := EventsAs(os);
    forall k | 0 <= k < |os| ensures InOrder(os, k) {
      assert GoodEvent(es, k) && es[k] == EventAs(os[k].1) && es[0] == EventAs(os[0].1);
      assert Typed(os[k].0, os[k].1);
      KindsAre(os[k].1);
    }
  }

  lemma CompleteIsWhole<T>(os: seq<(Option<string>, Object<T>)>)
    requires Complete(os)
    ensures AllTyped(os) && Whole(EventsAs(os))
    ensures FinalBody(EventsAs(os)) == LastResponse(os)
  {
    hide EventsAs, KindOf, IsType, Typed;
    var es := EventsAs(os);
    forall k | 0 <= k < |os| ensures GoodEvent(es, k) && Typed(os[k].0, os[k].1) && (es[k].kind.Completed? <==> k == |os| - 1) {
      assert InOrder(os, k) && InOrder(os, 0) && es[k] == EventAs(os[k].1) && es[0] == EventAs(os[0].1);
      TypedHasType(os[k].0, os[k].1);
      KindsAre(os[k].1);
    }
    assert InOrder(os, |os| - 1);
  }

  lemma {:induction false} UnfoldedPlain(text: string)
    requires '\r' !in text
    ensures Unfolded(text) == text
  {
    if text != [] {
      UnfoldedPlain(text[1..]);
      assert text[0] in text;
    }
  }

  /**
   Reading inverts writing.  A written stream, with either line end throughout or any mixture,
   is accepted exactly if its objects all read and make a complete stream, whatever comments
   stand between; and what is returned is the last event's response.
   */
  lemma WrittenIsRead<T>(json: string -> Result<Object<T>>, blocks: seq<Block>, text: string)
    requires ValidBlocks(blocks) && blocks != [] && Unfolded(text) == Printed(blocks)
    ensures Ended(Unfolded(text))
    ensures Accepted(json, BlocksOf(text)) <==> Objects(json, blocks).Ok? && Complete(Objects(json, blocks).value)
    ensures Accepted(json, BlocksOf(text)) ==>
      FinalBody(Events(json, BlocksOf(text)).value) == LastResponse(Objects(json, blocks).value)
  {
    hide ValidBlock, Printed, Pieces, Objects, Whole, AllTyped, Complete, FinalBody, EventsAs, LastResponse;
    BlocksBack(blocks);
    PrintedEnds(blocks);
    EventsAreObjects(json, blocks);
    var pieces := Texts(blocks) + [""];
    assert pieces[..|pieces| - 1] == Texts(blocks);
    assert Events(json, pieces) == Events(json, Texts(blocks));
    if Objects(json, blocks).Ok? {
      var os := Objects(json, blocks).value;
      if AllTyped(os) && Whole(EventsAs(os)) {
        WholeIsComplete(os);
      }
      if Complete(os) {
        CompleteIsWhole(os);
      }
    }
  }

  /** Both line ends are such texts. */
  lemma EitherLineEnd(blocks: seq<Block>)
    requires ValidBlocks(blocks)
    ensures Unfolded(Printed(blocks)) == Printed(blocks) && Unfolded(Folded(Printed(blocks))) == Printed(blocks)
  {
    hide Printed, ValidBlock, Pieces;
    BlocksBack(blocks);
    UnfoldedPlain(Printed(blocks));
    FoldedReadsAlike(Printed(blocks));
  }

  // ---------------------------------------------------------------- How a stream ends

  /** Every CR is followed by LF. */
  predicate Paired(text: string) {
    forall k :: 0 <= k < |text| ==> PairedAt(text, k)
  }

  predicate PairedAt(text: string, k: nat)
    requires k < |text|
  {
    text[k] == '\r' ==> k + 1 < |text| && text[k + 1] == '\n'
  }

  predicate EndsWith(text: string, end: string) {
    |end| <= |text| && text[|text| - |end|..] == end
  }

  /** How many characters the first line end or other character of a text takes. */
  function Taken(text: string): nat
    requires text != []
  {
    if |text| >= 2 && text[0] == '\r' && text[1] == '\n' then 2 else 1
  }

  lemma UnfoldedNext(text: string, n: nat)
    requires text != [] && n == Taken(text)
    ensures n <= |text| && Unfolded(text) == [if n == 2 then '\n' else text[0]] + Unfolded(text[n..])
  {
  }

  lemma TakenSnoc(text: string, c: char)
    requires |text| >= 2
    ensures Taken(text + [c]) == Taken(text) <= |text|
    ensures (text + [c])[Taken(text)..] == text[Taken(text)..] + [c] && (text + [c])[0] == text[0]
  {
  }

  /** One more character: an LF takes a CR before it away. */
  lemma {:induction false} UnfoldedSnoc(text: string, c: char)
    ensures Unfolded(text + [c]) == UnfoldedWith(text, c)
    decreases |text|
  {
    if |text| < 2 {
      ShortSnoc(text, c);
    } else {
      var n := Taken(text);
      TakenSnoc(text, c);
      UnfoldedNext(text, n);
      UnfoldedNext(text + [c], n);
      UnfoldedSnoc(text[n..], c);
      hide Unfolded, Taken;
      WithNext(text, c, n);
    }
  }

  function UnfoldedWith(text: string, c: char): string {
    if c == '\n' && EndsWith(text, "\r") then Unfolded(text[..|text| - 1]) + "\n" else Unfolded(text) + [c]
  }

  lemma ShortSnoc(text: string, c: char)
    requires |text| < 2
    ensures Unfolded(text + [c]) == UnfoldedWith(text, c)
  {
    if text == [] {
      assert text + [c] == [c] && [c][1..] == [];
    } else {
      assert (text + [c])[1..] == [c] && (text + [c])[2..] == [] && [c][1..] == [] && text[1..] == [] && text[..0] == [];
    }
  }

  lemma WithNext(text: string, c: char, n: nat)
    requires |text| >= 2 && n == Taken(text) && n <= |text|
    ensures UnfoldedWith(text, c) == [if n == 2 then '\n' else text[0]] + UnfoldedWith(text[n..], c)
  {
    hide Unfolded;
    UnfoldedNext(text, n);
    if c == '\n' && EndsWith(text, "\r") {
      var front := text[..|text| - 1];
      assert text[|text| - 1..][0] == text[|text| - 1] == '\r' && front[0] == text[0];
      assert n < |text| && text[n..][|text| - n - 1..] == text[|text| - 1..];
      assert front[n..] == text[n..][..|text[n..]| - 1];
      assert Taken(front) == n;
      UnfoldedNext(front, n);
    }
  }

  lemma PairedMore(text: string, n: nat)
    requires n <= |text| && (n == 1 || (n == 2 && text[0] == '\r' && text[1] == '\n'))
    ensures Paired(text) <==> (n == 1 ==> PairedAt(text, 0)) && Paired(text[n..])
  {
    var rest := text[n..];
    assert forall k: nat :: k < |rest| ==> (PairedAt(rest, k) <==> PairedAt(text, k + n));
    if Paired(rest) && (n == 1 ==> PairedAt(text, 0)) {
      forall k | 0 <= k < |text| ensures PairedAt(text, k) {
        if k >= n {
          assert PairedAt(rest, k - n);
        }
      }
    }
  }

  lemma {:induction false} UnfoldedPaired(text: string)
    ensures '\r' !in Unfolded(text) <==> Paired(text)
    decreases |text|
  {
    if text != [] {
      var n := if |text| >= 2 && text[0] == '\r' && text[1] == '\n' then 2 else 1;
      UnfoldedPaired(text[n..]);
      PairedMore(text, n);
      hide Paired;
    }
  }

  lemma LastUnfolded(text: string)
    requires text != []
    ensures Unfolded(text) != [] && Unfolded(text)[|Unfolded(text)| - 1] == text[|text| - 1]
  {
    hide Unfolded;
    UnfoldedSnoc(text[..|text| - 1], text[|text| - 1]);
    assert text[..|text| - 1] + [text[|text| - 1]] == text;
  }

  /** What is before a last line end. */
  function Front(text: string): string
    requires EndsWith(text, "\n")
  {
    if EndsWith(text, "\r\n") then text[..|text| - 2] else text[..|text| - 1]
  }

  lemma FrontUnfolded(text: string)
    requires EndsWith(text, "\n")
    ensures Unfolded(text) == Unfolded(Front(text)) + "\n"
  {
    var front := text[..|text| - 1];
    UnfoldedSnoc(front, '\n');
    assert front + ['\n'] == text;
    hide Unfolded;
    if EndsWith(front, "\r") {
      assert text[|text| - 2..] == "\r\n" && front[..|front| - 1] == text[..|text| - 2];
    }
  }

  lemma FrontEnds(text: string)
    requires EndsWith(text, "\n")
    ensures EndsWith(Front(text), "\n") <==> EndsWith(text, "\n\n") || EndsWith(text, "\n\r\n")
  {
  }

  lemma EndsUnfolded(text: string)
    ensures EndsWith(Unfolded(text), "\n") <==> EndsWith(text, "\n")
  {
    if text == [] {
      UnfoldedPlain([]);
    } else {
      LastUnfolded(text);
    }
  }

  /** A stream must end with an empty line, and have no CR but before LF; whatever else it holds, it is refused. */
  lemma EndedIs(text: string)
    ensures Ended(Unfolded(text)) <==> Paired(text) && (EndsWith(text, "\n\n") || EndsWith(text, "\n\r\n"))
  {
    hide Unfolded, Paired;
    UnfoldedPaired(text);
    EndsUnfolded(text);
    if EndsWith(text, "\n") {
      FrontUnfolded(text);
      EndsUnfolded(Front(text));
      FrontEnds(text);
      hide Front;
      TwoEnds(Unfolded(Front(text)));
    }
  }

  lemma TwoEnds(text: string)
    ensures EndsWith(text + "\n", "\n\n") <==> EndsWith(text, "\n")
  {
    if text != [] {
      var n, c := |text|, text[|text| - 1];
      assert text[n - 1..] == [c] && (text + "\n")[n - 1..] == [c] + "\n";
      assert [c] + "\n" == "\n\n" <==> c == '\n' by {
        assert ([c] + "\n")[0] == c && "\n\n"[0] == '\n';
      }
    }
  }
}
