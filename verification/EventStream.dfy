/**
 The event stream of scripts/bounded_review_transport.py: `separated`, which cuts a text at a
 delimiter without keeping the pieces, and `completed_response`, which finds the one complete
 response of a stream of server-sent events or refuses the stream.
 */
module EventStream {
  import opened Common

  const MAX_EVENTS := 100000

  // ---------------------------------------------------------------- separated

  /** `text.find(delimiter, start)`; `None` for -1. */
  function Find(text: string, delimiter: string, start: nat): (r: Option<nat>)
    requires delimiter != [] && start <= |text|
    ensures r.Some? ==> start <= r.value && r.value + |delimiter| <= |text| && text[r.value..r.value + |delimiter|] == delimiter
    ensures forall k :: start <= k < (if r.Some? then r.value else |text| - |delimiter| + 1) ==> !StandsAt(text, delimiter, k)
    decreases |text| - start
  {
    if start + |delimiter| > |text| then None
    else if StandsAt(text, delimiter, start) then Some(start)
    else Find(text, delimiter, start + 1)
  }

  predicate StandsAt(text: string, delimiter: string, k: nat) {
    k + |delimiter| <= |text| && text[k..k + |delimiter|] == delimiter
  }

  /** The pieces of `text` from `start` on. */
  function Pieces(text: string, delimiter: string, start: nat): seq<string>
    requires delimiter != [] && start <= |text|
    decreases |text| - start
  {
    var end := Find(text, delimiter, start);
    if end.None? then [text[start..]]
    else [text[start..end.value]] + Pieces(text, delimiter, end.value + |delimiter|)
  }

  function JoinWith(delimiter: string, parts: seq<string>): string {
    if parts == [] then [] else if |parts| == 1 then parts[0] else parts[0] + delimiter + JoinWith(delimiter, parts[1..])
  }

  predicate Without(delimiter: string, part: string) {
    forall k :: 0 <= k <= |part| ==> !StandsAt(part, delimiter, k)
  }

  lemma {:induction false} JoinSnoc(delimiter: string, parts: seq<string>, part: string)
    requires parts != []
    ensures JoinWith(delimiter, parts + [part]) == JoinWith(delimiter, parts) + delimiter + part
    decreases |parts|
  {
    if |parts| == 1 {
      assert (parts + [part])[1..] == [part];
    } else {
      JoinSnoc(delimiter, parts[1..], part);
      assert (parts + [part])[1..] == parts[1..] + [part];
    }
  }

  /** `done` is the pieces so far, each with its delimiter. */
  ghost predicate Joins(delimiter: string, parts: seq<string>, done: string) {
    if parts == [] then done == [] else JoinWith(delimiter, parts) + delimiter == done
  }

  lemma JoinsMore(delimiter: string, parts: seq<string>, done: string, part: string)
    requires Joins(delimiter, parts, done)
    ensures JoinWith(delimiter, parts + [part]) == done + part
    ensures Joins(delimiter, parts + [part], done + part + delimiter)
  {
    if parts != [] {
      JoinSnoc(delimiter, parts, part);
    } else {
      assert [] + part == part;
    }
  }

  lemma PartWithout(text: string, delimiter: string, start: nat, end: nat)
    requires delimiter != [] && start <= end <= |text|
    requires forall k :: start <= k && k + |delimiter| <= end ==> !StandsAt(text, delimiter, k)
    ensures Without(delimiter, text[start..end])
  {
    forall k | 0 <= k <= end - start ensures !StandsAt(text[start..end], delimiter, k) {
      if k + |delimiter| <= end - start {
        var a, b := text[start..end][k..k + |delimiter|], text[start + k..start + k + |delimiter|];
        assert forall i :: 0 <= i < |delimiter| ==> a[i] == b[i];
        assert a == b;
        assert !StandsAt(text, delimiter, start + k);
      }
    }
  }

  /** `separated(text, delimiter)`: the pieces hold no delimiter, and joined by it they are the text. */
  method Separated(text: string, delimiter: string) returns (parts: seq<string>)
    requires delimiter != []
    ensures parts == Pieces(text, delimiter, 0)
    ensures parts != [] && JoinWith(delimiter, parts) == text
    ensures forall k :: 0 <= k < |parts| ==> Without(delimiter, parts[k])
  {
    hide Joins, JoinWith, Without, StandsAt, Find, Pieces;
    parts := [];
    var start := 0;
    NothingJoined(delimiter);
    assert parts + Pieces(text, delimiter, 0) == Pieces(text, delimiter, 0);
    while true
      invariant 0 <= start <= |text| && Joins(delimiter, parts, text[..start])
      invariant Pieces(text, delimiter, 0) == parts + Pieces(text, delimiter, start)
      invariant forall k :: 0 <= k < |parts| ==> Without(delimiter, parts[k])
      decreases |text| - start
    {
      var end := Find(text, delimiter, start);
      OnePiece(text, delimiter, start);
      if end.None? {
        PartWithout(text, delimiter, start, |text|);
        JoinsMore(delimiter, parts, text[..start], text[start..]);
        assert text[start..|text|] == text[start..];
        assert text[..start] + text[start..] == text;
        parts := parts + [text[start..]];
        return;
      }
      PartWithout(text, delimiter, start, end.value);
      JoinsMore(delimiter, parts, text[..start], text[start..end.value]);
      assert text[..end.value + |delimiter|] == text[..start] + text[start..end.value] + delimiter;
      Regroup(parts, [text[start..end.value]], Pieces(text, delimiter, end.value + |delimiter|));
      parts := parts + [text[start..end.value]];
      start := end.value + |delimiter|;
    }
  }

  lemma OnePiece(text: string, delimiter: string, start: nat)
    requires delimiter != [] && start <= |text|
    ensures var end := Find(text, delimiter, start);
      Pieces(text, delimiter, start) ==
        if end.None? then [text[start..]] else [text[start..end.value]] + Pieces(text, delimiter, end.value + |delimiter|)
  {
  }

  lemma NothingJoined(delimiter: string)
    ensures Joins(delimiter, [], [])
  {
  }

  // ---------------------------------------------------------------- The fields of a block

  /** What the lines of a block have said so far. */
  datatype Fields = Fields(name: Option<string>, data: seq<string>)

  const NO_FIELDS := Fields(None, [])

  /** `value.removeprefix(" ")` */
  function Unspaced(value: string): string {
    if value != [] && value[0] == ' ' then value[1..] else value
  }

  /** One line: a comment, one of two fields, or an error. */
  function FieldLine(f: Fields, line: string): Result<Fields> {
    if line != [] && line[0] == ':' then Ok(f)
    else if Find(line, ":", 0).None? then Err
    else
      var colon := Find(line, ":", 0).value;
      var field, value := line[..colon], Unspaced(line[colon + 1..]);
      if field == "event" then if f.name.None? then Ok(f.(name := Some(value))) else Err
      else if field == "data" then Ok(f.(data := f.data + [value]))
      else Err
  }

  function FieldsOf(lines: seq<string>): Result<Fields>
    decreases |lines|
  {
    if lines == [] then Ok(NO_FIELDS)
    else
      match FieldsOf(lines[..|lines| - 1])
      case Err => Err
      case Ok(f) => FieldLine(f, lines[|lines| - 1])
  }

  /** The lines of one block. */
  method ReadFields(block: string) returns (r: Result<Fields>)
    ensures r == FieldsOf(Pieces(block, "\n", 0))
  {
    hide FieldLine, Pieces, JoinWith, Without;
    var lines := Separated(block, "\n");
    var fields := NO_FIELDS;
    assert lines[..0] == [];
    for k := 0 to |lines|
      invariant FieldsOf(lines[..k]) == Ok(fields)
    {
      assert lines[..k + 1][..k] == lines[..k];
      var next := FieldLine(fields, lines[k]);
      if next.Err? {
        FieldsFail(lines, k + 1);
        return Err;
      }
      fields := next.value;
    }
    assert lines[..|lines|] == lines;
    r := Ok(fields);
  }

  lemma {:induction false} FieldsFail(lines: seq<string>, k: nat)
    requires k <= |lines| && FieldsOf(lines[..k]).Err?
    ensures FieldsOf(lines).Err?
    decreases |lines|
  {
    hide FieldLine;
    if k < |lines| {
      assert lines[..|lines| - 1][..k] == lines[..k];
      FieldsFail(lines[..|lines| - 1], k);
    } else {
      assert lines[..k] == lines;
    }
  }

  // ---------------------------------------------------------------- completed_response

  datatype Kind = Created | Completed | Refused | OtherKind

  /** A field `response`: absent, not an object, or an object with its id if that is a text. */
  datatype Field<T> = Absent | Malformed | Present(id: Option<string>, body: T)

  /** A JSON object: its type and number, if they are a text and an integer, and its response. */
  datatype Object<T> = Object(type_: Option<string>, sequence: Option<int>, response: Field<T>)

  /** An event whose type is understood. */
  datatype Event<T> = Event(kind: Kind, sequence: Option<int>, response: Field<T>)

  function KindOf(name: string): Kind {
    if name == "response.created" then Created
    else if name == "response.completed" then Completed
    else if name == "response.failed" || name == "response.incomplete" || name == "response.cancelled" then Refused
    else OtherKind
  }

  /** The event of a block with data; `json` reads an object or fails. */
  function EventOf<T>(json: string -> Result<Object<T>>, f: Fields): Result<Event<T>> {
    match json(JoinWith("\n", f.data))
    case Err => Err
    case Ok(o) =>
      if o.type_.Some? && "response." <= o.type_.value && (f.name.None? || f.name == o.type_)
      then Ok(Event(KindOf(o.type_.value), o.sequence, o.response))
      else Err
  }

  /** A block: nothing, an event, or an error; a name without data is one. */
  function ReadBlock<T>(json: string -> Result<Object<T>>, block: string): Result<Option<Event<T>>> {
    if block == [] then Ok(None)
    else
      match FieldsOf(Pieces(block, "\n", 0))
      case Err => Err
      case Ok(f) =>
        if f.data == [] then if f.name.None? then Ok(None) else Err
        else
          match EventOf(json, f)
          case Err => Err
          case Ok(e) => Ok(Some(e))
  }

  function Events<T>(json: string -> Result<Object<T>>, blocks: seq<string>): Result<seq<Event<T>>>
    decreases |blocks|
  {
    if blocks == [] then Ok([])
    else
      match Events(json, blocks[..|blocks| - 1])
      case Err => Err
      case Ok(es) =>
        match ReadBlock(json, blocks[|blocks| - 1])
        case Err => Err
        case Ok(e) => Ok(if e.Some? then es + [e.value] else es)
  }

  /** `text.replace("\r\n", "\n")` */
  function Unfolded(text: string): string {
    if text == [] then []
    else if |text| >= 2 && text[0] == '\r' && text[1] == '\n' then ['\n'] + Unfolded(text[2..])
    else [text[0]] + Unfolded(text[1..])
  }

  /** Every line end as CR LF. */
  function Folded(text: string): string {
    if text == [] then [] else (if text[0] == '\n' then ['\r', '\n'] else [text[0]]) + Folded(text[1..])
  }

  /** So a stream with the one line end reads like the same stream with the other. */
  lemma {:induction false} FoldedReadsAlike(text: string)
    requires '\r' !in text
    ensures Unfolded(Folded(text)) == text
  {
    if text != [] {
      FoldedReadsAlike(text[1..]);
      var rest := Folded(text[1..]);
      if text[0] == '\n' {
        assert (['\r', '\n'] + rest)[2..] == rest;
      } else {
        assert ([text[0]] + rest)[1..] == rest && text[0] in text;
      }
    }
  }

  /** No CR is left, and the text ends with an empty line. */
  predicate Ended(text: string) {
    '\r' !in text && |text| >= 2 && text[|text| - 2..] == "\n\n"
  }

  function BlocksOf(text: string): seq<string> {
    Pieces(Unfolded(text), "\n\n", 0)
  }

  /** Every block reads, and their events are a complete stream. */
  predicate Accepted<T>(json: string -> Result<Object<T>>, blocks: seq<string>) {
    Events(json, blocks).Ok? && Whole(Events(json, blocks).value)
  }

  predicate ValidId(id: Option<string>) {
    id.Some? && 0 < |id.value| <= 256
  }

  /** Event `k` of a stream whose first event names the response. */
  predicate GoodEvent<T>(es: seq<Event<T>>, k: nat)
    requires k < |es|
  {
    && es[k].sequence == Some(k) && !es[k].kind.Refused?
    && (es[k].kind.Created? <==> k == 0)
    && es[0].response.Present? && ValidId(es[0].response.id)
    && (es[k].response.Absent? || (es[k].response.Present? && es[k].response.id == es[0].response.id))
    && (es[k].kind.Completed? ==> es[k].response.Present?)
  }

  /** A prefix of a complete stream. */
  predicate Proper<T>(es: seq<Event<T>>) {
    && |es| <= MAX_EVENTS && (forall k :: 0 <= k < |es| ==> GoodEvent(es, k))
    && (forall k :: 0 <= k < |es| - 1 ==> !es[k].kind.Completed?)
  }

  /**
   A complete stream: numbered from 0 without gaps, created first and only first, one
   identity throughout, completed last and only last, and never refused.
   */
  predicate Whole<T>(es: seq<Event<T>>) {
    Proper(es) && es != [] && es[|es| - 1].kind.Completed?
  }

  /** Blocks that do not read stay unread, and events stay. */
  lemma {:induction false} EventsPrefix<T>(json: string -> Result<Object<T>>, blocks: seq<string>, k: nat)
    requires k <= |blocks| && Events(json, blocks).Ok?
    ensures Events(json, blocks[..k]).Ok? && Events(json, blocks[..k]).value <= Events(json, blocks).value
    decreases |blocks|
  {
    hide ReadBlock;
    if k < |blocks| {
      EventsPrefix(json, blocks[..|blocks| - 1], k);
      assert blocks[..|blocks| - 1][..k] == blocks[..k];
    } else {
      assert blocks[..k] == blocks;
    }
  }

  lemma ProperPrefix<T>(es: seq<Event<T>>, more: seq<Event<T>>)
    requires es <= more && Proper(more)
    ensures Proper(es) && (es != [] && es[|es| - 1].kind.Completed? ==> es == more)
  {
    forall k | 0 <= k < |es| ensures GoodEvent(es, k) {
      assert GoodEvent(more, k);
      assert es[k] == more[k] && es[0] == more[0];
    }
  }

  /** What has gone wrong in the first blocks stays wrong. */
  lemma Rejected<T>(json: string -> Result<Object<T>>, blocks: seq<string>, k: nat)
    requires k <= |blocks|
    requires Events(json, blocks[..k]).Ok? ==> !Proper(Events(json, blocks[..k]).value)
    ensures !Accepted(json, blocks)
  {
    hide Proper, Events;
    if Accepted(json, blocks) {
      EventsPrefix(json, blocks, k);
      ProperPrefix(Events(json, blocks[..k]).value, Events(json, blocks).value);
    }
  }

  /** The checks on one more event, as the loop makes them. */
  method TakeEvent<T>(ghost es: seq<Event<T>>, event: Event<T>, result: Option<T>, identity: Option<string>, count: nat)
    returns (r: Result<(Option<T>, Option<string>)>)
    requires Proper(es) && count == |es| && result == FinalBody(es)
    requires identity == if count == 0 then None else FirstId(es)
    ensures r.Ok? <==> Proper(es + [event])
    ensures r.Ok? ==> r.value.0 == FinalBody(es + [event]) && r.value.1 == FirstId(es + [event])
  {
    hide Proper;
    StepEvent(es, event);
    if result.Some? || event.sequence != Some(count) || count + 1 > MAX_EVENTS || event.kind.Refused? {
      return Err;
    }
    var identity, result := identity, result;
    if event.kind.Created? {
      if identity.Some? || count != 0 || !event.response.Present? || !ValidId(event.response.id) {
        return Err;
      }
      identity := event.response.id;
    } else if identity.None? {
      return Err;
    }
    if !event.response.Absent? && !(event.response.Present? && event.response.id == identity) {
      return Err;
    }
    if event.kind.Completed? {
      if !event.response.Present? {
        return Err;
      }
      result := Some(event.response.body);
    }
    r := Ok((result, identity));
  }

  /**
   `completed_response` on a decoded stream: the response of a complete stream of events, and
   nothing else.
   */
  method CompletedResponse<T>(json: string -> Result<Object<T>>, text: string) returns (r: Result<T>)
    ensures r.Ok? <==> Ended(Unfolded(text)) && Accepted(json, BlocksOf(text))
    ensures r.Ok? ==> FinalBody(Events(json, BlocksOf(text)).value) == Some(r.value)
  {
    hide Proper, Events, FieldsOf, Pieces, JoinWith, Without, Accepted, Unfolded, FinalBody, FirstId;
    if !Ended(Unfolded(text)) {
      return Err;
    }
    var blocks := Separated(Unfolded(text), "\n\n");
    var result: Option<T>, identity: Option<string>, count := None, None, 0;
    NoEvents(json);
    assert blocks[..0] == [];
    ghost var es: seq<Event<T>> := [];
    for k := 0 to |blocks|
      invariant Events(json, blocks[..k]) == Ok(es) && Proper(es) && count == |es|
      invariant identity == (if count == 0 then None else FirstId(es)) && result == FinalBody(es)
    {
      NextBlock(json, blocks, k);
      if blocks[k] == [] {
        continue;
      }
      var fields := ReadFields(blocks[k]);
      if fields.Err? {
        Rejected(json, blocks, k + 1);
        return Err;
      }
      if fields.value.data == [] {
        if fields.value.name.Some? {
          Rejected(json, blocks, k + 1);
          return Err;
        }
        continue;
      }
      var event := EventOf(json, fields.value);
      if event.Err? {
        Rejected(json, blocks, k + 1);
        return Err;
      }
      var next := TakeEvent(es, event.value, result, identity, count);
      if next.Err? {
        Rejected(json, blocks, k + 1);
        return Err;
      }
      es := es + [event.value];
      result, identity, count := next.value.0, next.value.1, count + 1;
    }
    assert blocks[..|blocks|] == blocks;
    Judged(json, blocks, es);
    if result.None? {
      return Err;
    }
    r := Ok(result.value);
  }

  lemma Judged<T>(json: string -> Result<Object<T>>, blocks: seq<string>, es: seq<Event<T>>)
    requires Events(json, blocks) == Ok(es) && Proper(es)
    ensures Accepted(json, blocks) <==> FinalBody(es).Some?
  {
    hide Proper, Events;
    if FinalBody(es).None? {
      Unfinished(es);
    } else {
      Finished(es);
    }
  }

  function FirstId<T>(es: seq<Event<T>>): Option<string> {
    if es != [] && es[0].response.Present? then es[0].response.id else None
  }

  function FinalBody<T>(es: seq<Event<T>>): Option<T> {
    if es != [] && es[|es| - 1].kind.Completed? && es[|es| - 1].response.Present? then Some(es[|es| - 1].response.body) else None
  }

  lemma NoEvents<T>(json: string -> Result<Object<T>>)
    ensures Events(json, []) == Ok([]) && Proper<T>([]) && FinalBody<T>([]) == None
  {
  }

  lemma NextBlock<T>(json: string -> Result<Object<T>>, blocks: seq<string>, k: nat)
    requires k < |blocks| && Events(json, blocks[..k]).Ok?
    ensures Events(json, blocks[..k + 1]) ==
      (match ReadBlock(json, blocks[k])
       case Err => Err
       case Ok(e) => Ok(if e.Some? then Events(json, blocks[..k]).value + [e.value] else Events(json, blocks[..k]).value))
  {
    assert blocks[..k + 1][..k] == blocks[..k];
  }

  /** The checks on one more event. */
  predicate Fits<T>(es: seq<Event<T>>, e: Event<T>) {
    && FinalBody(es).None? && e.sequence == Some(|es|) && |es| + 1 <= MAX_EVENTS && !e.kind.Refused?
    && (e.kind.Created? <==> es == [])
    && (es == [] ==> e.response.Present? && ValidId(e.response.id))
    && (e.response.Absent? || (e.response.Present? && (es != [] ==> e.response.id == FirstId(es))))
    && (e.kind.Completed? ==> e.response.Present?)
  }

  lemma FitsProper<T>(es: seq<Event<T>>, e: Event<T>)
    requires Proper(es) && Fits(es, e)
    ensures Proper(es + [e])
  {
    var next := es + [e];
    assert next[|es|] == e && next[0] == (if es == [] then e else es[0]);
    if es != [] {
      assert GoodEvent(es, |es| - 1);
    }
    forall k | 0 <= k < |es| ensures GoodEvent(next, k) {
      assert GoodEvent(es, k) && next[k] == es[k];
    }
    assert GoodEvent(next, |es|);
  }

  lemma ProperFits<T>(es: seq<Event<T>>, e: Event<T>)
    requires Proper(es) && Proper(es + [e])
    ensures Fits(es, e)
  {
    var next := es + [e];
    assert GoodEvent(next, |es|);
    assert next[|es|] == e && next[0] == (if es == [] then e else es[0]);
    if es != [] {
      assert next[|es| - 1] == es[|es| - 1];
      assert GoodEvent(es, 0);
    }
  }

  /** One more event fits exactly when it passes the checks. */
  lemma StepEvent<T>(es: seq<Event<T>>, e: Event<T>)
    requires Proper(es)
    ensures Proper(es + [e]) <==> Fits(es, e)
    ensures es != [] ==> FirstId(es).Some? && FirstId(es + [e]) == FirstId(es)
  {
    if Fits(es, e) {
      FitsProper(es, e);
    }
    if Proper(es + [e]) {
      ProperFits(es, e);
    }
    if es != [] {
      assert GoodEvent(es, 0);
    }
  }

  lemma Unfinished<T>(es: seq<Event<T>>)
    requires Proper(es) && FinalBody(es).None?
    ensures !Whole(es)
  {
    if es != [] {
      assert GoodEvent(es, |es| - 1);
    }
  }

  lemma Finished<T>(es: seq<Event<T>>)
    requires Proper(es) && FinalBody(es).Some?
    ensures Whole(es) && FinalBody(es) == Some(es[|es| - 1].response.body)
  {
  }
}
