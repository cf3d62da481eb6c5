/**
 `Record` and `Replay` of scripts/normal_release_archive.py.  A reader chooses each read from
 the answers so far.  `Record` keeps what it was told; `Replay` serves the recording back and
 refuses every other read.
 */
module Replay {
  import opened Common

  const MAX_READS := 4096
  const MAX_BYTES := 50 * 1024 * 1024

  datatype Json = Null | Bool(b: bool) | Number(n: int) | Str(s: string) | Arr(items: seq<Json>) | Obj(fields: map<string, Json>)

  datatype RunOf = RunOf(id: int, attempt: int, headSha: string)

  /** The reads of the verifier; `readOnly` is `method == "GET" and data is None`. */
  datatype Request =
    | Call(path: string, readOnly: bool)
    | Pages(path: string, key: Option<string>)
    | File(repository: string, path: string, revision: string)
    | JobLog(repository: string, job: int)
    | Artifact(repository: string, run: RunOf, name: string, filename: string)

  datatype Metadata = Metadata(id: int, name: string, expired: bool, size: int, digest: Option<string>)

  /** What is stored of an answer; `Encoded` is a base64 string and stands for what it decodes to. */
  datatype Stored = Plain(value: Json) | Encoded(raw: seq<int>) | Fetched(metadata: Metadata, record: Json)

  datatype Entry = Entry(request: Request, stored: Stored)

  datatype Answer = Value(value: Json) | Raw(raw: seq<int>)

  datatype Binding = Binding(repository: string, release: string)

  datatype Archive = Archive(binding: Binding, entries: seq<Entry>, result: Json)

  /**
   The live side: what it answers to read number `n`, `identity` and `digest` for the two
   field checks on artifacts, and the lengths of the canonical texts of an entry and of an archive.
   */
  datatype Api = Api(
    value: (nat, Request) -> Result<Json>, raw: (nat, Request) -> Result<seq<int>>,
    artifact: (nat, Request) -> Result<(Option<seq<Metadata>>, Json)>)

  datatype Checks = Checks(identity: (RunOf, string, string) -> bool, digest: string -> bool, weight: Entry -> nat,
                           size: Archive -> nat)

  function AnswerOf(s: Stored): Answer {
    match s
    case Plain(value) => Value(value)
    case Encoded(raw) => Raw(raw)
    case Fetched(_, record) => Value(record)
  }

  predicate InScope(b: Binding, path: string) {
    "repos/" + b.repository + "/" <= path
  }

  /** `artifact_metadata(value, name)` */
  predicate GoodMetadata(c: Checks, m: Metadata, name: string) {
    && m.id > 0 && m.name == name && !m.expired && 0 < m.size <= MAX_BYTES
    && (m.digest.Some? ==> c.digest(m.digest.value))
  }

  /** The artifacts of that name which have not expired. */
  function Selected(inventory: seq<Metadata>, name: string): seq<Metadata> {
    if inventory == [] then []
    else (if inventory[0].name == name && !inventory[0].expired then [inventory[0]] else []) + Selected(inventory[1..], name)
  }

  // ---------------------------------------------------------------- One recorded read

  function Mapped(r: Result<Json>): Result<Stored> {
    if r.Ok? then Ok(Plain(r.value)) else Err
  }

  /** What a read would store, before the bounds. */
  function Observed(c: Checks, b: Binding, api: Api, n: nat, q: Request): Result<Stored> {
    match q
    case Call(path, readOnly) => if !InScope(b, path) || !readOnly then Err else Mapped(api.value(n, q))
    case Pages(path, _) => if !InScope(b, path) then Err else Mapped(api.value(n, q))
    case File(repository, _, _) =>
      if repository != b.repository || api.raw(n, q).Err? then Err else Ok(Encoded(api.raw(n, q).value))
    case JobLog(repository, _) => if repository != b.repository then Err else Mapped(api.value(n, q))
    case Artifact(repository, run, name, filename) =>
      if repository != b.repository || !c.identity(run, name, filename) || api.artifact(n, q).Err? then Err
      else
        var inventory := api.artifact(n, q).value.0;
        if inventory.None? || |Selected(inventory.value, name)| != 1
           || !GoodMetadata(c, Selected(inventory.value, name)[0], name) then Err
        else Ok(Fetched(Selected(inventory.value, name)[0], api.artifact(n, q).value.1))
  }

  function Weight(c: Checks, entries: seq<Entry>): nat {
    if entries == [] then 0 else Weight(c, entries[..|entries| - 1]) + c.weight(entries[|entries| - 1])
  }

  /** One read, within the bounds. */
  function RecordOne(c: Checks, b: Binding, api: Api, entries: seq<Entry>, q: Request): Result<Entry> {
    match Observed(c, b, api, |entries|, q)
    case Err => Err
    case Ok(s) =>
      if |entries| < MAX_READS && Weight(c, entries) + c.weight(Entry(q, s)) <= MAX_BYTES then Ok(Entry(q, s)) else Err
  }

  // ---------------------------------------------------------------- One replayed read

  function MainPath(b: Binding): string {
    "repos/" + b.repository + "/git/ref/heads/main"
  }

  /** `value.get("object", {}).get("sha")`, when it is there. */
  function Tip(v: Json): Option<Json> {
    if v.Obj? && "object" in v.fields && v.fields["object"].Obj? && "sha" in v.fields["object"].fields
    then Some(v.fields["object"].fields["sha"]) else None
  }

  function WithTip(v: Json, sha: string): Json
    requires Tip(v).Some?
  {
    Obj(v.fields["object" := Obj(v.fields["object"].fields["sha" := Str(sha)])])
  }

  predicate AsksMain(b: Binding, q: Request) {
    q.Call? && q.path == MainPath(b)
  }

  /** What the replay answers from an entry. */
  function Replayed(c: Checks, a: Archive, main: string, e: Entry): Result<Answer> {
    match e.request
    case Call(path, readOnly) =>
      if !readOnly || !e.stored.Plain? then Err
      else if path != MainPath(a.binding) then Ok(Value(e.stored.value))
      else if Tip(e.stored.value) != Some(Str(a.binding.release)) then Err
      else Ok(Value(WithTip(e.stored.value, main)))
    case Pages(_, _) => if e.stored.Plain? then Ok(Value(e.stored.value)) else Err
    case File(_, _, _) => if e.stored.Encoded? then Ok(Raw(e.stored.raw)) else Err
    case JobLog(_, _) => if e.stored.Plain? then Ok(Value(e.stored.value)) else Err
    case Artifact(_, run, name, filename) =>
      if !c.identity(run, name, filename) || !e.stored.Fetched? || !GoodMetadata(c, e.stored.metadata, name) then Err
      else Ok(Value(e.stored.record))
  }

  function ReplayOne(c: Checks, a: Archive, main: string, index: nat, q: Request): Result<Answer> {
    if index < |a.entries| && a.entries[index].request == q then Replayed(c, a, main, a.entries[index]) else Err
  }

  // ---------------------------------------------------------------- The objects

  /** `class Record` */
  class Recorder {
    const checks: Checks
    const api: Api
    const expected: Binding
    var entries: seq<Entry>
    var size: nat

    ghost predicate Valid()
      reads this
    {
      size == Weight(checks, entries) && |entries| <= MAX_READS && size <= MAX_BYTES
    }

    constructor (c: Checks, live: Api, b: Binding)
      ensures Valid() && checks == c && api == live && expected == b && entries == []
    {
      checks, api, expected, entries, size := c, live, b, [], 0;
    }

    /** `add(kind, args, value)`.  A refusal ends the recording: the size has been raised already. */
    method Add(q: Request, s: Stored) returns (ok: bool)
      requires Valid()
      modifies this
      ensures ok <==> old(|entries|) < MAX_READS && Weight(checks, old(entries)) + checks.weight(Entry(q, s)) <= MAX_BYTES
      ensures ok ==> Valid() && entries == old(entries) + [Entry(q, s)]
      ensures !ok ==> entries == old(entries)
    {
      var entry := Entry(q, s);
      size := size + checks.weight(entry);
      if !(|entries| < MAX_READS && size <= MAX_BYTES) {
        return false;
      }
      assert (entries + [entry])[..|entries|] == entries;
      entries := entries + [entry];
      ok := true;
    }

    /** `call`, `pages`, `file`, `native_job_log` and `artifact`, by the kind of the request. */
    method Read(q: Request) returns (r: Result<Answer>)
      requires Valid()
      modifies this
      ensures var e := RecordOne(checks, expected, api, old(entries), q);
        if e.Ok? then Valid() && entries == old(entries) + [e.value] && r == Ok(AnswerOf(e.value.stored))
        else r.Err? && entries == old(entries)
    {
      var s := Observed(checks, expected, api, |entries|, q);
      if s.Err? {
        return Err;
      }
      var ok := Add(q, s.value);
      r := if ok then Ok(AnswerOf(s.value)) else Err;
    }

    /** `finish(result)` */
    method Finish(result: Json) returns (r: Result<Archive>)
      ensures r.Ok? <==> checks.size(Archive(expected, entries, result)) <= MAX_BYTES
      ensures r.Ok? ==> r.value == Archive(expected, entries, result)
    {
      var value := Archive(expected, entries, result);
      r := if checks.size(value) <= MAX_BYTES then Ok(value) else Err;
    }
  }

  /** `class Replay`, once its value has been found well-formed. */
  class Player {
    const checks: Checks
    const archive: Archive
    const currentMain: string
    var index: nat

    ghost predicate Valid()
      reads this
    {
      index <= |archive.entries|
    }

    constructor (c: Checks, a: Archive, expected: Binding, main: string)
      requires a.binding == expected && 0 < |a.entries| <= MAX_READS
      ensures Valid() && checks == c && archive == a && currentMain == main && index == 0
    {
      checks, archive, currentMain, index := c, a, main, 0;
    }

    /** `take(kind, args)` */
    method Take(q: Request) returns (r: Result<Stored>)
      requires Valid()
      modifies this
      ensures Valid()
      ensures var fits := old(index) < |archive.entries| && archive.entries[old(index)].request == q;
        if fits then index == old(index) + 1 && r == Ok(archive.entries[old(index)].stored) else r.Err? && index == old(index)
    {
      if !(index < |archive.entries|) {
        return Err;
      }
      var entry := archive.entries[index];
      if entry.request != q {
        return Err;
      }
      index := index + 1;
      r := Ok(entry.stored);
    }

    method Read(q: Request) returns (r: Result<Answer>)
      requires Valid()
      modifies this
      ensures Valid() && r == ReplayOne(checks, archive, currentMain, old(index), q)
      ensures r.Ok? ==> index == old(index) + 1
    {
      if (q.Call? && !q.readOnly) || (q.Artifact? && !checks.identity(q.run, q.name, q.filename)) {
        return Err;
      }
      var s := Take(q);
      if s.Err? {
        return Err;
      }
      if q.Call? && q.path == MainPath(archive.binding) {
        if !s.value.Plain? || Tip(s.value.value) != Some(Str(archive.binding.release)) {
          return Err;
        }
        return Ok(Value(WithTip(s.value.value, currentMain)));
      }
      if q.File? {
        return if s.value.Encoded? then Ok(Raw(s.value.raw)) else Err;
      }
      if q.Artifact? {
        if !s.value.Fetched? || !GoodMetadata(checks, s.value.metadata, q.name) {
          return Err;
        }
        return Ok(Value(s.value.record));
      }
      r := if s.value.Plain? then Ok(Value(s.value.value)) else Err;
    }

    /** `finish(result)` */
    method Finish(result: Json) returns (ok: bool)
      ensures ok <==> index == |archive.entries| && result == archive.result
    {
      ok := index == |archive.entries| && result == archive.result;
    }
  }

  // ---------------------------------------------------------------- Whole runs

  datatype Action = Ask(request: Request) | Return(result: Json)

  /** A deterministic reader: what it does after the answers so far. */
  type Reader = seq<Answer> -> Action

  function Answers(entries: seq<Entry>): seq<Answer> {
    if entries == [] then [] else Answers(entries[..|entries| - 1]) + [AnswerOf(entries[|entries| - 1].stored)]
  }

  /** `finish(result)` of a recording. */
  function Finished(c: Checks, b: Binding, entries: seq<Entry>, result: Json): Result<Archive> {
    if c.size(Archive(b, entries, result)) <= MAX_BYTES then Ok(Archive(b, entries, result)) else Err
  }

  /** The reader run against the live side, from what has been read so far. */
  function Recording(c: Checks, b: Binding, api: Api, reader: Reader, entries: seq<Entry>): Result<Archive>
    requires |entries| <= MAX_READS
    decreases MAX_READS - |entries|
  {
    match reader(Answers(entries))
    case Return(result) => Finished(c, b, entries, result)
    case Ask(q) =>
      var e := RecordOne(c, b, api, entries, q);
      if e.Err? then Err else Recording(c, b, api, reader, entries + [e.value])
  }

  /** The reader run against a replay that has served `seen`. */
  function Playing(c: Checks, a: Archive, main: string, reader: Reader, seen: seq<Answer>): Result<Json>
    requires |seen| <= |a.entries|
    decreases |a.entries| - |seen|
  {
    match reader(seen)
    case Return(result) => if |seen| == |a.entries| && result == a.result then Ok(result) else Err
    case Ask(q) =>
      var answer := ReplayOne(c, a, main, |seen|, q);
      if answer.Err? then Err else Playing(c, a, main, reader, seen + [answer.value])
  }

  /** What a replay that follows the recording has served after `k` reads. */
  function Served(c: Checks, a: Archive, main: string, k: nat): seq<Answer>
    requires k <= |a.entries|
  {
    if k == 0 then []
    else Served(c, a, main, k - 1)
         + [if Replayed(c, a, main, a.entries[k - 1]).Ok? then Replayed(c, a, main, a.entries[k - 1]).value else Value(Null)]
  }

  /** The reader makes exactly the recorded reads, each can be replayed, and it ends with the recorded result. */
  ghost predicate Follows(c: Checks, a: Archive, main: string, reader: Reader, from: nat) {
    && (forall k :: from <= k < |a.entries| ==> FollowsAt(c, a, main, reader, k))
    && reader(Served(c, a, main, |a.entries|)) == Return(a.result)
  }

  ghost predicate FollowsAt(c: Checks, a: Archive, main: string, reader: Reader, k: nat) {
    && k < |a.entries| && reader(Served(c, a, main, k)) == Ask(a.entries[k].request)
    && Replayed(c, a, main, a.entries[k]).Ok?
  }

  lemma {:induction false} ServedLength(c: Checks, a: Archive, main: string, k: nat)
    requires k <= |a.entries|
    ensures |Served(c, a, main, k)| == k
  {
    if k > 0 {
      ServedLength(c, a, main, k - 1);
    }
  }

  /**
   A replay accepts a reader exactly when the reader follows the recording: a read of another
   kind, with other arguments, out of order, missing or in excess is rejected, and so is
   another result.
   */
  lemma {:induction false} AcceptsExactly(c: Checks, a: Archive, main: string, reader: Reader, k: nat)
    requires k <= |a.entries|
    requires |Served(c, a, main, k)| == k
    ensures Playing(c, a, main, reader, Served(c, a, main, k)).Ok? <==> Follows(c, a, main, reader, k)
    ensures Playing(c, a, main, reader, Served(c, a, main, k)).Ok? ==>
      Playing(c, a, main, reader, Served(c, a, main, k)).value == a.result
    decreases |a.entries| - k
  {
    hide Replayed;
    var seen := Served(c, a, main, k);
    if k < |a.entries| {
      ServedLength(c, a, main, k + 1);
      AcceptsExactly(c, a, main, reader, k + 1);
      if FollowsAt(c, a, main, reader, k) {
        assert Served(c, a, main, k + 1) == seen + [Replayed(c, a, main, a.entries[k]).value];
      } else {
        assert !Follows(c, a, main, reader, k);
      }
    }
  }

  /** The reader run against `Replay(value, expected, current_main)`, whose constructor has its own checks. */
  function Replaying(c: Checks, expected: Binding, a: Archive, main: string, reader: Reader): Result<Json> {
    if a.binding != expected || !(0 < |a.entries| <= MAX_READS) then Err else Playing(c, a, main, reader, [])
  }

  /** Acceptance of a whole run, for any archive, any reader and any current main. */
  lemma ReplayAcceptsExactly(c: Checks, expected: Binding, a: Archive, main: string, reader: Reader)
    ensures Replaying(c, expected, a, main, reader).Ok? <==>
      a.binding == expected && 0 < |a.entries| <= MAX_READS && Follows(c, a, main, reader, 0)
    ensures Replaying(c, expected, a, main, reader).Ok? ==> Replaying(c, expected, a, main, reader).value == a.result
  {
    hide Replayed, Follows, Playing;
    AcceptsExactly(c, a, main, reader, 0);
  }

  /** Every recorded tip of main was the release. */
  ghost predicate MainsAtRelease(a: Archive) {
    forall k :: 0 <= k < |a.entries| ==> MainAtRelease(a, a.entries[k])
  }

  ghost predicate MainAtRelease(a: Archive, e: Entry) {
    AsksMain(a.binding, e.request) ==> e.stored.Plain? && Tip(e.stored.value) == Some(Str(a.binding.release))
  }

  /** An entry as `Record` makes it. */
  ghost predicate Recorded(c: Checks, e: Entry) {
    match e.request
    case Call(_, readOnly) => readOnly && e.stored.Plain?
    case Pages(_, _) => e.stored.Plain?
    case File(_, _, _) => e.stored.Encoded?
    case JobLog(_, _) => e.stored.Plain?
    case Artifact(_, run, name, filename) =>
      c.identity(run, name, filename) && e.stored.Fetched? && GoodMetadata(c, e.stored.metadata, name)
  }

  /** Artifact `k` alone has that name and has not expired. */
  predicate OnlyLive(inventory: seq<Metadata>, name: string, k: nat) {
    && k < |inventory|
    && forall j :: 0 <= j < |inventory| ==> (inventory[j].name == name && inventory[j].expired == false <==> j == k)
  }

  lemma {:induction false} NoneSelected(inventory: seq<Metadata>, name: string)
    ensures Selected(inventory, name) == [] <==> forall j :: 0 <= j < |inventory| ==> inventory[j].name != name || inventory[j].expired
  {
    if inventory != [] {
      NoneSelected(inventory[1..], name);
      assert forall j :: 1 <= j < |inventory| ==> inventory[j] == inventory[1..][j - 1];
      assert forall j :: 0 <= j < |inventory| - 1 ==> inventory[1..][j] == inventory[j + 1];
    }
  }

  lemma {:induction false} OneSelected(inventory: seq<Metadata>, name: string)
    ensures |Selected(inventory, name)| == 1 <==> exists k: nat :: OnlyLive(inventory, name, k)
    ensures forall k: nat :: OnlyLive(inventory, name, k) ==> Selected(inventory, name) == [inventory[k]]
  {
    if inventory != [] {
      var rest := inventory[1..];
      assert forall j :: 1 <= j < |inventory| ==> inventory[j] == rest[j - 1];
      assert forall j :: 0 <= j < |rest| ==> rest[j] == inventory[j + 1];
      OneSelected(rest, name);
      NoneSelected(rest, name);
      if inventory[0].name == name && !inventory[0].expired {
        if Selected(rest, name) == [] {
          assert OnlyLive(inventory, name, 0);
        }
      } else {
        forall k: nat ensures OnlyLive(inventory, name, k) <==> k > 0 && OnlyLive(rest, name, k - 1) {
          LaterLive(inventory, name, k);
        }
        if k: nat :| OnlyLive(rest, name, k) {
          assert OnlyLive(inventory, name, k + 1);
        }
      }
    }
  }

  lemma LaterLive(inventory: seq<Metadata>, name: string, k: nat)
    requires inventory != [] && !(inventory[0].name == name && !inventory[0].expired)
    ensures OnlyLive(inventory, name, k) <==> k > 0 && OnlyLive(inventory[1..], name, k - 1)
  {
    var rest := inventory[1..];
    assert forall j :: 1 <= j < |inventory| ==> inventory[j] == rest[j - 1];
    assert forall j :: 0 <= j < |rest| ==> rest[j] == inventory[j + 1];
  }

  /** An artifact is recorded exactly if it is the one of its name that has not expired, of a positive id, of at most 50 MiB. */
  lemma ArtifactRecorded(c: Checks, b: Binding, api: Api, n: nat, q: Request, m: Metadata, record: Json)
    requires q.Artifact?
    ensures Observed(c, b, api, n, q) == Ok(Fetched(m, record)) <==>
      && q.repository == b.repository && c.identity(q.run, q.name, q.filename)
      && api.artifact(n, q).Ok? && api.artifact(n, q).value.0.Some? && api.artifact(n, q).value.1 == record
      && (exists k: nat :: OnlyLive(api.artifact(n, q).value.0.value, q.name, k) && api.artifact(n, q).value.0.value[k] == m)
      && 1 <= m.id && 1 <= m.size <= 52428800 && (m.digest == None || c.digest(m.digest.value))
  {
    if api.artifact(n, q).Ok? && api.artifact(n, q).value.0.Some? {
      var inventory := api.artifact(n, q).value.0.value;
      OneSelected(inventory, q.name);
    }
    hide Selected;
  }

  /** And replayed exactly if what was recorded of it is such an artifact of the name that is asked for. */
  lemma ArtifactReplayed(c: Checks, a: Archive, main: string, e: Entry, record: Json)
    requires e.request.Artifact?
    ensures Replayed(c, a, main, e) == Ok(Value(record)) <==>
      && c.identity(e.request.run, e.request.name, e.request.filename)
      && exists m :: e.stored == Fetched(m, record) && m.name == e.request.name && m.expired == false
                     && 1 <= m.id && 1 <= m.size <= 52428800 && (m.digest == None || c.digest(m.digest.value))
  {
  }

  /** A path is in scope exactly if it is something behind the name of the bound repository. */
  lemma InScopeIs(b: Binding, path: string)
    ensures InScope(b, path) <==> exists rest :: path == "repos/" + b.repository + "/" + rest
  {
    var front := "repos/" + b.repository + "/";
    if InScope(b, path) {
      assert path == front + path[|front|..];
    }
  }

  lemma RecordOneIs(c: Checks, b: Binding, api: Api, entries: seq<Entry>, q: Request)
    requires RecordOne(c, b, api, entries, q).Ok?
    ensures RecordOne(c, b, api, entries, q).value.request == q && Recorded(c, RecordOne(c, b, api, entries, q).value)
    ensures |entries| < MAX_READS
  {
    hide GoodMetadata, Selected;
  }

  lemma WithTipSame(v: Json, sha: string)
    requires Tip(v) == Some(Str(sha))
    ensures WithTip(v, sha) == v
  {
    var o := v.fields["object"].fields;
    assert o["sha" := Str(sha)] == o;
    assert v.fields["object" := v.fields["object"]] == v.fields;
  }

  /** With main at the release, the replay of a recorded entry is the recorded answer; only a drifted tip is refused. */
  lemma ReplayedIs(c: Checks, a: Archive, e: Entry)
    requires Recorded(c, e)
    ensures Replayed(c, a, a.binding.release, e) == if MainAtRelease(a, e) then Ok(AnswerOf(e.stored)) else Err
  {
    hide GoodMetadata;
    if AsksMain(a.binding, e.request) && MainAtRelease(a, e) {
      WithTipSame(e.stored.value, a.binding.release);
    }
  }

  /** With another main, only the answer to the tip of main differs, and only in its sha. */
  lemma OnlyTheTipDiffers(c: Checks, a: Archive, e: Entry, main: string)
    requires Recorded(c, e) && MainAtRelease(a, e)
    ensures Replayed(c, a, main, e) ==
      Ok(if AsksMain(a.binding, e.request) then Value(WithTip(e.stored.value, main)) else AnswerOf(e.stored))
    ensures AsksMain(a.binding, e.request) ==>
      Tip(WithTip(e.stored.value, main)) == Some(Str(main))
      && WithTip(WithTip(e.stored.value, main), a.binding.release) == e.stored.value
  {
    hide GoodMetadata;
    if AsksMain(a.binding, e.request) {
      var v := e.stored.value;
      WithTipSame(v, a.binding.release);
      var o := v.fields["object"].fields;
      assert o["sha" := Str(main)]["sha" := Str(a.binding.release)] == o["sha" := Str(a.binding.release)];
      var inner := Obj(o["sha" := Str(main)]);
      assert v.fields["object" := inner]["object" := v.fields["object"]] == v.fields["object" := v.fields["object"]];
    }
  }

  ghost predicate AllRecorded(c: Checks, entries: seq<Entry>) {
    forall k :: 0 <= k < |entries| ==> Recorded(c, entries[k])
  }

  /** The reader made exactly the reads of its recording, in order, from its answers. */
  ghost predicate Traced(reader: Reader, entries: seq<Entry>) {
    forall k :: 0 <= k < |entries| ==> reader(Answers(entries[..k])) == Ask(entries[k].request)
  }

  lemma {:induction false} RecordingTrace(c: Checks, b: Binding, api: Api, reader: Reader, entries: seq<Entry>)
    requires |entries| <= MAX_READS && AllRecorded(c, entries) && Traced(reader, entries)
    requires Recording(c, b, api, reader, entries).Ok?
    ensures var a := Recording(c, b, api, reader, entries).value;
            && a.binding == b && |a.entries| <= MAX_READS && AllRecorded(c, a.entries) && Traced(reader, a.entries)
            && reader(Answers(a.entries)) == Return(a.result)
    decreases MAX_READS - |entries|
  {
    hide Recorded, RecordOne, Answers;
    match reader(Answers(entries))
    case Return(_) =>
    case Ask(q) =>
      RecordOneIs(c, b, api, entries, q);
      var more := entries + [RecordOne(c, b, api, entries, q).value];
      assert more[..|entries|] == entries && forall k :: 0 <= k < |entries| ==> more[..k] == entries[..k];
      RecordingTrace(c, b, api, reader, more);
  }

  /** A read of this repository, changing nothing. */
  predicate Scoped(b: Binding, q: Request) {
    match q
    case Call(path, readOnly) => InScope(b, path) && readOnly
    case Pages(path, _) => InScope(b, path)
    case File(repository, _, _) => repository == b.repository
    case JobLog(repository, _) => repository == b.repository
    case Artifact(repository, _, _, _) => repository == b.repository
  }

  /** Whatever the reader asks, a recording holds only reads of the bound repository, within both bounds. */
  lemma {:induction false} RecordingBounded(c: Checks, b: Binding, api: Api, reader: Reader, entries: seq<Entry>)
    requires |entries| <= MAX_READS && Weight(c, entries) <= MAX_BYTES
    requires forall k :: 0 <= k < |entries| ==> Scoped(b, entries[k].request)
    requires Recording(c, b, api, reader, entries).Ok?
    ensures var a := Recording(c, b, api, reader, entries).value;
            && |a.entries| <= MAX_READS && Weight(c, a.entries) <= MAX_BYTES && c.size(a) <= MAX_BYTES
            && (forall k :: 0 <= k < |a.entries| ==> Scoped(b, a.entries[k].request))
    decreases MAX_READS - |entries|
  {
    hide RecordOne, Scoped, Answers;
    match reader(Answers(entries))
    case Return(_) =>
    case Ask(q) =>
      OneBounded(c, b, api, entries, q);
      RecordingBounded(c, b, api, reader, entries + [RecordOne(c, b, api, entries, q).value]);
  }

  lemma OneBounded(c: Checks, b: Binding, api: Api, entries: seq<Entry>, q: Request)
    requires RecordOne(c, b, api, entries, q).Ok?
    ensures var e := RecordOne(c, b, api, entries, q).value;
            |entries| < MAX_READS && Weight(c, entries + [e]) <= MAX_BYTES && Scoped(b, e.request)
  {
    hide GoodMetadata, Selected, InScope;
    var e := RecordOne(c, b, api, entries, q).value;
    assert (entries + [e])[..|entries|] == entries;
  }

  lemma {:induction false} ServedIsRecorded(c: Checks, a: Archive, k: nat)
    requires k <= |a.entries| && AllRecorded(c, a.entries) && MainsAtRelease(a)
    ensures Served(c, a, a.binding.release, k) == Answers(a.entries[..k])
  {
    hide Replayed, Recorded, MainAtRelease;
    if k > 0 {
      ServedIsRecorded(c, a, k - 1);
      ReplayedIs(c, a, a.entries[k - 1]);
      assert a.entries[..k][..k - 1] == a.entries[..k - 1];
    } else {
      assert a.entries[..0] == [];
    }
  }

  /**
   Recording, then replaying with main at the release, gives the same result and consumes
   every entry, exactly when something was read and each recorded tip of main was the release.
   */
  lemma RecordThenReplay(c: Checks, b: Binding, api: Api, reader: Reader)
    requires Recording(c, b, api, reader, []).Ok?
    ensures var a := Recording(c, b, api, reader, []).value;
            Replaying(c, b, a, b.release, reader) ==
              if a.entries != [] && MainsAtRelease(a) then Ok(a.result) else Err
  {
    hide Recording, Replayed, Recorded, MainAtRelease, Playing;
    var a := Recording(c, b, api, reader, []).value;
    RecordingTrace(c, b, api, reader, []);
    AcceptsExactly(c, a, b.release, reader, 0);
    if MainsAtRelease(a) {
      forall k | 0 <= k < |a.entries| ensures FollowsAt(c, a, b.release, reader, k) {
        ServedIsRecorded(c, a, k);
        ReplayedIs(c, a, a.entries[k]);
      }
      ServedIsRecorded(c, a, |a.entries|);
      assert a.entries[..|a.entries|] == a.entries;
    } else {
      var k :| 0 <= k < |a.entries| && !MainAtRelease(a, a.entries[k]);
      ReplayedIs(c, a, a.entries[k]);
      assert !FollowsAt(c, a, b.release, reader, k);
    }
  }

  // ---------------------------------------------------------------- Recordings that no replay accepts

  function TipAnswer(sha: string): Json {
    Obj(map["object" := Obj(map["sha" := Str(sha)])])
  }

  /** A reader that asks for the tip of main, whatever it is, and returns. */
  function TipReader(b: Binding): Reader {
    (seen: seq<Answer>) => if seen == [] then Ask(Call(MainPath(b), true)) else Return(Null)
  }

  /** Main had moved on when it was recorded: the recording is made, and its replay refused. */
  lemma MovedTipRefused(c: Checks, b: Binding, api: Api, tip: string)
    requires tip != b.release && api.value(0, Call(MainPath(b), true)) == Ok(TipAnswer(tip))
    requires var e := Entry(Call(MainPath(b), true), Plain(TipAnswer(tip)));
             c.weight(e) <= MAX_BYTES && c.size(Archive(b, [e], Null)) <= MAX_BYTES
    ensures Recording(c, b, api, TipReader(b), []).Ok?
    ensures Replaying(c, b, Recording(c, b, api, TipReader(b), []).value, b.release, TipReader(b)).Err?
  {
    hide GoodMetadata, Selected;
    var q := Call(MainPath(b), true);
    var e := Entry(q, Plain(TipAnswer(tip)));
    assert Answers([]) == [] && InScope(b, q.path);
    assert Weight(c, []) == 0;
    assert RecordOne(c, b, api, [], q) == Ok(e);
    assert Answers([e]) != [];
    assert Recording(c, b, api, TipReader(b), [e]) == Ok(Archive(b, [e], Null));
    assert [] + [e] == [e];
    RecordThenReplay(c, b, api, TipReader(b));
    assert !MainAtRelease(Archive(b, [e], Null), [e][0]);
  }

  /** Nothing was read: likewise. */
  lemma NothingReadRefused(c: Checks, b: Binding, api: Api)
    requires c.size(Archive(b, [], Null)) <= MAX_BYTES
    ensures var reader: Reader := (seen: seq<Answer>) => Return(Null);
      && Recording(c, b, api, reader, []).Ok?
      && Replaying(c, b, Recording(c, b, api, reader, []).value, b.release, reader).Err?
  {
    var reader: Reader := (seen: seq<Answer>) => Return(Null);
    assert Recording(c, b, api, reader, []) == Ok(Archive(b, [], Null));
    RecordThenReplay(c, b, api, reader);
  }

  // ---------------------------------------------------------------- The objects run the same way

  /** A reader driven over a `Recorder`. */
  method RecordRun(recorder: Recorder, reader: Reader) returns (r: Result<Archive>)
    requires recorder.Valid() && recorder.entries == []
    modifies recorder
    ensures r == Recording(recorder.checks, recorder.expected, recorder.api, reader, [])
  {
    hide RecordOne;
    var answers: seq<Answer> := [];
    while true
      invariant recorder.Valid() && answers == Answers(recorder.entries)
      invariant Recording(recorder.checks, recorder.expected, recorder.api, reader, [])
             == Recording(recorder.checks, recorder.expected, recorder.api, reader, recorder.entries)
      decreases MAX_READS - |recorder.entries|
    {
      match reader(answers)
      case Return(result) =>
        r := recorder.Finish(result);
        return;
      case Ask(q) =>
        ghost var before := recorder.entries;
        var answer := recorder.Read(q);
        if answer.Err? {
          return Err;
        }
        assert recorder.entries[..|before|] == before;
        answers := answers + [answer.value];
    }
  }

  /** A reader driven over a `Player`. */
  method ReplayRun(player: Player, reader: Reader) returns (r: Result<Json>)
    requires player.Valid() && player.index == 0
    modifies player
    ensures r == Playing(player.checks, player.archive, player.currentMain, reader, [])
  {
    hide ReplayOne;
    var seen: seq<Answer> := [];
    while true
      invariant player.Valid() && |seen| == player.index
      invariant Playing(player.checks, player.archive, player.currentMain, reader, [])
             == Playing(player.checks, player.archive, player.currentMain, reader, seen)
      decreases |player.archive.entries| - player.index
    {
      match reader(seen)
      case Return(result) =>
        var ok := player.Finish(result);
        return if ok then Ok(result) else Err;
      case Ask(q) =>
        var answer := player.Read(q);
        if answer.Err? {
          return Err;
        }
        seen := seen + [answer.value];
    }
  }
}
