/**
 `plan` of scripts/bounded_review.py.  `IsPlan` says which manifest and units belong to an
 input; `MakePlan` finds them exactly when they exist.  Every byte of the payload lies in
 one span of one unit, and no semantic group is cut.
 */
module Coverage {
  import opened Common
  import opened Utf8
  import opened PathQuoting
  import opened DiffGrammar
  import opened DiffInventory
  import opened Partition
  import opened GroupRanges
  import opened PartitionLaws

  const MAX_UNIT_BYTES := 199999

  datatype Binding = Binding(repository: Bytes, base: Bytes, head: Bytes, mergeBase: Bytes, tree: Bytes)

  /** The budgets of a policy and its semantic groups; its other fields are fixed. */
  datatype Limits = Limits(
    maxUnits: int, maxTotalBytes: int, maxReviewSeconds: int, perReviewSeconds: int,
    maxCost: int, perReviewCost: int, maxWip: int, groups: seq<seq<Bytes>>)

  datatype Span = Span(file: nat, start: nat, end: nat, hunks: seq<nat>)

  datatype Unit = Unit(ordinal: nat, start: nat, end: nat, bytes: nat, sha: Digest<Bytes>, spans: seq<Span>)

  datatype Manifest = Manifest(
    binding: Binding, prompt: Digest<Bytes>, promptVersion: Bytes, promptBytes: nat, limits: Limits,
    totalBytes: nat, diff: Digest<Bytes>, files: seq<FileInfo>, units: seq<Unit>)

  // ---------------------------------------------------------------- Validation

  predicate NameByte(b: Byte) {
    65 <= b <= 90 || 97 <= b <= 122 || 48 <= b <= 57 || b == 95 || b == 46 || b == 45
  }

  predicate RepositoryName(s: Bytes) {
    exists k :: 0 < k < |s| - 1 && s[k] == SLASH && forall j :: 0 <= j < |s| && j != k ==> NameByte(s[j])
  }

  predicate ValidBinding(b: Binding) {
    RepositoryName(b.repository) && IsBlob(b.base) && IsBlob(b.head) && IsBlob(b.mergeBase) && IsBlob(b.tree)
  }

  predicate Distinct(paths: seq<Bytes>) {
    forall j, k :: 0 <= j < k < |paths| ==> paths[j] != paths[k]
  }

  /** `validate_policy(limits)` */
  predicate ValidPolicy(l: Limits) {
    && 1 <= l.maxUnits <= 64 && 1 <= l.maxTotalBytes <= MAX_TOTAL_BYTES
    && 1 <= l.maxReviewSeconds <= 7200 && 1 <= l.perReviewSeconds <= 100
    && 1 <= l.maxCost <= 66000000 && 1 <= l.perReviewCost <= 1000000 && l.maxWip == 1
    && |l.groups| <= 64 && (forall k :: 0 <= k < |l.groups| ==> 1 <= |l.groups[k]| <= 128)
    && Distinct(Concat(l.groups)) && (forall k :: 0 <= k < |Concat(l.groups)| ==> ValidPath(Concat(l.groups)[k]))
  }

  predicate ValidPrompt(prompt: Bytes, version: Bytes) {
    Text(prompt) && 0 < |prompt| <= 1000000 && 0 < |version| <= 100
  }

  // ---------------------------------------------------------------- The groups' ranges

  function FileAt(files: seq<FileInfo>, path: Bytes): Option<FileInfo> {
    if files == [] then None else if files[0].path == path then Some(files[0]) else FileAt(files[1..], path)
  }

  /** From the first start to the last end of the group's files. */
  function GroupRange(files: seq<FileInfo>, group: seq<Bytes>): Result<Range>
    requires group != []
  {
    match FileAt(files, group[0])
    case None => Err
    case Some(f) =>
      if |group| == 1 then Ok(Range(f.start, f.end))
      else
        match GroupRange(files, group[1..])
        case Err => Err
        case Ok(r) => Ok(Range(if f.start < r.start then f.start else r.start, if f.end > r.end then f.end else r.end))
  }

  /** A group without paths, which no valid policy has, stands for nothing. */
  function AllRanges(files: seq<FileInfo>, groups: seq<seq<Bytes>>): Result<seq<Range>> {
    if groups == [] then Ok([])
    else if groups[0] == [] then Err
    else if GroupRange(files, groups[0]).Err? || AllRanges(files, groups[1..]).Err? then Err
    else Ok([GroupRange(files, groups[0]).value] + AllRanges(files, groups[1..]).value)
  }

  // ---------------------------------------------------------------- Boundaries

  function HunkEnds(hunks: seq<HunkInfo>): seq<nat> {
    if hunks == [] then [] else [hunks[0].end] + HunkEnds(hunks[1..])
  }

  /** Ends of files, then ends of the hunks of the files that exceed a unit. */
  function FileEnds(files: seq<FileInfo>): seq<nat> {
    if files == [] then [] else [files[0].end] + FileEnds(files[1..])
  }

  function LargeHunkEnds(files: seq<FileInfo>): seq<nat> {
    if files == [] then []
    else (if files[0].end - files[0].start > MAX_UNIT_BYTES then HunkEnds(files[0].hunks) else [])
         + LargeHunkEnds(files[1..])
  }

  function Endpoints(ranges: seq<Range>): seq<nat> {
    if ranges == [] then [] else [ranges[0].start, ranges[0].end] + Endpoints(ranges[1..])
  }

  function Boundaries(files: seq<FileInfo>, ranges: seq<Range>): seq<nat> {
    FileEnds(files) + LargeHunkEnds(files) + Endpoints(ranges)
  }

  // ---------------------------------------------------------------- Units and spans

  predicate Overlap(start: nat, end: nat, a: nat, b: nat) {
    start < b && end > a
  }

  /** The numbers, from `number` on, of the hunks that overlap `[start, end)`. */
  function HunksIn(hunks: seq<HunkInfo>, number: nat, start: nat, end: nat): seq<nat> {
    if hunks == [] then []
    else (if Overlap(start, end, hunks[0].start, hunks[0].end) then [number] else [])
         + HunksIn(hunks[1..], number + 1, start, end)
  }

  function SpanOf(f: FileInfo, number: nat, start: nat, end: nat): Span {
    Span(number, if start > f.start then start else f.start, if end < f.end then end else f.end,
         HunksIn(f.hunks, 0, start, end))
  }

  function SpansIn(files: seq<FileInfo>, number: nat, start: nat, end: nat): seq<Span> {
    if files == [] then []
    else (if Overlap(start, end, files[0].start, files[0].end) then [SpanOf(files[0], number, start, end)] else [])
         + SpansIn(files[1..], number + 1, start, end)
  }

  function UnitsOf(files: seq<FileInfo>, chunks: seq<Bytes>, number: nat, start: nat): seq<Unit> {
    if chunks == [] then []
    else [Unit(number, start, start + |chunks[0]|, |chunks[0]|, Sha(chunks[0]),
               SpansIn(files, 0, start, start + |chunks[0]|))]
         + UnitsOf(files, chunks[1..], number + 1, start + |chunks[0]|)
  }

  // ---------------------------------------------------------------- What a plan is

  ghost predicate Affordable(l: Limits, units: nat) {
    (units + 1) * l.perReviewSeconds <= l.maxReviewSeconds && (units + 1) * l.perReviewCost <= l.maxCost
  }

  /** The rule of `Partition` with the requested groups cuts `payload` into `chunks`. */
  ghost predicate Cut(payload: Bytes, files: seq<FileInfo>, ranges: seq<Range>, maxUnits: nat, chunks: seq<Bytes>,
                      ends: seq<nat>) {
    && Choices(payload, Boundaries(files, ranges), ranges, MAX_UNIT_BYTES, maxUnits, ends)
    && Cutting(payload, ends, chunks) && From(ends, |ends|) == |payload|
  }

  ghost predicate Valid(payload: Bytes, binding: Binding, prompt: Bytes, version: Bytes, limits: Limits) {
    && ValidBinding(binding) && ValidPolicy(limits) && 0 < |payload| <= limits.maxTotalBytes
    && ValidPrompt(prompt, version)
  }

  ghost predicate IsPlan(payload: Bytes, binding: Binding, prompt: Bytes, version: Bytes, limits: Limits,
                         m: Manifest, chunks: seq<Bytes>) {
    && Valid(payload, binding, prompt, version, limits) && Inventoried(payload) == Ok(m.files)
    && AllRanges(m.files, limits.groups).Ok?
    && (exists ends :: Cut(payload, m.files, AllRanges(m.files, limits.groups).value, limits.maxUnits, chunks, ends))
    && Affordable(limits, |chunks|)
    && m == Manifest(binding, Sha(prompt), version, |prompt|, limits, |payload|, Sha(payload), m.files,
                     UnitsOf(m.files, chunks, 0, 0))
  }

  /** An input has at most one plan. */
  lemma PlanUnique(payload: Bytes, binding: Binding, prompt: Bytes, version: Bytes, limits: Limits,
                   m: Manifest, chunks: seq<Bytes>, m': Manifest, chunks': seq<Bytes>)
    requires IsPlan(payload, binding, prompt, version, limits, m, chunks)
    requires IsPlan(payload, binding, prompt, version, limits, m', chunks')
    ensures m == m' && chunks == chunks'
  {
    hide ValidBinding, ValidPrompt, Distinct, Inventoried, AllRanges, UnitsOf, Choices, Cutting, Boundaries;
    var ranges := AllRanges(m.files, limits.groups).value;
    var e :| Cut(payload, m.files, ranges, limits.maxUnits, chunks, e);
    var e' :| Cut(payload, m.files, ranges, limits.maxUnits, chunks', e');
    SplitUnique(payload, Boundaries(m.files, ranges), ranges, MAX_UNIT_BYTES, limits.maxUnits, e, chunks, e', chunks');
  }

  /** A plan's units are a legal split, so without one there is no plan. */
  lemma CutFeasible(payload: Bytes, files: seq<FileInfo>, ranges: seq<Range>, maxUnits: nat, chunks: seq<Bytes>,
                    ends: seq<nat>)
    requires Cut(payload, files, ranges, maxUnits, chunks, ends)
    ensures IsSplit(payload, ranges, MAX_UNIT_BYTES, 0, ends) && Feasible(payload, ranges, MAX_UNIT_BYTES, 0, maxUnits)
  {
    hide ChoiceAt, Cutting, Boundaries;
    ChoicesSplit(payload, Boundaries(files, ranges), ranges, MAX_UNIT_BYTES, maxUnits, ends, 0);
    assert ends[0..] == ends;
  }

  // ---------------------------------------------------------------- Everything lies between characters

  predicate OnChars(payload: Bytes, x: nat) {
    x <= |payload| && CharStart(payload, x)
  }

  lemma LineOnChars(payload: Bytes, k: nat)
    requires Text(payload) && payload != [] && payload[|payload| - 1] == LF && k <= |Lines(payload)|
    ensures OnChars(payload, Offset(Lines(payload), k))
  {
    hide Lines, ValidUtf8, Concat;
    var lines := Lines(payload);
    LinesAreLines(payload);
    LinesConcat(payload);
    OffsetIsLength(lines, k);
    ConcatSplit(lines, k);
    if k > 0 {
      ConcatSnoc(lines, k - 1);
      var x := |Concat(lines[..k])|;
      assert IsLine(lines[k - 1]);
      assert payload[x - 1] == lines[k - 1][|lines[k - 1]| - 1] == LF;
      AfterAscii(payload, x);
    } else {
      TextAtStart(payload);
    }
  }

  lemma TextAtStart(payload: Bytes)
    requires Text(payload)
    ensures OnChars(payload, 0)
  {
    ValidStart(payload);
  }

  ghost predicate FileOnChars(payload: Bytes, f: FileInfo) {
    && f.start < f.end && OnChars(payload, f.start) && OnChars(payload, f.end)
    && (forall k :: 0 <= k < |f.hunks| ==> OnChars(payload, f.hunks[k].end))
  }

  ghost predicate FilesOnChars(payload: Bytes, files: seq<FileInfo>) {
    forall k :: 0 <= k < |files| ==> FileOnChars(payload, files[k])
  }

  lemma AtLineOnChars(payload: Bytes, x: nat)
    requires Inventoried(payload).Ok? && AtLine(Lines(payload), x)
    ensures OnChars(payload, x)
  {
    hide ParseFiles, OnChars;
    var k: nat :| k <= |Lines(payload)| && x == Offset(Lines(payload), k);
    LineOnChars(payload, k);
  }

  lemma HunkAtLine(lines: seq<Bytes>, h: HunkInfo)
    requires HunkExact(lines, h)
    ensures AtLine(lines, h.end)
  {
    hide ParseHeader, BodyShape, Declares;
    var a, b :| HunkSpan(lines, h, a, b);
  }

  lemma InventoryOnChars(payload: Bytes)
    requires Inventoried(payload).Ok?
    ensures FilesOnChars(payload, Inventoried(payload).value)
  {
    hide Inventoried, OnChars, AtLine, HunkExact, HunksOrdered, EndsAt, ValidPath, EmptyChange, ZERO_BLOB;
    AcceptedIsExact(payload);
    var files := Inventoried(payload).value;
    forall k | 0 <= k < |files| ensures FileOnChars(payload, files[k]) {
      assert FileExact(Lines(payload), files[k]);
      AtLineOnChars(payload, files[k].start);
      AtLineOnChars(payload, files[k].end);
      forall n | 0 <= n < |files[k].hunks| ensures OnChars(payload, files[k].hunks[n].end) {
        HunkAtLine(Lines(payload), files[k].hunks[n]);
        AtLineOnChars(payload, files[k].hunks[n].end);
      }
    }
  }

  ghost predicate AllOnChars(payload: Bytes, s: seq<nat>) {
    forall k :: 0 <= k < |s| ==> OnChars(payload, s[k])
  }

  lemma {:induction false} FileEndsOnChars(payload: Bytes, files: seq<FileInfo>)
    requires FilesOnChars(payload, files)
    ensures AllOnChars(payload, FileEnds(files))
  {
    hide OnChars;
    if files != [] {
      FileEndsOnChars(payload, files[1..]);
      assert FileOnChars(payload, files[0]);
    }
  }

  lemma {:induction false} HunkEndsOnChars(payload: Bytes, hunks: seq<HunkInfo>)
    requires forall k :: 0 <= k < |hunks| ==> OnChars(payload, hunks[k].end)
    ensures AllOnChars(payload, HunkEnds(hunks))
  {
    hide OnChars;
    if hunks != [] {
      HunkEndsOnChars(payload, hunks[1..]);
    }
  }

  lemma {:induction false} LargeEndsOnChars(payload: Bytes, files: seq<FileInfo>)
    requires FilesOnChars(payload, files)
    ensures AllOnChars(payload, LargeHunkEnds(files))
  {
    hide OnChars;
    if files != [] {
      LargeEndsOnChars(payload, files[1..]);
      assert FileOnChars(payload, files[0]);
      HunkEndsOnChars(payload, files[0].hunks);
    }
  }

  ghost predicate RangeOnChars(payload: Bytes, r: Range) {
    r.start < r.end && OnChars(payload, r.start) && OnChars(payload, r.end)
  }

  lemma {:induction false} FileAtOnChars(payload: Bytes, files: seq<FileInfo>, path: Bytes)
    requires FilesOnChars(payload, files) && FileAt(files, path).Some?
    ensures FileOnChars(payload, FileAt(files, path).value)
  {
    hide FileOnChars;
    if files[0].path != path {
      FileAtOnChars(payload, files[1..], path);
    }
  }

  lemma {:induction false} GroupOnChars(payload: Bytes, files: seq<FileInfo>, group: seq<Bytes>)
    requires FilesOnChars(payload, files) && group != [] && GroupRange(files, group).Ok?
    ensures RangeOnChars(payload, GroupRange(files, group).value)
  {
    hide OnChars, FilesOnChars;
    FileAtOnChars(payload, files, group[0]);
    if |group| > 1 {
      GroupOnChars(payload, files, group[1..]);
    }
  }

  ghost predicate RangesOnChars(payload: Bytes, ranges: seq<Range>) {
    forall k :: 0 <= k < |ranges| ==> RangeOnChars(payload, ranges[k])
  }

  lemma {:induction false} AllRangesOnChars(payload: Bytes, files: seq<FileInfo>, groups: seq<seq<Bytes>>)
    requires FilesOnChars(payload, files) && AllRanges(files, groups).Ok?
    ensures RangesOnChars(payload, AllRanges(files, groups).value)
  {
    hide FilesOnChars, RangeOnChars, GroupRange;
    if groups != [] {
      AllRangesOnChars(payload, files, groups[1..]);
      GroupOnChars(payload, files, groups[0]);
    }
  }

  lemma {:induction false} EndpointsMeans(ranges: seq<Range>, x: nat)
    ensures x in Endpoints(ranges) <==> Start(ranges, x) || End(ranges, x)
  {
    if ranges != [] {
      EndpointsMeans(ranges[1..], x);
      assert Endpoints(ranges) == [ranges[0].start, ranges[0].end] + Endpoints(ranges[1..]);
      assert forall k :: 1 <= k < |ranges| ==> ranges[k] == ranges[1..][k - 1];
    }
  }

  lemma MergedSeparate(payload: Bytes, merged: seq<Range>, requested: seq<Range>, unit: nat)
    requires RangesOnChars(payload, requested) && Merged(merged, requested, unit)
    ensures Separate(payload, merged)
  {
    hide SameInside, Holds, OnChars;
    forall g | 0 <= g < |merged|
      ensures merged[g].start < merged[g].end && OnChars(payload, merged[g].start) && OnChars(payload, merged[g].end)
    {
      assert Start(requested, merged[g].start) && End(requested, merged[g].end);
      var i :| 0 <= i < |requested| && requested[i].start == merged[g].start;
      var j :| 0 <= j < |requested| && requested[j].end == merged[g].end;
      assert RangeOnChars(payload, requested[i]) && RangeOnChars(payload, requested[j]);
    }
    OnCharsMeans(payload);
  }

  lemma OnCharsMeans(payload: Bytes)
    ensures forall x: nat :: OnChars(payload, x) <==> x <= |payload| && CharStart(payload, x)
  {
  }

  lemma EndIsMerged(merged: seq<Range>, r: Range, c: nat)
    requires Held(merged, r) && r.start < r.end && (r.start == c || r.end == c) && !Inside(merged, c)
    ensures Start(merged, c) || End(merged, c)
  {
    var g :| 0 <= g < |merged| && merged[g].start <= r.start && r.end <= merged[g].end;
    assert merged[g].start == c || merged[g].end == c;
  }

  lemma MergedIsEnd(merged: seq<Range>, requested: seq<Range>, c: nat)
    requires EndsFrom(merged, requested) && (Start(merged, c) || End(merged, c))
    ensures Start(requested, c) || End(requested, c)
  {
    var g :| 0 <= g < |merged| && (merged[g].start == c || merged[g].end == c);
    assert Start(requested, merged[g].start) && End(requested, merged[g].end);
  }

  /** The ends of merged ranges are the ends of requested ones where a cut is allowed. */
  lemma MergedEnds(merged: seq<Range>, requested: seq<Range>, unit: nat, c: nat)
    requires Merged(merged, requested, unit) && !Inside(requested, c)
    requires forall k :: 0 <= k < |requested| ==> requested[k].start < requested[k].end
    ensures c in Endpoints(requested) <==> c in Endpoints(merged)
  {
    hide Inside, Apart, EndsFrom, Held;
    EndpointsMeans(requested, c);
    EndpointsMeans(merged, c);
    assert !Inside(merged, c);
    if Start(requested, c) || End(requested, c) {
      var k :| 0 <= k < |requested| && (requested[k].start == c || requested[k].end == c);
      EndIsMerged(merged, requested[k], c);
    }
    if Start(merged, c) || End(merged, c) {
      MergedIsEnd(merged, requested, c);
    }
  }

  lemma MergedPreferred(payload: Bytes, base: seq<nat>, merged: seq<Range>, requested: seq<Range>, unit: nat)
    requires Merged(merged, requested, unit)
    requires forall k :: 0 <= k < |requested| ==> requested[k].start < requested[k].end
    ensures SamePreferred(payload, base + Endpoints(merged), merged, base + Endpoints(requested), requested)
    ensures SamePreferred(payload, base + Endpoints(requested), requested, base + Endpoints(merged), merged)
  {
    hide Inside, Apart, EndsFrom, Holds;
    forall c: nat ensures Preferred(payload, base + Endpoints(merged), merged, c)
                      <==> Preferred(payload, base + Endpoints(requested), requested, c) {
      assert Inside(merged, c) <==> Inside(requested, c);
      if !Inside(requested, c) {
        MergedEnds(merged, requested, unit, c);
      }
    }
  }

  // ---------------------------------------------------------------- The code

  /** `min` of the starts and `max` of the ends of one group. */
  method GroupBounds(files: seq<FileInfo>, group: seq<Bytes>) returns (r: Result<Range>)
    requires group != []
    ensures r == GroupRange(files, group)
  {
    var first := FileAt(files, group[0]);
    if first.None? {
      return Err;
    }
    var start: nat, end: nat := first.value.start, first.value.end;
    for k := 1 to |group|
      invariant GroupRange(files, group) ==
        (if k == |group| then Ok(Range(start, end)) else Widened(GroupRange(files, group[k..]), start, end))
    {
      var f := FileAt(files, group[k]);
      assert group[k..][1..] == group[k + 1..];
      if f.None? {
        return Err;
      }
      start, end := if f.value.start < start then f.value.start else start, if f.value.end > end then f.value.end else end;
    }
    r := Ok(Range(start, end));
  }

  ghost function Widened(r: Result<Range>, start: nat, end: nat): Result<Range> {
    if r.Err? then Err
    else Ok(Range(if start < r.value.start then start else r.value.start, if end > r.value.end then end else r.value.end))
  }

  method RequestedRanges(files: seq<FileInfo>, groups: seq<seq<Bytes>>) returns (r: Result<seq<Range>>)
    ensures r == AllRanges(files, groups)
  {
    hide GroupRange;
    var ranges: seq<Range> := [];
    assert groups[0..] == groups;
    if AllRanges(files, groups).Ok? {
      assert ranges + AllRanges(files, groups).value == AllRanges(files, groups).value;
    }
    for k := 0 to |groups|
      invariant AllRanges(files, groups) ==
        (if AllRanges(files, groups[k..]).Ok? then Ok(ranges + AllRanges(files, groups[k..]).value) else Err)
    {
      ghost var before := ranges;
      assert groups[k..][1..] == groups[k + 1..];
      if groups[k] == [] {
        return Err;
      }
      var one := GroupBounds(files, groups[k]);
      if one.Err? {
        return Err;
      }
      ranges := ranges + [one.value];
      if AllRanges(files, groups[k + 1..]).Ok? {
        assert ranges + AllRanges(files, groups[k + 1..]).value
            == before + ([one.value] + AllRanges(files, groups[k + 1..]).value);
      }
    }
    assert groups[|groups|..] == [] && ranges + [] == ranges;
    r := Ok(ranges);
  }

  /** The units of `payload`, from inventory to partition. */
  method CutUnits(payload: Bytes, files: seq<FileInfo>, limits: Limits)
    returns (r: Result<seq<Bytes>>, ghost ends: seq<nat>)
    requires Inventoried(payload) == Ok(files) && 1 <= limits.maxUnits <= 64
    ensures r.Ok? ==> AllRanges(files, limits.groups).Ok?
    ensures r.Ok? ==> Cut(payload, files, AllRanges(files, limits.groups).value, limits.maxUnits, r.value, ends)
    ensures r.Err? ==> (AllRanges(files, limits.groups).Ok? ==>
      !Feasible(payload, AllRanges(files, limits.groups).value, MAX_UNIT_BYTES, 0, limits.maxUnits))
  {
    hide Merged, Separate, AllRanges, ParseFiles, Choices, Cutting, Feasible, FilesOnChars, RangesOnChars, TooLong;
    hide Lines, SamePreferred, SameInside, AllOnChars, OnChars;
    ends := [];
    var requested := RequestedRanges(files, limits.groups);
    if requested.Err? {
      return Err, [];
    }
    InventoryOnChars(payload);
    AllRangesOnChars(payload, files, limits.groups);
    RangesProper(payload, requested.value);
    ghost var a, b;
    var merged;
    merged, a, b := MergeRanges(requested.value, MAX_UNIT_BYTES);
    if merged.Err? {
      NoPlanTooLong(payload, requested.value, limits.maxUnits, a, b);
      return Err, [];
    }
    var boundaries := FileEnds(files) + LargeHunkEnds(files) + Endpoints(merged.value);
    MergedSeparate(payload, merged.value, requested.value, MAX_UNIT_BYTES);
    BoundariesOnChars(payload, files, merged.value);
    r, ends := Partition.Partition(payload, boundaries, limits.maxUnits, merged.value, MAX_UNIT_BYTES);
    MergedServes(payload, files, merged.value, requested.value, limits.maxUnits, ends);
  }

  lemma RangesProper(payload: Bytes, ranges: seq<Range>)
    requires RangesOnChars(payload, ranges)
    ensures forall k :: 0 <= k < |ranges| ==> ranges[k].start < ranges[k].end
  {
    hide OnChars;
    forall k | 0 <= k < |ranges| ensures ranges[k].start < ranges[k].end {
      assert RangeOnChars(payload, ranges[k]);
    }
  }

  lemma NoPlanTooLong(payload: Bytes, ranges: seq<Range>, maxUnits: nat, a: nat, b: nat)
    requires RangesOnChars(payload, ranges) && TooLong(ranges, MAX_UNIT_BYTES, a, b)
    ensures !Feasible(payload, ranges, MAX_UNIT_BYTES, 0, maxUnits)
  {
    var g :| 0 <= g < |ranges| && b <= ranges[g].end;
    assert RangeOnChars(payload, ranges[g]);
    forall cuts ensures !IsSplit(payload, ranges, MAX_UNIT_BYTES, 0, cuts) {
      NoSplitAcross(payload, ranges, MAX_UNIT_BYTES, 0, cuts, a, b);
    }
  }

  lemma BoundariesOnChars(payload: Bytes, files: seq<FileInfo>, merged: seq<Range>)
    requires FilesOnChars(payload, files) && Separate(payload, merged)
    ensures forall b :: b in FileEnds(files) + LargeHunkEnds(files) + Endpoints(merged) ==>
      b <= |payload| && CharStart(payload, b)
  {
    hide FilesOnChars, CharStart;
    FileEndsOnChars(payload, files);
    LargeEndsOnChars(payload, files);
    forall b: nat | b in Endpoints(merged) ensures OnChars(payload, b) {
      EndpointsMeans(merged, b);
    }
  }

  lemma MergedServes(payload: Bytes, files: seq<FileInfo>, merged: seq<Range>, requested: seq<Range>, maxUnits: nat,
                     ends: seq<nat>)
    requires RangesOnChars(payload, requested) && Merged(merged, requested, MAX_UNIT_BYTES)
    ensures Choices(payload, FileEnds(files) + LargeHunkEnds(files) + Endpoints(merged), merged, MAX_UNIT_BYTES, maxUnits, ends)
       ==> Choices(payload, Boundaries(files, requested), requested, MAX_UNIT_BYTES, maxUnits, ends)
    ensures Feasible(payload, merged, MAX_UNIT_BYTES, 0, maxUnits) <==> Feasible(payload, requested, MAX_UNIT_BYTES, 0, maxUnits)
  {
    hide Choices, Apart, EndsFrom, Holds, Feasible, Preferred, OnChars;
    var base := FileEnds(files) + LargeHunkEnds(files);
    RangesProper(payload, requested);
    MergedPreferred(payload, base, merged, requested, MAX_UNIT_BYTES);
    SameFeasible(payload, merged, requested, MAX_UNIT_BYTES, 0, maxUnits);
    if Choices(payload, base + Endpoints(merged), merged, MAX_UNIT_BYTES, maxUnits, ends) {
      SameChoices(payload, base + Endpoints(merged), merged, Boundaries(files, requested), requested,
                  MAX_UNIT_BYTES, maxUnits, ends);
    }
  }

  /** The spans of one unit. */
  method BuildSpans(files: seq<FileInfo>, start: nat, end: nat) returns (spans: seq<Span>)
    ensures spans == SpansIn(files, 0, start, end)
  {
    hide SpanOf;
    spans := [];
    assert files[0..] == files && spans + SpansIn(files, 0, start, end) == SpansIn(files, 0, start, end);
    for number := 0 to |files|
      invariant SpansIn(files, 0, start, end) == spans + SpansIn(files[number..], number, start, end)
    {
      assert files[number..][1..] == files[number + 1..];
      ghost var before, rest := spans, SpansIn(files[number + 1..], number + 1, start, end);
      if start < files[number].end && end > files[number].start {
        spans := spans + [SpanOf(files[number], number, start, end)];
        assert spans + rest == before + ([SpanOf(files[number], number, start, end)] + rest);
      }
    }
    assert files[|files|..] == [] && spans + [] == spans;
  }

  method BuildUnits(files: seq<FileInfo>, chunks: seq<Bytes>) returns (units: seq<Unit>)
    ensures units == UnitsOf(files, chunks, 0, 0)
  {
    units := [];
    var start := 0;
    assert chunks[0..] == chunks && units + UnitsOf(files, chunks, 0, 0) == UnitsOf(files, chunks, 0, 0);
    for number := 0 to |chunks|
      invariant start >= 0 && UnitsOf(files, chunks, 0, 0) == units + UnitsOf(files, chunks[number..], number, start)
    {
      var chunk := chunks[number];
      var end := start + |chunk|;
      assert chunks[number..][1..] == chunks[number + 1..];
      var spans := BuildSpans(files, start, end);
      ghost var before, rest := units, UnitsOf(files, chunks[number + 1..], number + 1, end);
      units := units + [Unit(number, start, end, |chunk|, Sha(chunk), spans)];
      assert units + rest == before + ([Unit(number, start, end, |chunk|, Sha(chunk), spans)] + rest);
      start := end;
    }
    assert chunks[|chunks|..] == [] && units + [] == units;
  }

  /** `plan(payload, binding, prompt, prompt_version, limits)`: the one plan, or an error exactly when there is none. */
  method MakePlan(payload: Bytes, binding: Binding, prompt: Bytes, version: Bytes, limits: Limits)
    returns (r: Result<(Manifest, seq<Bytes>)>)
    ensures r.Ok? ==> IsPlan(payload, binding, prompt, version, limits, r.value.0, r.value.1)
    ensures r.Err? ==> forall m, chunks :: !IsPlan(payload, binding, prompt, version, limits, m, chunks)
  {
    hide ValidBinding, ValidPrompt, Inventoried, AllRanges, UnitsOf, Distinct, Cut, Feasible;
    if !ValidBinding(binding) || !ValidPolicy(limits) || !(0 < |payload| <= limits.maxTotalBytes) {
      return Err;
    }
    var files := Inventory(payload);
    if files.Err? {
      return Err;
    }
    var chunks;
    ghost var ends;
    chunks, ends := CutUnits(payload, files.value, limits);
    if chunks.Err? {
      forall m, c ensures !IsPlan(payload, binding, prompt, version, limits, m, c) {
        PlanFeasible(payload, binding, prompt, version, limits, m, c);
      }
      return Err;
    }
    var reviews := |chunks.value| + 1;
    if !(reviews * limits.perReviewSeconds <= limits.maxReviewSeconds)
       || !(reviews * limits.perReviewCost <= limits.maxCost)
    {
      forall m, c ensures !IsPlan(payload, binding, prompt, version, limits, m, c) {
        PlanAffordable(payload, binding, prompt, version, limits, m, c, files.value, chunks.value, ends);
      }
      return Err;
    }
    var units := BuildUnits(files.value, chunks.value);
    if !ValidPrompt(prompt, version) {
      return Err;
    }
    r := Ok((Manifest(binding, Sha(prompt), version, |prompt|, limits, |payload|, Sha(payload), files.value, units),
             chunks.value));
  }

  lemma PlanFeasible(payload: Bytes, binding: Binding, prompt: Bytes, version: Bytes, limits: Limits,
                     m: Manifest, chunks: seq<Bytes>)
    ensures IsPlan(payload, binding, prompt, version, limits, m, chunks) ==>
      Feasible(payload, AllRanges(m.files, limits.groups).value, MAX_UNIT_BYTES, 0, limits.maxUnits)
  {
    hide ValidBinding, ValidPrompt, Inventoried, AllRanges, UnitsOf, Distinct, Feasible, Choices, Cutting, Boundaries;
    if IsPlan(payload, binding, prompt, version, limits, m, chunks) {
      var ends :| Cut(payload, m.files, AllRanges(m.files, limits.groups).value, limits.maxUnits, chunks, ends);
      CutFeasible(payload, m.files, AllRanges(m.files, limits.groups).value, limits.maxUnits, chunks, ends);
    }
  }

  lemma PlanAffordable(payload: Bytes, binding: Binding, prompt: Bytes, version: Bytes, limits: Limits,
                       m: Manifest, c: seq<Bytes>, files: seq<FileInfo>, chunks: seq<Bytes>, ends: seq<nat>)
    requires Inventoried(payload) == Ok(files) && AllRanges(files, limits.groups).Ok? && limits.maxUnits >= 1
    requires Cut(payload, files, AllRanges(files, limits.groups).value, limits.maxUnits, chunks, ends)
    ensures IsPlan(payload, binding, prompt, version, limits, m, c) ==> Affordable(limits, |chunks|)
  {
    hide ValidBinding, ValidPrompt, Inventoried, AllRanges, UnitsOf, Distinct, Choices, Cutting, Boundaries;
    if IsPlan(payload, binding, prompt, version, limits, m, c) {
      var ranges := AllRanges(files, limits.groups).value;
      var e :| Cut(payload, files, ranges, limits.maxUnits, c, e);
      SplitUnique(payload, Boundaries(files, ranges), ranges, MAX_UNIT_BYTES, limits.maxUnits, e, c, ends, chunks);
    }
  }

  // ---------------------------------------------------------------- Coverage

  function SpanRanges(spans: seq<Span>): seq<Range> {
    if spans == [] then [] else [Range(spans[0].start, spans[0].end)] + SpanRanges(spans[1..])
  }

  function UnitRanges(units: seq<Unit>): seq<Range> {
    if units == [] then [] else [Range(units[0].start, units[0].end)] + UnitRanges(units[1..])
  }

  /** The ranges lie end to end from `from` to `end`. */
  predicate Tile(ranges: seq<Range>, from: nat, end: nat) {
    if ranges == [] then from == end
    else ranges[0].start == from && from < ranges[0].end && Tile(ranges[1..], ranges[0].end, end)
  }

  lemma {:induction false} TileBounds(ranges: seq<Range>, from: nat, end: nat)
    requires Tile(ranges, from, end)
    ensures from <= end
    ensures forall k :: 0 <= k < |ranges| ==> from <= ranges[k].start < ranges[k].end <= end
  {
    if ranges != [] {
      TileBounds(ranges[1..], ranges[0].end, end);
      assert forall k :: 1 <= k < |ranges| ==> ranges[k] == ranges[1..][k - 1];
    }
  }

  predicate Has(r: Range, x: nat) {
    r.start <= x < r.end
  }

  /** Every position lies in exactly one tile. */
  lemma {:induction false} OneTile(ranges: seq<Range>, from: nat, end: nat, x: nat) returns (k: nat)
    requires Tile(ranges, from, end) && from <= x < end
    ensures k < |ranges| && Has(ranges[k], x) && forall j :: 0 <= j < |ranges| && Has(ranges[j], x) ==> j == k
  {
    TileBounds(ranges[1..], ranges[0].end, end);
    assert forall j :: 1 <= j < |ranges| ==> ranges[j] == ranges[1..][j - 1];
    if x < ranges[0].end {
      k := 0;
    } else {
      k := OneTile(ranges[1..], ranges[0].end, end, x);
      k := k + 1;
    }
  }

  /** The spans of a unit tile it, whatever files it touches. */
  lemma {:induction false} SpansTile(files: seq<FileInfo>, number: nat, start: nat, end: nat, from: nat, total: nat)
    requires Tiles(files, from, total) && start < end <= total
    ensures from < end ==> Tile(SpanRanges(SpansIn(files, number, start, end)), if start > from then start else from, end)
    ensures from >= end ==> SpansIn(files, number, start, end) == []
    decreases |files|
  {
    if files != [] {
      SpansTile(files[1..], number + 1, start, end, files[0].end, total);
      var rest := SpansIn(files[1..], number + 1, start, end);
      if Overlap(start, end, files[0].start, files[0].end) {
        assert ([SpanOf(files[0], number, start, end)] + rest)[1..] == rest;
      } else {
        assert [] + rest == rest;
      }
    }
  }

  /** A span lies in the file that it names and lists exactly the hunks that the unit overlaps. */
  ghost predicate SpanFits(files: seq<FileInfo>, number: nat, s: Span, start: nat, end: nat) {
    && number <= s.file < number + |files|
    && files[s.file - number].start <= s.start < s.end <= files[s.file - number].end
    && (forall n: nat :: n in s.hunks <==> HunkOverlaps(files[s.file - number].hunks, n, start, end))
  }

  ghost predicate HunkOverlaps(hunks: seq<HunkInfo>, n: nat, start: nat, end: nat) {
    n < |hunks| && hunks[n].start < end && start < hunks[n].end
  }

  lemma {:induction false} HunksInMeans(hunks: seq<HunkInfo>, number: nat, start: nat, end: nat, n: nat)
    ensures n in HunksIn(hunks, number, start, end) <==> n >= number && HunkOverlaps(hunks, n - number, start, end)
  {
    if hunks != [] {
      HunksInMeans(hunks[1..], number + 1, start, end, n);
      assert n > number && n - number < |hunks| ==> hunks[n - number] == hunks[1..][n - number - 1];
    }
  }

  lemma SpanOfFits(files: seq<FileInfo>, number: nat, start: nat, end: nat)
    requires files != [] && files[0].start < files[0].end && start < end
    requires Overlap(start, end, files[0].start, files[0].end)
    ensures SpanFits(files, number, SpanOf(files[0], number, start, end), start, end)
  {
    forall n: nat ensures n in HunksIn(files[0].hunks, 0, start, end) <==> HunkOverlaps(files[0].hunks, n, start, end) {
      HunksInMeans(files[0].hunks, 0, start, end, n);
    }
  }

  lemma SpanFitsLater(files: seq<FileInfo>, number: nat, s: Span, start: nat, end: nat)
    requires files != [] && SpanFits(files[1..], number + 1, s, start, end)
    ensures SpanFits(files, number, s, start, end)
  {
    assert files[1..][s.file - number - 1] == files[s.file - number];
  }

  lemma {:induction false} SpansFit(files: seq<FileInfo>, number: nat, start: nat, end: nat, from: nat, total: nat)
    requires Tiles(files, from, total) && start < end
    ensures forall k :: 0 <= k < |SpansIn(files, number, start, end)| ==>
      SpanFits(files, number, SpansIn(files, number, start, end)[k], start, end)
    decreases |files|
  {
    hide SpanFits, SpanOf;
    if files != [] {
      SpansFit(files[1..], number + 1, start, end, files[0].end, total);
      var rest := SpansIn(files[1..], number + 1, start, end);
      forall k | 0 <= k < |rest| ensures SpanFits(files, number, rest[k], start, end) {
        SpanFitsLater(files, number, rest[k], start, end);
      }
      if Overlap(start, end, files[0].start, files[0].end) {
        SpanOfFits(files, number, start, end);
      }
    }
  }

  lemma {:induction false} UnitsTile(files: seq<FileInfo>, chunks: seq<Bytes>, number: nat, start: nat)
    requires forall k :: 0 <= k < |chunks| ==> chunks[k] != []
    ensures Tile(UnitRanges(UnitsOf(files, chunks, number, start)), start, start + |Concat(chunks)|)
    decreases |chunks|
  {
    hide SpansIn;
    if chunks != [] {
      UnitsTile(files, chunks[1..], number + 1, start + |chunks[0]|);
      var u := UnitsOf(files, chunks, number, start);
      assert u[1..] == UnitsOf(files, chunks[1..], number + 1, start + |chunks[0]|);
    }
  }

  /** The fields of unit `k`. */
  ghost predicate UnitFits(files: seq<FileInfo>, chunks: seq<Bytes>, u: Unit, k: nat, number: nat, start: nat) {
    && k < |chunks| && u.ordinal == number + k
    && u.start == start + |Concat(chunks[..k])| && u.end == u.start + |chunks[k]| && u.bytes == |chunks[k]|
    && u.sha == Sha(chunks[k]) && u.spans == SpansIn(files, 0, u.start, u.end)
  }

  lemma {:induction false} UnitAtFits(files: seq<FileInfo>, chunks: seq<Bytes>, number: nat, start: nat, k: nat)
    requires k < |chunks|
    ensures |UnitsOf(files, chunks, number, start)| == |chunks|
    ensures UnitFits(files, chunks, UnitsOf(files, chunks, number, start)[k], k, number, start)
    decreases |chunks|
  {
    hide SpansIn;
    var u := UnitsOf(files, chunks, number, start);
    var next := start + |chunks[0]|;
    if |chunks| > 1 {
      UnitAtFits(files, chunks[1..], number + 1, next, if k == 0 then 0 else k - 1);
    }
    if k > 0 {
      assert u[k] == UnitsOf(files, chunks[1..], number + 1, next)[k - 1];
      assert chunks[..k][1..] == chunks[1..][..k - 1] && chunks[..k][0] == chunks[0];
    } else {
      assert chunks[..0] == [];
    }
  }

  lemma {:induction false} CuttingConcat(payload: Bytes, ends: seq<nat>, chunks: seq<Bytes>, k: nat)
    requires Cutting(payload, ends, chunks) && k <= |ends| && From(ends, k) <= |payload|
    ensures Concat(chunks[..k]) == payload[..From(ends, k)]
    decreases k
  {
    if k == 0 {
      assert chunks[..0] == [];
    } else {
      assert UnitAt(payload, ends, chunks, k - 1);
      CuttingConcat(payload, ends, chunks, k - 1);
      ConcatSnoc(chunks, k - 1);
    }
  }

  /** The planned units are the payload, each one within the limit and not empty. */
  lemma CutWhole(payload: Bytes, files: seq<FileInfo>, ranges: seq<Range>, maxUnits: nat, chunks: seq<Bytes>,
                 ends: seq<nat>)
    requires Cut(payload, files, ranges, maxUnits, chunks, ends)
    ensures |chunks| <= maxUnits && Concat(chunks) == payload
    ensures forall k :: 0 <= k < |chunks| ==> 0 < |chunks[k]| <= MAX_UNIT_BYTES
  {
    hide Boundaries, Legal, Chosen;
    CuttingConcat(payload, ends, chunks, |ends|);
    assert chunks[..|ends|] == chunks && payload[..|payload|] == payload;
    forall k | 0 <= k < |chunks| ensures 0 < |chunks[k]| <= MAX_UNIT_BYTES {
      assert UnitAt(payload, ends, chunks, k);
      assert ChoiceAt(payload, Boundaries(files, ranges), ranges, MAX_UNIT_BYTES, maxUnits, ends, k);
    }
  }

  /**
   Coverage.  The units are the payload; they tile it; the spans of each unit tile the unit,
   in file order, and name the right files and hunks.
   */
  ghost predicate Covers(payload: Bytes, m: Manifest, chunks: seq<Bytes>) {
    && Concat(chunks) == payload && |m.units| == |chunks|
    && Tile(UnitRanges(m.units), 0, |payload|)
    && (forall k :: 0 <= k < |m.units| ==> UnitCovers(m.files, m.units[k], k, chunks))
  }

  ghost predicate UnitCovers(files: seq<FileInfo>, u: Unit, k: nat, chunks: seq<Bytes>) {
    && k < |chunks| && u.ordinal == k && u.bytes == u.end - u.start == |chunks[k]| && u.sha == Sha(chunks[k])
    && 0 < u.bytes <= MAX_UNIT_BYTES
    && Tile(SpanRanges(u.spans), u.start, u.end)
    && (forall n :: 0 <= n < |u.spans| ==> SpanFits(files, 0, u.spans[n], u.start, u.end))
  }

  lemma PlanCovers(payload: Bytes, binding: Binding, prompt: Bytes, version: Bytes, limits: Limits,
                   m: Manifest, chunks: seq<Bytes>)
    requires IsPlan(payload, binding, prompt, version, limits, m, chunks)
    ensures Covers(payload, m, chunks) && |chunks| <= limits.maxUnits
  {
    hide ValidBinding, ValidPrompt, Inventoried, AllRanges, Distinct, Cut, FileExact, DistinctPaths, SpanFits;
    hide SpansIn, Tile, Lines, AllLines, UnitsOf;
    var ends :| Cut(payload, m.files, AllRanges(m.files, limits.groups).value, limits.maxUnits, chunks, ends);
    CutWhole(payload, m.files, AllRanges(m.files, limits.groups).value, limits.maxUnits, chunks, ends);
    AcceptedIsExact(payload);
    UnitsTile(m.files, chunks, 0, 0);
    ChunksNonempty(payload, chunks);
    forall k | 0 <= k < |chunks|
      ensures |m.units| == |chunks| && UnitCovers(m.files, m.units[k], k, chunks)
    {
      UnitAtFits(m.files, chunks, 0, 0, k);
      OneUnitCovers(payload, m.files, chunks, m.units[k], k);
    }
  }

  lemma ChunksNonempty(payload: Bytes, chunks: seq<Bytes>)
    requires Concat(chunks) == payload && payload != []
    ensures chunks != []
  {
  }

  lemma OneUnitCovers(payload: Bytes, files: seq<FileInfo>, chunks: seq<Bytes>, u: Unit, k: nat)
    requires UnitFits(files, chunks, u, k, 0, 0) && Concat(chunks) == payload && 0 < |chunks[k]| <= MAX_UNIT_BYTES
    requires Tiles(files, 0, |payload|)
    ensures UnitCovers(files, u, k, chunks)
  {
    hide SpanFits;
    ConcatSplit(chunks, k);
    SpansTile(files, 0, u.start, u.end, 0, |payload|);
    SpansFit(files, 0, u.start, u.end, 0, |payload|);
  }

  lemma {:induction false} RangesAt(units: seq<Unit>, spans: seq<Span>, k: nat)
    ensures |UnitRanges(units)| == |units| && |SpanRanges(spans)| == |spans|
    ensures k < |units| ==> UnitRanges(units)[k] == Range(units[k].start, units[k].end)
    ensures k < |spans| ==> SpanRanges(spans)[k] == Range(spans[k].start, spans[k].end)
    decreases |units| + |spans|
  {
    if units != [] {
      RangesAt(units[1..], [], if k > 0 then k - 1 else 0);
    }
    if spans != [] {
      RangesAt([], spans[1..], if k > 0 then k - 1 else 0);
    }
  }

  ghost predicate SpanHas(m: Manifest, u: nat, s: nat, x: nat) {
    u < |m.units| && s < |m.units[u].spans| && m.units[u].spans[s].start <= x < m.units[u].spans[s].end
  }

  /** Every byte of the payload lies in exactly one span of one unit. */
  lemma EveryByteOnce(payload: Bytes, m: Manifest, chunks: seq<Bytes>, x: nat) returns (u: nat, s: nat)
    requires Covers(payload, m, chunks) && x < |payload|
    ensures SpanHas(m, u, s, x)
    ensures forall u': nat, s': nat :: SpanHas(m, u', s', x) ==> u' == u && s' == s
  {
    hide SpanFits, Tile;
    u := OneTile(UnitRanges(m.units), 0, |payload|, x);
    RangesAt(m.units, [], u);
    assert UnitCovers(m.files, m.units[u], u, chunks);
    s := OneTile(SpanRanges(m.units[u].spans), m.units[u].start, m.units[u].end, x);
    RangesAt([], m.units[u].spans, s);
    forall u': nat, s': nat | SpanHas(m, u', s', x) ensures u' == u && s' == s {
      RangesAt(m.units, [], u');
      assert UnitCovers(m.files, m.units[u'], u', chunks);
      RangesAt([], m.units[u'].spans, s');
      TileBounds(SpanRanges(m.units[u'].spans), m.units[u'].start, m.units[u'].end);
      assert Has(UnitRanges(m.units)[u'], x);
      assert Has(SpanRanges(m.units[u'].spans)[s'], x);
    }
  }

  /** No unit ends inside a semantic group, and a group's range holds all its files. */
  lemma GroupsWhole(payload: Bytes, binding: Binding, prompt: Bytes, version: Bytes, limits: Limits,
                    m: Manifest, chunks: seq<Bytes>, k: nat)
    requires IsPlan(payload, binding, prompt, version, limits, m, chunks) && k < |m.units|
    ensures !Inside(AllRanges(m.files, limits.groups).value, m.units[k].end)
  {
    hide ValidBinding, ValidPrompt, Inventoried, AllRanges, Distinct, SpansIn, UnitsOf, Boundaries, Chosen;
    var ranges := AllRanges(m.files, limits.groups).value;
    var ends :| Cut(payload, m.files, ranges, limits.maxUnits, chunks, ends);
    PlanCovers(payload, binding, prompt, version, limits, m, chunks);
    UnitAtFits(m.files, chunks, 0, 0, k);
    assert ChoiceAt(payload, Boundaries(m.files, ranges), ranges, MAX_UNIT_BYTES, limits.maxUnits, ends, k);
    assert UnitAt(payload, ends, chunks, k);
    CuttingConcat(payload, ends, chunks, k);
  }

  lemma {:induction false} GroupHolds(files: seq<FileInfo>, group: seq<Bytes>, k: nat)
    requires group != [] && GroupRange(files, group).Ok? && k < |group|
    ensures FileAt(files, group[k]).Some?
    ensures var f, r := FileAt(files, group[k]).value, GroupRange(files, group).value; r.start <= f.start && f.end <= r.end
  {
    if |group| > 1 && k > 0 {
      GroupHolds(files, group[1..], k - 1);
    }
  }
}
