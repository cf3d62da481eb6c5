/**
 Where the units of a plan end: the preferences of `plan` in scripts/bounded_review.py, said of
 the manifest's files, their hunks and the requested groups.
 */
module CoverageEnds {
  import opened Common
  import opened Utf8
  import opened DiffGrammar
  import opened Partition
  import opened Coverage

  ghost predicate FileEnd(files: seq<FileInfo>, c: nat) {
    exists f :: 0 <= f < |files| && files[f].end == c
  }

  ghost predicate HunkOf(f: FileInfo, c: nat) {
    exists h :: 0 <= h < |f.hunks| && f.hunks[h].end == c
  }

  /** The end of a hunk of a file that does not fit a unit. */
  ghost predicate LongFileHunk(files: seq<FileInfo>, c: nat) {
    exists f :: 0 <= f < |files| && files[f].end - files[f].start > MAX_UNIT_BYTES && HunkOf(files[f], c)
  }

  ghost predicate Member(files: seq<FileInfo>, group: seq<Bytes>, f: nat) {
    f < |files| && files[f].path in group
  }

  /** The first of a group's files starts at `c`. */
  ghost predicate GroupStart(files: seq<FileInfo>, group: seq<Bytes>, c: nat) {
    && (exists f: nat :: Member(files, group, f) && files[f].start == c)
    && (forall f: nat :: Member(files, group, f) ==> c <= files[f].start)
  }

  /** The last of a group's files ends at `c`. */
  ghost predicate GroupEnd(files: seq<FileInfo>, group: seq<Bytes>, c: nat) {
    && (exists f: nat :: Member(files, group, f) && files[f].end == c)
    && (forall f: nat :: Member(files, group, f) ==> files[f].end <= c)
  }

  ghost predicate GroupEdge(files: seq<FileInfo>, groups: seq<seq<Bytes>>, c: nat) {
    exists g :: 0 <= g < |groups| && (GroupStart(files, groups[g], c) || GroupEnd(files, groups[g], c))
  }

  ghost predicate Spans(files: seq<FileInfo>, group: seq<Bytes>, a: nat, b: nat) {
    GroupStart(files, group, a) && GroupEnd(files, group, b)
  }

  ghost predicate InGroup(files: seq<FileInfo>, groups: seq<seq<Bytes>>, c: nat) {
    exists g, a: nat, b: nat :: 0 <= g < |groups| && Spans(files, groups[g], a, b) && a < c < b
  }

  /** Where a unit should end. */
  ghost predicate Wanted(m: Manifest, c: nat) {
    && (FileEnd(m.files, c) || LongFileHunk(m.files, c) || GroupEdge(m.files, m.limits.groups, c))
    && !InGroup(m.files, m.limits.groups, c)
  }

  // ---------------------------------------------------------------- The ranges mean that

  lemma {:induction false} FileAtIs(files: seq<FileInfo>, path: Bytes)
    requires DistinctPaths(files, {})
    ensures match FileAt(files, path)
            case None => forall f :: 0 <= f < |files| ==> files[f].path != path
            case Some(x) => exists f :: 0 <= f < |files| && files[f] == x && x.path == path
    ensures FileAt(files, path).Some? ==> forall f :: 0 <= f < |files| && files[f].path == path ==> files[f] == FileAt(files, path).value
  {
    if files != [] && files[0].path != path {
      FileAtIs(files[1..], path);
      if FileAt(files, path).Some? {
        var f :| 0 <= f < |files[1..]| && files[1..][f] == FileAt(files, path).value;
        assert files[f + 1] == FileAt(files, path).value;
      }
      assert forall f :: 1 <= f < |files| ==> files[f] == files[1..][f - 1];
    }
  }

  lemma {:induction false} RangeSpans(files: seq<FileInfo>, group: seq<Bytes>)
    requires DistinctPaths(files, {}) && group != [] && GroupRange(files, group).Ok?
    ensures Spans(files, group, GroupRange(files, group).value.start, GroupRange(files, group).value.end)
    decreases |group|
  {
    FileAtIs(files, group[0]);
    var x := FileAt(files, group[0]).value;
    var f :| 0 <= f < |files| && files[f] == x && x.path == group[0];
    assert Member(files, group, f);
    if |group| > 1 {
      RangeSpans(files, group[1..]);
      var r := GroupRange(files, group[1..]).value;
      var a: nat :| Member(files, group[1..], a) && files[a].start == r.start;
      var b: nat :| Member(files, group[1..], b) && files[b].end == r.end;
      assert Member(files, group, a) && Member(files, group, b);
      var all := GroupRange(files, group).value;
      assert forall p :: p in group <==> p == group[0] || p in group[1..];
      forall k: nat | Member(files, group, k) ensures all.start <= files[k].start && files[k].end <= all.end {
        if files[k].path != group[0] {
          assert Member(files, group[1..], k);
        }
      }
    }
  }

  lemma {:induction false} RangesSpan(files: seq<FileInfo>, groups: seq<seq<Bytes>>)
    requires DistinctPaths(files, {}) && AllRanges(files, groups).Ok?
    ensures var ranges := AllRanges(files, groups).value;
      |ranges| == |groups| && forall g :: 0 <= g < |groups| ==> Spans(files, groups[g], ranges[g].start, ranges[g].end)
  {
    hide GroupRange, DistinctPaths, Spans;
    if groups != [] {
      RangesSpan(files, groups[1..]);
      RangeSpans(files, groups[0]);
    }
  }

  /** A group spans one range only. */
  lemma SpansOnce(files: seq<FileInfo>, group: seq<Bytes>, a: nat, b: nat, a': nat, b': nat)
    requires Spans(files, group, a, b)
    ensures GroupStart(files, group, a') <==> a' == a
    ensures GroupEnd(files, group, b') <==> b' == b
  {
  }

  lemma InsideIs(files: seq<FileInfo>, groups: seq<seq<Bytes>>, c: nat)
    requires DistinctPaths(files, {}) && AllRanges(files, groups).Ok?
    ensures var ranges := AllRanges(files, groups).value;
      && (Inside(ranges, c) <==> InGroup(files, groups, c))
      && (c in Endpoints(ranges) <==> GroupEdge(files, groups, c))
  {
    hide AllRanges, Spans, GroupStart, GroupEnd, DistinctPaths, Endpoints;
    var ranges := AllRanges(files, groups).value;
    RangesSpan(files, groups);
    EndpointsMeans(ranges, c);
    forall g, a: nat, b: nat | 0 <= g < |groups|
      ensures Spans(files, groups[g], a, b) ==> a == ranges[g].start && b == ranges[g].end {
      SpansOnce(files, groups[g], ranges[g].start, ranges[g].end, a, b);
      SpansIs(files, groups[g], a, b);
    }
    forall g | 0 <= g < |groups|
      ensures GroupStart(files, groups[g], c) <==> ranges[g].start == c
      ensures GroupEnd(files, groups[g], c) <==> ranges[g].end == c {
      SpansOnce(files, groups[g], ranges[g].start, ranges[g].end, c, c);
    }
    if Inside(ranges, c) {
      var g :| 0 <= g < |ranges| && ranges[g].start < c < ranges[g].end;
      assert Spans(files, groups[g], ranges[g].start, ranges[g].end);
    }
    if InGroup(files, groups, c) {
      var g, a: nat, b: nat :| 0 <= g < |groups| && Spans(files, groups[g], a, b) && a < c < b;
      assert ranges[g].start < c < ranges[g].end;
    }
  }

  lemma SpansIs(files: seq<FileInfo>, group: seq<Bytes>, a: nat, b: nat)
    ensures Spans(files, group, a, b) <==> GroupStart(files, group, a) && GroupEnd(files, group, b)
  {
  }

  // ---------------------------------------------------------------- So do the boundaries

  lemma {:induction false} HunkEndsMean(hunks: seq<HunkInfo>, c: nat)
    ensures c in HunkEnds(hunks) <==> exists h :: 0 <= h < |hunks| && hunks[h].end == c
  {
    if hunks != [] {
      HunkEndsMean(hunks[1..], c);
      assert forall h :: 1 <= h < |hunks| ==> hunks[h] == hunks[1..][h - 1];
    }
  }

  lemma {:induction false} FileEndsMean(files: seq<FileInfo>, c: nat)
    ensures c in FileEnds(files) <==> FileEnd(files, c)
    ensures c in LargeHunkEnds(files) <==> LongFileHunk(files, c)
  {
    hide HunkOf, HunkEnds;
    if files != [] {
      FileEndsMean(files[1..], c);
      HunkEndsMean(files[0].hunks, c);
      HunkOfIs(files[0], c);
      assert forall f :: 1 <= f < |files| ==> files[f] == files[1..][f - 1];
      if FileEnd(files[1..], c) {
        var f :| 0 <= f < |files[1..]| && files[1..][f].end == c;
        assert files[f + 1].end == c;
      }
      if LongFileHunk(files[1..], c) {
        var f :| 0 <= f < |files[1..]| && files[1..][f].end - files[1..][f].start > MAX_UNIT_BYTES && HunkOf(files[1..][f], c);
        assert files[f + 1].end - files[f + 1].start > MAX_UNIT_BYTES && HunkOf(files[f + 1], c);
      }
    }
  }

  lemma HunkOfIs(f: FileInfo, c: nat)
    ensures HunkOf(f, c) <==> exists h :: 0 <= h < |f.hunks| && f.hunks[h].end == c
  {
  }

  // ---------------------------------------------------------------- Where the units end

  /** A wanted position in reach of `start`, from which `remaining` units can hold the rest. */
  ghost predicate Serves(payload: Bytes, m: Manifest, start: nat, remaining: nat, c: nat)
    requires AllRanges(m.files, m.limits.groups).Ok?
  {
    && Wanted(m, c) && start < c <= start + MAX_UNIT_BYTES
    && Feasible(payload, AllRanges(m.files, m.limits.groups).value, MAX_UNIT_BYTES, c, remaining)
  }

  ghost predicate SomeServes(payload: Bytes, m: Manifest, start: nat, remaining: nat)
    requires AllRanges(m.files, m.limits.groups).Ok?
  {
    exists c: nat :: Serves(payload, m, start, remaining, c)
  }

  /** A unit `[start, end)` ends at the farthest wanted position in reach, if one in reach serves. */
  ghost predicate EndsWell(payload: Bytes, m: Manifest, start: nat, remaining: nat, end: nat)
    requires AllRanges(m.files, m.limits.groups).Ok?
  {
    SomeServes(payload, m, start, remaining) ==>
      && Serves(payload, m, start, remaining, end)
      && forall c: nat :: Wanted(m, c) && c <= start + MAX_UNIT_BYTES ==> c <= end
  }

  /** The rule of the partition, for one unit of a plan. */
  lemma UnitChosen(payload: Bytes, binding: Binding, prompt: Bytes, version: Bytes, limits: Limits,
                   m: Manifest, chunks: seq<Bytes>, k: nat)
    requires IsPlan(payload, binding, prompt, version, limits, m, chunks) && k < |m.units|
    ensures k < limits.maxUnits && AllRanges(m.files, limits.groups).Ok?
    ensures var ranges := AllRanges(m.files, limits.groups).value;
      Chosen(payload, Boundaries(m.files, ranges), ranges, MAX_UNIT_BYTES, m.units[k].start, limits.maxUnits - k - 1, m.units[k].end)
  {
    hide ValidBinding, ValidPrompt, Inventoried, AllRanges, Distinct, SpansIn, UnitsOf, Boundaries, Chosen, Covers, Legal;
    var ranges := AllRanges(m.files, limits.groups).value;
    var ends :| Cut(payload, m.files, ranges, limits.maxUnits, chunks, ends);
    PlanCovers(payload, binding, prompt, version, limits, m, chunks);
    PlanCount(payload, m, chunks);
    UnitAtFits(m.files, chunks, 0, 0, k);
    assert ChoiceAt(payload, Boundaries(m.files, ranges), ranges, MAX_UNIT_BYTES, limits.maxUnits, ends, k);
    assert UnitAt(payload, ends, chunks, k);
    CuttingConcat(payload, ends, chunks, k);
  }

  lemma PlanCount(payload: Bytes, m: Manifest, chunks: seq<Bytes>)
    requires Covers(payload, m, chunks)
    ensures |m.units| == |chunks|
  {
  }

  /** What the inventory of a plan is. */
  lemma PlanFiles(payload: Bytes, binding: Binding, prompt: Bytes, version: Bytes, limits: Limits,
                  m: Manifest, chunks: seq<Bytes>)
    requires IsPlan(payload, binding, prompt, version, limits, m, chunks)
    ensures m.limits == limits && DistinctPaths(m.files, {}) && m.files != [] && Tiles(m.files, 0, |payload|)
    ensures forall f :: 0 <= f < |m.files| ==> FileExact(Lines(payload), m.files[f])
  {
    hide ValidBinding, ValidPrompt, Inventoried, AllRanges, Distinct, UnitsOf, FileExact, Tiles, DistinctPaths, Cut, Lines;
    AcceptedIsExact(payload);
  }

  /** A preferred cut is a wanted position. */
  lemma PreferredIsWanted(payload: Bytes, m: Manifest, c: nat)
    requires DistinctPaths(m.files, {}) && AllRanges(m.files, m.limits.groups).Ok?
    requires m.files != [] && Tiles(m.files, 0, |payload|)
    ensures var ranges := AllRanges(m.files, m.limits.groups).value;
      Preferred(payload, Boundaries(m.files, ranges), ranges, c) <==> Wanted(m, c)
  {
    hide AllRanges, DistinctPaths, Inside, InGroup, GroupEdge, FileEnds, LargeHunkEnds, Endpoints, FileEnd, LongFileHunk;
    FileEndsMean(m.files, c);
    InsideIs(m.files, m.limits.groups, c);
    LastFileEnds(m.files, 0, |payload|);
  }

  lemma {:induction false} LastFileEnds(files: seq<FileInfo>, from: nat, end: nat)
    requires files != [] && Tiles(files, from, end)
    ensures FileEnd(files, end)
    decreases |files|
  {
    if |files| > 1 {
      LastFileEnds(files[1..], files[0].end, end);
      var f :| 0 <= f < |files[1..]| && files[1..][f].end == end;
      assert files[f + 1].end == end;
    }
  }

  /**
   Each unit ends at the farthest wanted position in reach whenever one in reach leaves a rest
   that the remaining units can hold: a file's end, the end of a hunk of a file that does not
   fit a unit, or a group's edge, and never inside a group.
   */
  lemma PlanEnds(payload: Bytes, binding: Binding, prompt: Bytes, version: Bytes, limits: Limits,
                 m: Manifest, chunks: seq<Bytes>, k: nat)
    requires IsPlan(payload, binding, prompt, version, limits, m, chunks) && k < |m.units|
    ensures k < limits.maxUnits && m.limits == limits && AllRanges(m.files, limits.groups).Ok?
    ensures EndsWell(payload, m, m.units[k].start, limits.maxUnits - k - 1, m.units[k].end)
  {
    hide *;
    UnitChosen(payload, binding, prompt, version, limits, m, chunks, k);
    PlanFiles(payload, binding, prompt, version, limits, m, chunks);
    ChosenEndsWell(payload, m, m.units[k].start, limits.maxUnits - k - 1, m.units[k].end);
  }

  lemma ChosenEndsWell(payload: Bytes, m: Manifest, start: nat, remaining: nat, end: nat)
    requires DistinctPaths(m.files, {}) && AllRanges(m.files, m.limits.groups).Ok?
    requires m.files != [] && Tiles(m.files, 0, |payload|)
    requires var ranges := AllRanges(m.files, m.limits.groups).value;
      Chosen(payload, Boundaries(m.files, ranges), ranges, MAX_UNIT_BYTES, start, remaining, end)
    ensures EndsWell(payload, m, start, remaining, end)
  {
    hide AllRanges, Boundaries, Preferred, Wanted, DistinctPaths, Tiles, Chosen, Usable, Serves;
    var ranges := AllRanges(m.files, m.limits.groups).value;
    forall c: nat
      ensures Preferred(payload, Boundaries(m.files, ranges), ranges, c) <==> Wanted(m, c)
      ensures Usable(payload, Boundaries(m.files, ranges), ranges, MAX_UNIT_BYTES, start, remaining, c)
         <==> Serves(payload, m, start, remaining, c) {
      PreferredIsWanted(payload, m, c);
      UsableServes(payload, m, start, remaining, c);
    }
    if c: nat :| Serves(payload, m, start, remaining, c) {
      FarthestChosen(payload, Boundaries(m.files, ranges), ranges, start, remaining, end, c);
    }
  }

  lemma UsableServes(payload: Bytes, m: Manifest, start: nat, remaining: nat, c: nat)
    requires AllRanges(m.files, m.limits.groups).Ok?
    requires var ranges := AllRanges(m.files, m.limits.groups).value;
      Preferred(payload, Boundaries(m.files, ranges), ranges, c) <==> Wanted(m, c)
    ensures var ranges := AllRanges(m.files, m.limits.groups).value;
      Usable(payload, Boundaries(m.files, ranges), ranges, MAX_UNIT_BYTES, start, remaining, c)
      <==> Serves(payload, m, start, remaining, c)
  {
    hide AllRanges, Boundaries, Preferred, Wanted, Feasible;
  }

  lemma FarthestChosen(payload: Bytes, boundaries: seq<nat>, groups: seq<Range>, start: nat, remaining: nat, end: nat, c: nat)
    requires Chosen(payload, boundaries, groups, MAX_UNIT_BYTES, start, remaining, end)
    requires Usable(payload, boundaries, groups, MAX_UNIT_BYTES, start, remaining, c)
    ensures Usable(payload, boundaries, groups, MAX_UNIT_BYTES, start, remaining, end)
    ensures forall d: nat :: Preferred(payload, boundaries, groups, d) && d <= start + MAX_UNIT_BYTES ==> d <= end
  {
    hide Preferred, Feasible, IsFarthest, CutsNewline;
  }

  // ---------------------------------------------------------------- Ends inside small files

  lemma {:induction false} HunksWithin(hunks: seq<HunkInfo>, from: nat, end: nat, o: int, n: int, h: nat)
    requires HunksOrdered(hunks, from, end, o, n) && h < |hunks|
    ensures from < hunks[h].end <= end
    decreases |hunks|
  {
    if h > 0 {
      HunksWithin(hunks[1..], hunks[0].end, end, hunks[0].header.oldStart + hunks[0].header.oldCount,
                  hunks[0].header.newStart + hunks[0].header.newCount, h - 1);
    } else {
      HunksFrom(hunks[1..], hunks[0].end, end, hunks[0].header.oldStart + hunks[0].header.oldCount,
                hunks[0].header.newStart + hunks[0].header.newCount);
    }
  }

  lemma {:induction false} HunksFrom(hunks: seq<HunkInfo>, from: nat, end: nat, o: int, n: int)
    requires HunksOrdered(hunks, from, end, o, n)
    ensures from <= end
    decreases |hunks|
  {
    if hunks != [] {
      HunksFrom(hunks[1..], hunks[0].end, end, hunks[0].header.oldStart + hunks[0].header.oldCount,
                hunks[0].header.newStart + hunks[0].header.newCount);
    }
  }

  lemma {:induction false} FilesApart(files: seq<FileInfo>, from: nat, end: nat, f: nat, g: nat)
    requires Tiles(files, from, end) && f < g < |files|
    ensures from <= files[f].start && files[f].end <= files[g].start && files[g].end <= end
    decreases |files|
  {
    FileWithin(files[1..], files[0].end, end, g - 1);
    if f > 0 {
      FilesApart(files[1..], files[0].end, end, f - 1, g - 1);
    }
  }

  lemma {:induction false} FileWithin(files: seq<FileInfo>, from: nat, end: nat, f: nat)
    requires Tiles(files, from, end) && f < |files|
    ensures from <= files[f].start < files[f].end <= end
    decreases |files|
  {
    TilesForward(files[1..], files[0].end, end);
    if f > 0 {
      FileWithin(files[1..], files[0].end, end, f - 1);
    }
  }

  lemma {:induction false} TilesForward(files: seq<FileInfo>, from: nat, end: nat)
    requires Tiles(files, from, end)
    ensures from <= end
    decreases |files|
  {
    if files != [] {
      TilesForward(files[1..], files[0].end, end);
    }
  }

  /**
   So a unit that ends inside a file that would fit a unit ends at a group's edge, or no wanted
   position served.
   */
  lemma EndInSmallFile(payload: Bytes, binding: Binding, prompt: Bytes, version: Bytes, limits: Limits,
                       m: Manifest, chunks: seq<Bytes>, k: nat, f: nat)
    requires IsPlan(payload, binding, prompt, version, limits, m, chunks) && k < |m.units| && f < |m.files|
    requires m.files[f].start < m.units[k].end < m.files[f].end && m.files[f].end - m.files[f].start <= MAX_UNIT_BYTES
    ensures k < limits.maxUnits && m.limits == limits && AllRanges(m.files, limits.groups).Ok?
    ensures GroupEdge(m.files, limits.groups, m.units[k].end)
      || !SomeServes(payload, m, m.units[k].start, limits.maxUnits - k - 1)
  {
    PlanEnds(payload, binding, prompt, version, limits, m, chunks, k);
    PlanFiles(payload, binding, prompt, version, limits, m, chunks);
    hide IsPlan, AllRanges, GroupEdge, InGroup, Feasible, Tiles, DistinctPaths, FileExact, FileEnd, LongFileHunk, SomeServes;
    NoFileEnd(payload, m.files, f, m.units[k].end);
    if !GroupEdge(m.files, limits.groups, m.units[k].end) {
      assert !Serves(payload, m, m.units[k].start, limits.maxUnits - k - 1, m.units[k].end);
    }
  }

  lemma NoFileEnd(payload: Bytes, files: seq<FileInfo>, f: nat, c: nat)
    requires Tiles(files, 0, |payload|) && (forall g :: 0 <= g < |files| ==> FileExact(Lines(payload), files[g]))
    requires f < |files| && files[f].start < c < files[f].end && files[f].end - files[f].start <= MAX_UNIT_BYTES
    ensures !FileEnd(files, c) && !LongFileHunk(files, c)
  {
    hide FileExact, Tiles, HunkOf, Lines;
    forall g: nat | g < |files|
      ensures files[g].end != c && (files[g].end - files[g].start > MAX_UNIT_BYTES ==> !HunkOf(files[g], c))
    {
      FileWithin(files, 0, |payload|, g);
      if g != f {
        FilesApart(files, 0, |payload|, if f < g then f else g, if f < g then g else f);
        HunkElsewhere(Lines(payload), files[g], c);
      }
    }
  }

  lemma HunkElsewhere(lines: seq<Bytes>, f: FileInfo, c: nat)
    requires FileExact(lines, f) && (c <= f.start || f.end < c)
    ensures !HunkOf(f, c)
  {
    hide AllExact, EmptyChange;
    forall h: nat | h < |f.hunks| ensures f.hunks[h].end != c {
      HunksWithin(f.hunks, f.start, f.end, -1, -1, h);
    }
  }
}
