/** `inventory` of scripts/bounded_review.py, with its loops, proved against `Inventoried`. */
module DiffInventory {
  import opened Common
  import opened Utf8
  import opened DiffGrammar

  /** `starts` holds the offset of every line, and of the end. */
  ghost predicate Starts(lines: seq<Bytes>, starts: seq<nat>) {
    |starts| == |lines| + 1 && forall k :: 0 <= k <= |lines| ==> starts[k] == Offset(lines, k)
  }

  lemma NextLine(payload: Bytes, from: nat, to: nat)
    requires from <= to < |payload| && payload[to] == LF && LF !in payload[from..to]
    ensures Lines(payload[from..]) == [payload[from..to + 1]] + Lines(payload[to + 1..])
  {
    var rest, n := payload[from..], to - from;
    assert rest[..n] == payload[from..to];
    FirstIs(rest, LF, n);
    assert rest[..n + 1] == payload[from..to + 1] && rest[n + 1..] == payload[to + 1..];
  }

  lemma NoLine(s: Bytes)
    requires LF !in s
    ensures Lines(s) == []
  {
  }

  method SplitLines(payload: Bytes) returns (lines: seq<Bytes>)
    ensures lines == Lines(payload)
  {
    hide Lines;
    lines := [];
    var from, to := 0, 0;
    assert payload[0..] == payload && lines + Lines(payload) == Lines(payload);
    while to < |payload|
      invariant 0 <= from <= to <= |payload| && LF !in payload[from..to]
      invariant Lines(payload) == lines + Lines(payload[from..])
    {
      if payload[to] == LF {
        NextLine(payload, from, to);
        assert lines + ([payload[from..to + 1]] + Lines(payload[to + 1..]))
            == lines + [payload[from..to + 1]] + Lines(payload[to + 1..]);
        lines := lines + [payload[from..to + 1]];
        from := to + 1;
      }
      to := to + 1;
    }
    assert payload[from..] == payload[from..to];
    NoLine(payload[from..]);
  }

  method LineStarts(lines: seq<Bytes>) returns (starts: seq<nat>)
    ensures Starts(lines, starts)
  {
    starts := [];
    var offset := 0;
    for k := 0 to |lines|
      invariant offset == Offset(lines, k)
      invariant |starts| == k && forall j :: 0 <= j < k ==> starts[j] == Offset(lines, j)
    {
      starts := starts + [offset];
      offset := offset + |lines[k]|;
    }
    starts := starts + [offset];
  }

  method TakeBody(lines: seq<Bytes>, start: nat, oldCount: nat, newCount: nat) returns (r: Result<nat>)
    requires start <= |lines|
    ensures r == ParseBody(lines, start, oldCount, newCount)
  {
    var i, oldLeft, newLeft := start, oldCount, newCount;
    while oldLeft > 0 || newLeft > 0
      invariant 0 <= i <= |lines| && 0 <= oldLeft && 0 <= newLeft
      invariant ParseBody(lines, start, oldCount, newCount) == ParseBody(lines, i, oldLeft, newLeft)
      decreases oldLeft + newLeft
    {
      if i == |lines| {
        return Err;
      }
      var tag := Tag(lines[i]);
      if !IsTag(tag) {
        return Err;
      }
      if oldLeft - InOld(tag) < 0 || newLeft - InNew(tag) < 0 {
        return Err;
      }
      oldLeft := oldLeft - InOld(tag);
      newLeft := newLeft - InNew(tag);
      i := i + 1;
      if i < |lines| && lines[i] == NO_NEWLINE {
        i := i + 1;
      }
    }
    r := Ok(i);
  }

  ghost function After(hunks: seq<HunkInfo>, r: Result<(seq<HunkInfo>, nat)>): Result<(seq<HunkInfo>, nat)> {
    if r.Ok? then Ok((hunks + r.value.0, r.value.1)) else Err
  }

  method TakeHunks(lines: seq<Bytes>, starts: seq<nat>, start: nat) returns (r: Result<(seq<HunkInfo>, nat)>)
    requires start <= |lines| && Starts(lines, starts)
    ensures r == ParseHunks(lines, start, -1, -1)
  {
    hide ParseHeader, ParseBody;
    var i, previousOld, previousNew, hunks: seq<HunkInfo> := start, -1, -1, [];
    if ParseHunks(lines, start, -1, -1).Ok? {
      assert hunks + ParseHunks(lines, start, -1, -1).value.0 == ParseHunks(lines, start, -1, -1).value.0;
    }
    while i < |lines| && AT_AT <= lines[i]
      invariant start <= i <= |lines|
      invariant ParseHunks(lines, start, -1, -1) == After(hunks, ParseHunks(lines, i, previousOld, previousNew))
      decreases |lines| - i
    {
      var hunk := ParseHeader(lines[i]);
      if hunk.None? {
        return Err;
      }
      var h := hunk.value;
      if h.oldStart < previousOld || h.newStart < previousNew || h.oldCount + h.newCount == 0 {
        return Err;
      }
      var next := TakeBody(lines, i + 1, h.oldCount, h.newCount);
      if next.Err? {
        return Err;
      }
      ghost var before := hunks;
      hunks := hunks + [HunkInfo(starts[i], starts[next.value], h)];
      AfterOne(before, HunkInfo(starts[i], starts[next.value], h),
               ParseHunks(lines, next.value, h.oldStart + h.oldCount, h.newStart + h.newCount));
      previousOld, previousNew := h.oldStart + h.oldCount, h.newStart + h.newCount;
      i := next.value;
    }
    assert hunks + [] == hunks;
    r := Ok((hunks, i));
  }

  lemma AfterOne(hunks: seq<HunkInfo>, h: HunkInfo, r: Result<(seq<HunkInfo>, nat)>)
    ensures After(hunks + [h], r) == After(hunks, if r.Ok? then Ok(([h] + r.value.0, r.value.1)) else Err)
  {
    if r.Ok? {
      assert hunks + [h] + r.value.0 == hunks + ([h] + r.value.0);
    }
  }

  method TakeModes(lines: seq<Bytes>, start: nat) returns (r: Result<(Modes, nat)>)
    requires start <= |lines|
    ensures r == ParseModes(lines, start)
  {
    var i, oldMode, newMode, operation := start, None, None, Modify;
    var sawOld, sawNew, sawAdd, sawDelete := false, false, false, false;
    if i < |lines| && OLD_MODE <= lines[i] {
      sawOld, oldMode := true, ModeOf(Inner(lines[i], |OLD_MODE|));
      if oldMode.None? {
        return Err;
      }
      i := i + 1;
    }
    if i < |lines| && NEW_MODE <= lines[i] {
      sawNew, newMode := true, ModeOf(Inner(lines[i], |NEW_MODE|));
      if newMode.None? {
        return Err;
      }
      i := i + 1;
    }
    if i < |lines| && NEW_FILE <= lines[i] {
      sawAdd, newMode, operation := true, ModeOf(Inner(lines[i], |NEW_FILE|)), Add;
      if newMode.None? {
        return Err;
      }
      i := i + 1;
    }
    if i < |lines| && DELETED_FILE <= lines[i] {
      sawDelete, oldMode, operation := true, ModeOf(Inner(lines[i], |DELETED_FILE|)), Delete;
      if oldMode.None? {
        return Err;
      }
      i := i + 1;
    }
    if sawOld != sawNew || (sawOld && sawAdd) || (sawOld && sawDelete) || (sawAdd && sawDelete) {
      return Err;
    }
    if sawOld && oldMode == newMode {
      return Err;
    }
    r := Ok((Modes(oldMode, newMode, operation), i));
  }

  method TakeFile(lines: seq<Bytes>, starts: seq<nat>, start: nat) returns (r: Result<(FileInfo, nat)>)
    requires start < |lines| && Starts(lines, starts)
    ensures r == ParseFile(lines, start)
  {
    hide ParsePath, ParseModes, ParseBlobs, ParseHunks, MarkerFits;
    var path := ParsePath(lines[start]);
    if path.Err? {
      return Err;
    }
    var modes := TakeModes(lines, start + 1);
    if modes.Err? {
      return Err;
    }
    var blobs := ParseBlobs(lines, modes.value.1, modes.value.0);
    if blobs.Err? {
      return Err;
    }
    var i, hunks: seq<HunkInfo>, operation := modes.value.1 + 1, [], blobs.value.2.operation;
    if i < |lines| && MINUS <= lines[i] {
      var markers := ParseMarkers(lines, i, path.value, operation);
      if markers.Err? {
        return Err;
      }
      var found := TakeHunks(lines, starts, markers.value);
      if found.Err? || found.value.0 == [] {
        return Err;
      }
      hunks, i := found.value.0, found.value.1;
    } else if !EmptyChange(operation, blobs.value.0, blobs.value.1) {
      return Err;
    }
    if i < |lines| && !(DIFF_GIT <= lines[i]) {
      return Err;
    }
    r := Ok((FileInfo(path.value, operation, blobs.value.0, blobs.value.1, blobs.value.2.oldMode,
                      blobs.value.2.newMode, starts[start], starts[i], hunks), i));
  }

  ghost function Joined(files: seq<FileInfo>, r: Result<seq<FileInfo>>): Result<seq<FileInfo>> {
    if r.Ok? then Ok(files + r.value) else Err
  }

  /** `inventory(payload)` */
  method Inventory(payload: Bytes) returns (r: Result<seq<FileInfo>>)
    ensures r == Inventoried(payload)
  {
    hide ParseFile, Text;
    if !Text(payload) || !(0 < |payload| <= MAX_TOTAL_BYTES) || payload[|payload| - 1] != LF {
      return Err;
    }
    var lines := SplitLines(payload);
    var starts := LineStarts(lines);
    var files: seq<FileInfo>, i, seen := [], 0, {};
    if ParseFiles(lines, 0, {}).Ok? {
      assert files + ParseFiles(lines, 0, {}).value == ParseFiles(lines, 0, {}).value;
    }
    while i < |lines|
      invariant 0 <= i <= |lines|
      invariant Inventoried(payload) == Joined(files, ParseFiles(lines, i, seen))
      decreases |lines| - i
    {
      var f := TakeFile(lines, starts, i);
      // the source refuses a second record of a path before it reads the rest of the record
      if f.Err? || f.value.0.path in seen {
        return Err;
      }
      ghost var before, rest := files, ParseFiles(lines, f.value.1, seen + {f.value.0.path});
      files := files + [f.value.0];
      if rest.Ok? {
        assert files + rest.value == before + ([f.value.0] + rest.value);
      }
      i, seen := f.value.1, seen + {f.value.0.path};
    }
    assert files + [] == files;
    r := Ok(files);
  }
}
