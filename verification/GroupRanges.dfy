/**
 The semantic groups of scripts/bounded_review.py `plan`: the requested ranges are sorted
 and overlapping ones merged.  Merging changes neither which cuts are forbidden nor which
 boundaries are preferred, and a merged range that exceeds a unit means that no legal split
 exists at all.
 */
module GroupRanges {
  import opened Common
  import opened Utf8
  import opened Partition

  predicate Before(r: Range, s: Range) {
    r.start < s.start || (r.start == s.start && r.end <= s.end)
  }

  predicate Sorted(s: seq<Range>) {
    |s| < 2 || (Before(s[0], s[1]) && Sorted(s[1..]))
  }

  lemma {:induction false} SortedAt(s: seq<Range>, k: nat)
    requires Sorted(s) && k + 1 < |s|
    ensures Before(s[k], s[k + 1])
  {
    if k > 0 {
      SortedAt(s[1..], k - 1);
    }
  }

  function InsertRange(s: seq<Range>, x: Range): (r: seq<Range>)
    ensures Sorted(s) ==> Sorted(r)
    ensures r != [] && (r[0] == x || (s != [] && r[0] == s[0] && Before(s[0], x)))
  {
    if s == [] || Before(x, s[0]) then [x] + s
    else [s[0]] + InsertRange(s[1..], x)
  }

  lemma {:induction false} InsertKeeps(s: seq<Range>, x: Range)
    ensures multiset(InsertRange(s, x)) == multiset(s) + multiset{x}
  {
    if s == [] || Before(x, s[0]) {
    } else {
      InsertKeeps(s[1..], x);
      assert s == [s[0]] + s[1..];
    }
  }

  /** `sorted(ranges)` */
  method SortRanges(ranges: seq<Range>) returns (s: seq<Range>)
    ensures Sorted(s) && multiset(s) == multiset(ranges)
  {
    s := [];
    for k := 0 to |ranges|
      invariant Sorted(s) && multiset(s) == multiset(ranges[..k])
    {
      InsertKeeps(s, ranges[k]);
      s := InsertRange(s, ranges[k]);
      assert ranges[..k + 1] == ranges[..k] + [ranges[k]];
    }
    assert ranges[..|ranges|] == ranges;
  }

  ghost predicate Strict(r: Range, c: nat) {
    r.start < c < r.end
  }

  /** The same cuts are forbidden. */
  ghost predicate SameInside(a: seq<Range>, b: seq<Range>) {
    forall c: nat :: Inside(a, c) <==> Inside(b, c)
  }

  /** In order and apart, none empty. */
  ghost predicate Apart(s: seq<Range>) {
    && (forall g :: 0 <= g < |s| ==> s[g].start < s[g].end)
    && (forall g, h :: 0 <= g < h < |s| ==> s[g].end <= s[h].start)
  }

  ghost predicate Start(s: seq<Range>, x: nat) {
    exists k :: 0 <= k < |s| && s[k].start == x
  }

  ghost predicate End(s: seq<Range>, x: nat) {
    exists k :: 0 <= k < |s| && s[k].end == x
  }

  /** Every end of a merged range is an end of a requested one. */
  ghost predicate EndsFrom(merged: seq<Range>, s: seq<Range>) {
    forall g :: 0 <= g < |merged| ==> Start(s, merged[g].start) && End(s, merged[g].end)
  }

  /** What the merging loop keeps. */
  ghost predicate Merging(merged: seq<Range>, done: seq<Range>, unit: nat) {
    && Apart(merged) && SameInside(merged, done) && EndsFrom(merged, done) && Holds(merged, done)
    && (merged == [] <==> done == [])
    && (merged != [] ==> merged[|merged| - 1].start <= done[|done| - 1].start)
    && (forall g :: 0 <= g < |merged| ==> merged[g].end - merged[g].start <= unit)
  }

  /** A stretch without a legal cut, longer than a unit. */
  ghost predicate TooLong(groups: seq<Range>, unit: nat, a: nat, b: nat) {
    && a + unit < b && (forall c: nat :: a < c < b ==> Inside(groups, c))
    && (exists g :: 0 <= g < |groups| && b <= groups[g].end)
  }

  /** Every requested range is contained in a merged one. */
  ghost predicate Holds(merged: seq<Range>, s: seq<Range>) {
    forall k :: 0 <= k < |s| ==> Held(merged, s[k])
  }

  ghost predicate Held(merged: seq<Range>, r: Range) {
    exists g :: 0 <= g < |merged| && merged[g].start <= r.start && r.end <= merged[g].end
  }

  lemma SnocInside(s: seq<Range>, r: Range, c: nat)
    ensures Inside(s + [r], c) <==> Inside(s, c) || Strict(r, c)
  {
    if Inside(s, c) {
      var g :| 0 <= g < |s| && s[g].start < c < s[g].end;
      assert (s + [r])[g] == s[g];
    }
    if Strict(r, c) {
      assert (s + [r])[|s|] == r;
    }
  }

  lemma SameSnoc(a: seq<Range>, b: seq<Range>, r: Range)
    requires SameInside(a, b)
    ensures SameInside(a + [r], b + [r])
  {
    forall c: nat ensures Inside(a + [r], c) <==> Inside(b + [r], c) {
      SnocInside(a, r, c);
      SnocInside(b, r, c);
    }
  }

  lemma EndsMore(merged: seq<Range>, done: seq<Range>, r: Range)
    requires EndsFrom(merged, done)
    ensures EndsFrom(merged, done + [r])
  {
    assert forall g :: 0 <= g < |done| ==> (done + [r])[g] == done[g];
    forall g | 0 <= g < |merged|
      ensures Start(done + [r], merged[g].start) && End(done + [r], merged[g].end)
    {
      assert Start(done, merged[g].start) && End(done, merged[g].end);
    }
  }

  lemma EndsSnoc(merged: seq<Range>, done: seq<Range>, r: Range)
    requires EndsFrom(merged, done) && Start(done, r.start) && End(done, r.end)
    ensures EndsFrom(merged + [r], done)
  {
  }

  lemma LastEnds(done: seq<Range>, r: Range)
    ensures Start(done + [r], r.start) && End(done + [r], r.end)
  {
    assert (done + [r])[|done|] == r;
  }

  lemma HoldsMore(merged: seq<Range>, done: seq<Range>, r: Range)
    requires Holds(merged, done)
    ensures Holds(merged + [r], done + [r])
  {
    assert (merged + [r])[|merged|] == r;
    forall k | 0 <= k < |done + [r]| ensures Held(merged + [r], (done + [r])[k]) {
      if k < |done| {
        assert Held(merged, done[k]);
        var g :| 0 <= g < |merged| && merged[g].start <= done[k].start && done[k].end <= merged[g].end;
        assert (merged + [r])[g] == merged[g];
      }
    }
  }

  lemma ApartSnoc(merged: seq<Range>, r: Range)
    requires Apart(merged) && r.start < r.end && (merged != [] ==> merged[|merged| - 1].end <= r.start)
    ensures Apart(merged + [r])
  {
    forall g | 0 <= g < |merged| ensures merged[g].end <= r.start {
      assert g < |merged| - 1 ==> merged[g].end <= merged[|merged| - 1].start;
    }
  }

  /** A range that starts at or after the end of the last one is added. */
  lemma Appended(merged: seq<Range>, done: seq<Range>, unit: nat, r: Range)
    requires Merging(merged, done, unit) && r.start < r.end && r.end - r.start <= unit
    requires merged != [] ==> merged[|merged| - 1].end <= r.start
    ensures Merging(merged + [r], done + [r], unit)
  {
    hide Apart, SameInside, EndsFrom, Holds;
    ApartSnoc(merged, r);
    SameSnoc(merged, done, r);
    EndsMore(merged, done, r);
    LastEnds(done, r);
    EndsSnoc(merged, done + [r], r);
    HoldsMore(merged, done, r);
  }

  /** A range that overlaps the last one replaces it by their union. */
  function Union(last: Range, r: Range): Range {
    Range(last.start, if r.end < last.end then last.end else r.end)
  }

  lemma SameUnion(merged: seq<Range>, last: Range, done: seq<Range>, r: Range)
    requires SameInside(merged + [last], done) && last.start <= r.start < last.end
    ensures SameInside(merged + [Union(last, r)], done + [r])
  {
    forall c: nat ensures Inside(merged + [Union(last, r)], c) <==> Inside(done + [r], c) {
      SnocInside(merged, last, c);
      SnocInside(merged, Union(last, r), c);
      SnocInside(done, r, c);
      assert Strict(Union(last, r), c) <==> Strict(last, c) || Strict(r, c);
    }
  }

  lemma EndsUnion(merged: seq<Range>, last: Range, done: seq<Range>, r: Range)
    requires EndsFrom(merged + [last], done)
    ensures EndsFrom(merged + [Union(last, r)], done + [r])
  {
    var former := merged + [last];
    EndsMore(former, done, r);
    LastEnds(done, r);
    assert former[|merged|] == last;
    forall g | 0 <= g < |merged| ensures Start(done + [r], merged[g].start) && End(done + [r], merged[g].end) {
      assert former[g] == merged[g];
    }
    assert Start(done + [r], last.start) && End(done + [r], last.end);
  }

  lemma HoldsUnion(merged: seq<Range>, last: Range, done: seq<Range>, r: Range)
    requires Holds(merged + [last], done) && last.start <= r.start
    ensures Holds(merged + [Union(last, r)], done + [r])
  {
    var former, latter := merged + [last], merged + [Union(last, r)];
    assert latter[|merged|] == Union(last, r);
    forall k | 0 <= k < |done + [r]| ensures Held(latter, (done + [r])[k]) {
      if k < |done| {
        assert Held(former, done[k]);
        var g :| 0 <= g < |former| && former[g].start <= done[k].start && done[k].end <= former[g].end;
        assert latter[g].start <= done[k].start && done[k].end <= latter[g].end;
      }
    }
  }

  lemma ApartUnion(merged: seq<Range>, last: Range, r: Range)
    requires Apart(merged + [last])
    ensures Apart(merged + [Union(last, r)])
  {
    var former := merged + [last];
    assert former[|merged|] == last && forall g :: 0 <= g < |merged| ==> former[g] == merged[g];
  }

  lemma Joined(merged: seq<Range>, last: Range, done: seq<Range>, unit: nat, r: Range)
    requires Merging(merged + [last], done, unit) && r.start < r.end
    requires last.start <= r.start < last.end && Union(last, r).end - Union(last, r).start <= unit
    ensures Merging(merged + [Union(last, r)], done + [r], unit)
  {
    hide Apart, SameInside, EndsFrom, Holds;
    ApartUnion(merged, last, r);
    SameUnion(merged, last, done, r);
    EndsUnion(merged, last, done, r);
    HoldsUnion(merged, last, done, r);
    assert forall g :: 0 <= g < |merged| ==> (merged + [last])[g] == merged[g];
  }

  /** The loop that merges the sorted ranges. */
  method Merge(s: seq<Range>, unit: nat) returns (r: Result<seq<Range>>, ghost a: nat, ghost b: nat)
    requires Sorted(s) && forall k :: 0 <= k < |s| ==> s[k].start < s[k].end
    ensures r.Ok? ==> Merging(r.value, s, unit)
    ensures r.Err? ==> TooLong(s, unit, a, b)
  {
    hide EndsFrom, SameInside, Apart, Holds;
    a, b := 0, 0;
    var merged: seq<Range> := [];
    NothingMerged(unit);
    assert s[..0] == [];
    for k := 0 to |s|
      invariant Merging(merged, s[..k], unit)
    {
      assert s[..k + 1] == s[..k] + [s[k]];
      var r := s[k];
      if merged != [] && s[k].start < merged[|merged| - 1].end {
        var last := merged[|merged| - 1];
        assert merged == merged[..|merged| - 1] + [last];
        SortedAt(s, k - 1);
        r := Union(last, s[k]);
        merged := merged[..|merged| - 1];
        if r.end - r.start > unit {
          a, b := r.start, r.end;
          UnionTooLong(merged, last, s, unit, k);
          return Err, a, b;
        }
        Joined(merged, last, s[..k], unit, s[k]);
      } else {
        if r.end - r.start > unit {
          a, b := r.start, r.end;
          return Err, a, b;
        }
        Appended(merged, s[..k], unit, s[k]);
      }
      merged := merged + [r];
    }
    assert s[..|s|] == s;
    r := Ok(merged);
  }

  lemma NothingMerged(unit: nat)
    ensures Merging([], [], unit)
  {
  }

  lemma UnionTooLong(merged: seq<Range>, last: Range, s: seq<Range>, unit: nat, k: nat)
    requires k < |s| && SameInside(merged + [last], s[..k]) && EndsFrom(merged + [last], s[..k])
    requires last.start <= s[k].start < last.end
    requires Union(last, s[k]).end - Union(last, s[k]).start > unit
    ensures TooLong(s, unit, last.start, Union(last, s[k]).end)
  {
    var u := Union(last, s[k]);
    SameUnion(merged, last, s[..k], s[k]);
    assert s[..k] + [s[k]] == s[..k + 1];
    forall c: nat | u.start < c < u.end ensures Inside(s, c) {
      SnocInside(merged, u, c);
      PrefixInside(s, k + 1, c);
    }
    EndsUnion(merged, last, s[..k], s[k]);
    assert (merged + [u])[|merged|] == u;
    assert End(s[..k + 1], u.end);
  }

  lemma PrefixInside(s: seq<Range>, k: nat, c: nat)
    requires k <= |s| && Inside(s[..k], c)
    ensures Inside(s, c)
  {
    var g :| 0 <= g < k && s[..k][g].start < c < s[..k][g].end;
    assert s[g] == s[..k][g];
  }

  /** Across such a stretch no split is legal. */
  lemma {:induction false} NoSplitAcross(payload: Bytes, groups: seq<Range>, unit: nat, s: nat, cuts: seq<nat>,
                                         a: nat, b: nat)
    requires TooLong(groups, unit, a, b) && b <= |payload| && s <= a
    ensures !IsSplit(payload, groups, unit, s, cuts)
    decreases |cuts|
  {
    if cuts != [] && IsSplit(payload, groups, unit, s, cuts) {
      if cuts[0] <= a {
        NoSplitAcross(payload, groups, unit, cuts[0], cuts[1..], a, b);
      }
    }
  }

  lemma SameRanges(s: seq<Range>, t: seq<Range>, k: nat) returns (j: nat)
    requires multiset(s) == multiset(t) && k < |s|
    ensures j < |t| && t[j] == s[k]
  {
    assert s[k] in multiset(t);
    j :| 0 <= j < |t| && t[j] == s[k];
  }

  lemma InsideSame(s: seq<Range>, t: seq<Range>, c: nat)
    requires multiset(s) == multiset(t) && Inside(s, c)
    ensures Inside(t, c)
  {
    var g :| 0 <= g < |s| && s[g].start < c < s[g].end;
    var h := SameRanges(s, t, g);
  }

  lemma StartSame(s: seq<Range>, t: seq<Range>, x: nat)
    requires multiset(s) == multiset(t)
    ensures (Start(s, x) ==> Start(t, x)) && (End(s, x) ==> End(t, x))
  {
    if Start(s, x) {
      var g :| 0 <= g < |s| && s[g].start == x;
      var h := SameRanges(s, t, g);
    }
    if End(s, x) {
      var g :| 0 <= g < |s| && s[g].end == x;
      var h := SameRanges(s, t, g);
    }
  }

  /** What the merged ranges are to the requested ones. */
  ghost predicate Merged(merged: seq<Range>, requested: seq<Range>, unit: nat) {
    && Apart(merged) && SameInside(merged, requested) && EndsFrom(merged, requested) && Holds(merged, requested)
    && (forall g :: 0 <= g < |merged| ==> merged[g].end - merged[g].start <= unit)
  }

  lemma MergedSame(merged: seq<Range>, s: seq<Range>, requested: seq<Range>, unit: nat)
    requires Merging(merged, s, unit) && multiset(s) == multiset(requested)
    ensures Merged(merged, requested, unit)
  {
    hide Apart, Inside, Held, Start, End;
    forall c: nat ensures Inside(merged, c) <==> Inside(requested, c) {
      assert Inside(merged, c) <==> Inside(s, c);
      if Inside(s, c) {
        InsideSame(s, requested, c);
      }
      if Inside(requested, c) {
        InsideSame(requested, s, c);
      }
    }
    forall g | 0 <= g < |merged| ensures Start(requested, merged[g].start) && End(requested, merged[g].end) {
      StartSame(s, requested, merged[g].start);
      StartSame(s, requested, merged[g].end);
    }
    forall k | 0 <= k < |requested| ensures Held(merged, requested[k]) {
      var j := SameRanges(requested, s, k);
      assert Held(merged, s[j]);
    }
  }

  lemma TooLongSame(s: seq<Range>, t: seq<Range>, unit: nat, a: nat, b: nat)
    requires multiset(s) == multiset(t) && TooLong(s, unit, a, b)
    ensures TooLong(t, unit, a, b)
  {
    hide Inside;
    forall c: nat | a < c < b ensures Inside(t, c) {
      InsideSame(s, t, c);
    }
    var g :| 0 <= g < |s| && b <= s[g].end;
    var h := SameRanges(s, t, g);
  }

  /**
   Sort and merge.  Either the merged ranges serve in place of the requested ones, or there
   is a stretch longer than a unit in which every cut is forbidden.
   */
  method MergeRanges(requested: seq<Range>, unit: nat) returns (r: Result<seq<Range>>, ghost a: nat, ghost b: nat)
    requires forall k :: 0 <= k < |requested| ==> requested[k].start < requested[k].end
    ensures r.Ok? ==> Merged(r.value, requested, unit)
    ensures r.Err? ==> TooLong(requested, unit, a, b)
  {
    hide Merging, Merged, TooLong;
    var s := SortRanges(requested);
    forall k | 0 <= k < |s| ensures s[k].start < s[k].end {
      var j := SameRanges(s, requested, k);
    }
    r, a, b := Merge(s, unit);
    if r.Ok? {
      MergedSame(r.value, s, requested, unit);
    } else {
      TooLongSame(s, requested, unit, a, b);
    }
  }
}
