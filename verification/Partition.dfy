/**
 `partition` of scripts/bounded_review.py: cut a payload into review units.  Hard rules: a
 unit has at most `unit` bytes, no cut inside a character or an indivisible group.
 Preferences: end a unit at a record boundary, else avoid cutting between CR and LF.
 */
module Partition {
  import opened Common
  import opened Utf8

  const MAX_UNITS := 64

  datatype Range = Range(start: nat, end: nat)

  ghost predicate Inside(groups: seq<Range>, c: nat) {
    exists g :: 0 <= g < |groups| && groups[g].start < c < groups[g].end
  }

  /** Groups in order, apart from each other, with ends between characters. */
  ghost predicate Separate(payload: Bytes, groups: seq<Range>) {
    && (forall g :: 0 <= g < |groups| ==>
          && groups[g].start < groups[g].end <= |payload|
          && CharStart(payload, groups[g].start) && CharStart(payload, groups[g].end))
    && (forall g, h :: 0 <= g < h < |groups| ==> groups[g].end <= groups[h].start)
  }

  /** A position where a unit may end. */
  ghost predicate Legal(payload: Bytes, groups: seq<Range>, c: nat) {
    c <= |payload| && CharStart(payload, c) && !Inside(groups, c)
  }

  /** `cuts` are the ends of the units of a legal split of `payload[s..]`. */
  ghost predicate IsSplit(payload: Bytes, groups: seq<Range>, unit: nat, s: nat, cuts: seq<nat>)
    decreases |cuts|
  {
    if cuts == [] then s == |payload|
    else s < cuts[0] <= s + unit && Legal(payload, groups, cuts[0])
         && IsSplit(payload, groups, unit, cuts[0], cuts[1..])
  }

  /** Some legal split of `payload[s..]` has at most `n` units. */
  ghost predicate Feasible(payload: Bytes, groups: seq<Range>, unit: nat, s: nat, n: nat) {
    exists cuts :: |cuts| <= n && IsSplit(payload, groups, unit, s, cuts)
  }

  // ---------------------------------------------------------------- The greedy argument

  /** Starting later never needs more units. */
  lemma {:induction false} StartLater(payload: Bytes, groups: seq<Range>, unit: nat, s: nat, s': nat, cuts: seq<nat>)
    returns (cuts': seq<nat>)
    requires IsSplit(payload, groups, unit, s, cuts)
    requires s <= s' <= |payload|
    ensures |cuts'| <= |cuts| && IsSplit(payload, groups, unit, s', cuts')
    decreases |cuts|
  {
    if cuts == [] {
      cuts' := [];
    } else if cuts[0] <= s' {
      cuts' := StartLater(payload, groups, unit, cuts[0], s', cuts[1..]);
    } else {
      cuts' := cuts;
    }
  }

  lemma FeasibleLater(payload: Bytes, groups: seq<Range>, unit: nat, s: nat, s': nat, n: nat)
    requires Feasible(payload, groups, unit, s, n) && s <= s' <= |payload|
    ensures Feasible(payload, groups, unit, s', n)
  {
    var cuts :| |cuts| <= n && IsSplit(payload, groups, unit, s, cuts);
    var cuts' := StartLater(payload, groups, unit, s, s', cuts);
  }

  /** `f` is the last legal position within reach of `s`. */
  ghost predicate IsFarthest(payload: Bytes, groups: seq<Range>, unit: nat, s: nat, f: nat) {
    && s <= f <= s + unit && Legal(payload, groups, f)
    && (forall c: nat :: Legal(payload, groups, c) && c <= s + unit ==> c <= f)
  }

  /** A unit that ends at the farthest legal position wastes nothing. */
  lemma GreedyStep(payload: Bytes, groups: seq<Range>, unit: nat, s: nat, n: nat, f: nat)
    requires s < |payload| && IsFarthest(payload, groups, unit, s, f)
    ensures Feasible(payload, groups, unit, s, n) <==> n > 0 && f > s && Feasible(payload, groups, unit, f, n - 1)
  {
    if Feasible(payload, groups, unit, s, n) {
      var cuts :| |cuts| <= n && IsSplit(payload, groups, unit, s, cuts);
      var rest := StartLater(payload, groups, unit, cuts[0], f, cuts[1..]);
    }
    if n > 0 && f > s && Feasible(payload, groups, unit, f, n - 1) {
      StepFeasible(payload, groups, unit, s, f, n);
    }
  }

  lemma StepFeasible(payload: Bytes, groups: seq<Range>, unit: nat, s: nat, c: nat, n: nat)
    requires n > 0 && s < c <= s + unit && Legal(payload, groups, c) && Feasible(payload, groups, unit, c, n - 1)
    ensures Feasible(payload, groups, unit, s, n)
  {
    var cuts :| |cuts| <= n - 1 && IsSplit(payload, groups, unit, c, cuts);
    assert ([c] + cuts)[1..] == cuts;
    assert IsSplit(payload, groups, unit, s, [c] + cuts);
  }

  lemma FeasibleEnd(payload: Bytes, groups: seq<Range>, unit: nat, n: nat)
    ensures Feasible(payload, groups, unit, |payload|, n)
  {
    assert IsSplit(payload, groups, unit, |payload|, []);
  }

  /** With room for a character and for every group, a unit can always be ended further on. */
  lemma Progress(payload: Bytes, groups: seq<Range>, unit: nat, s: nat) returns (f: nat)
    requires ValidUtf8(payload) && Separate(payload, groups) && unit >= 4
    requires forall g :: 0 <= g < |groups| ==> groups[g].end - groups[g].start <= unit
    requires s < |payload| && Legal(payload, groups, s)
    ensures s < f <= s + unit && Legal(payload, groups, f)
  {
    var e := if s + unit < |payload| then s + unit else |payload|;
    if Inside(groups, e) {
      var g :| 0 <= g < |groups| && groups[g].start < e < groups[g].end;
      f := groups[g].start;
      forall h | 0 <= h < |groups| ensures !(groups[h].start < f < groups[h].end) {
        assert h < g ==> groups[h].end <= groups[g].start;
        assert g < h ==> groups[g].end <= groups[h].start;
      }
    } else {
      f := StartNearby(payload, e);
      assert e == |payload| ==> CharStart(payload, e);
      forall h | 0 <= h < |groups| ensures !(groups[h].start < f < groups[h].end) {
        assert CharStart(payload, groups[h].end);
      }
    }
  }

  /** So only the number of units can make a payload unfit: enough units always suffice. */
  lemma {:induction false} EnoughUnits(payload: Bytes, groups: seq<Range>, unit: nat, s: nat)
    requires ValidUtf8(payload) && Separate(payload, groups) && unit >= 4
    requires forall g :: 0 <= g < |groups| ==> groups[g].end - groups[g].start <= unit
    requires Legal(payload, groups, s)
    ensures Feasible(payload, groups, unit, s, |payload| - s)
    decreases |payload| - s
  {
    if s == |payload| {
      FeasibleEnd(payload, groups, unit, 0);
    } else {
      var f := Progress(payload, groups, unit, s);
      EnoughUnits(payload, groups, unit, f);
      var cuts :| |cuts| <= |payload| - f && IsSplit(payload, groups, unit, f, cuts);
      StepFeasible(payload, groups, unit, s, f, |payload| - f + 1);
      var more :| |more| <= |payload| - f + 1 && IsSplit(payload, groups, unit, s, more);
      assert |more| <= |payload| - s;
    }
  }

  // ---------------------------------------------------------------- The choice of a cut

  ghost predicate Preferred(payload: Bytes, boundaries: seq<nat>, groups: seq<Range>, c: nat) {
    (c in boundaries || c == |payload|) && !Inside(groups, c)
  }

  /** A preferred cut within reach of `s` that leaves a feasible tail. */
  ghost predicate Usable(payload: Bytes, boundaries: seq<nat>, groups: seq<Range>, unit: nat,
                         s: nat, remaining: nat, c: nat) {
    && Preferred(payload, boundaries, groups, c) && s < c <= s + unit
    && Feasible(payload, groups, unit, c, remaining)
  }

  ghost predicate CutsNewline(payload: Bytes, groups: seq<Range>, unit: nat, s: nat, remaining: nat, f: nat) {
    && s < f - 1 && f < |payload| && payload[f - 1] == 13 && payload[f] == 10
    && !Inside(groups, f - 1) && Feasible(payload, groups, unit, f - 1, remaining)
  }

  /**
   The end of the unit that starts at `s`: the farthest preferred cut in reach if any
   preferred cut in reach can be afforded; otherwise the farthest legal position, moved
   before an LF that would be separated from its CR if that can be afforded.
   */
  ghost predicate Chosen(payload: Bytes, boundaries: seq<nat>, groups: seq<Range>, unit: nat,
                         s: nat, remaining: nat, end: nat) {
    if exists c: nat :: Usable(payload, boundaries, groups, unit, s, remaining, c) then
      && Usable(payload, boundaries, groups, unit, s, remaining, end)
      && (forall c: nat :: Preferred(payload, boundaries, groups, c) && c <= s + unit ==> c <= end)
    else
      exists f: nat :: IsFarthest(payload, groups, unit, s, f)
        && end == (if CutsNewline(payload, groups, unit, s, remaining, f) then f - 1 else f)
  }

  /** Where unit `k` starts, given where the units end. */
  function From(ends: seq<nat>, k: nat): nat
    requires k <= |ends|
  {
    if k == 0 then 0 else ends[k - 1]
  }

  /** The ends of the units, each chosen by the rule above with the units still available. */
  ghost predicate Choices(payload: Bytes, boundaries: seq<nat>, groups: seq<Range>, unit: nat, maxUnits: nat,
                          ends: seq<nat>) {
    |ends| <= maxUnits && forall k :: 0 <= k < |ends| ==> ChoiceAt(payload, boundaries, groups, unit, maxUnits, ends, k)
  }

  ghost predicate ChoiceAt(payload: Bytes, boundaries: seq<nat>, groups: seq<Range>, unit: nat, maxUnits: nat,
                           ends: seq<nat>, k: nat) {
    && k < |ends| && k < maxUnits
    && Fitting(payload, boundaries, groups, unit, From(ends, k), maxUnits - k - 1, ends[k])
  }

  /** A legal unit `[start, end)` whose end follows the rule. */
  ghost predicate Fitting(payload: Bytes, boundaries: seq<nat>, groups: seq<Range>, unit: nat,
                          start: nat, remaining: nat, end: nat) {
    && start < end <= |payload| && end - start <= unit && Legal(payload, groups, end)
    && Chosen(payload, boundaries, groups, unit, start, remaining, end)
  }

  ghost predicate Cutting(payload: Bytes, ends: seq<nat>, units: seq<Bytes>) {
    |units| == |ends| && forall k :: 0 <= k < |ends| ==> UnitAt(payload, ends, units, k)
  }

  ghost predicate UnitAt(payload: Bytes, ends: seq<nat>, units: seq<Bytes>, k: nat) {
    && k < |ends| && k < |units| && From(ends, k) <= ends[k] <= |payload|
    && units[k] == payload[From(ends, k)..ends[k]]
  }

  // ---------------------------------------------------------------- The code

  /** `farthest(start)`. */
  method Farthest(payload: Bytes, groups: seq<Range>, unit: nat, start: nat) returns (end: nat)
    requires Separate(payload, groups) && start < |payload| && Legal(payload, groups, start)
    ensures IsFarthest(payload, groups, unit, start, end)
  {
    end := if start + unit < |payload| then start + unit else |payload|;
    ghost var reach := end;
    var g := 0;
    while g < |groups|
      invariant 0 <= g <= |groups| && start <= end <= reach
      invariant forall h :: 0 <= h < g ==> !(groups[h].start < end < groups[h].end)
      invariant end == reach || (exists h :: 0 <= h < g && groups[h].start == end < reach < groups[h].end)
    {
      if groups[g].start < end < groups[g].end {
        end := groups[g].start;
      }
      g := g + 1;
    }
    ghost var grouped := end;
    assert !Inside(groups, end);
    assert forall c: nat :: Legal(payload, groups, c) && c <= start + unit ==> c <= end;
    while end < |payload| && IsTail(payload[end])
      invariant start <= end <= grouped
      invariant forall c: nat :: end < c <= grouped ==> !CharStart(payload, c)
      decreases end
    {
      end := end - 1;
    }
  }

  /** `fits(start, slots)`: decides whether some legal split of the tail is small enough. */
  method Fits(payload: Bytes, groups: seq<Range>, unit: nat, first: nat, slots: nat) returns (r: bool)
    requires Separate(payload, groups) && Legal(payload, groups, first)
    ensures r <==> Feasible(payload, groups, unit, first, slots)
  {
    var start: nat := first;
    for k := 0 to slots
      invariant start <= |payload| && Legal(payload, groups, start)
      invariant Feasible(payload, groups, unit, first, slots) <==> Feasible(payload, groups, unit, start, slots - k)
    {
      if start == |payload| {
        FeasibleEnd(payload, groups, unit, slots - k);
        return true;
      }
      var end := Farthest(payload, groups, unit, start);
      GreedyStep(payload, groups, unit, start, slots - k, end);
      if end <= start {
        return false;
      }
      start := end;
    }
    r := start == |payload|;
    if r {
      FeasibleEnd(payload, groups, unit, 0);
    }
  }

  predicate Increasing(s: seq<nat>) {
    forall i, j :: 0 <= i < j < |s| ==> s[i] < s[j]
  }

  function Insert(s: seq<nat>, x: nat): (r: seq<nat>)
    requires Increasing(s)
    ensures Increasing(r) && forall y: nat :: y in r <==> y == x || y in s
  {
    if s == [] then [x]
    else if x < s[0] then [x] + s
    else if x == s[0] then s
    else
      var rest := Insert(s[1..], x);
      assert forall y :: y in s <==> y == s[0] || y in s[1..];
      assert forall k :: 0 <= k < |rest| ==> rest[k] in rest;
      [s[0]] + rest
  }

  /** `sorted(cut for cut in set(boundaries + [len(payload)]) if ...)`. */
  method Cuts(payload: Bytes, boundaries: seq<nat>, groups: seq<Range>) returns (cuts: seq<nat>)
    ensures Increasing(cuts)
    ensures forall c: nat :: c in cuts <==> Preferred(payload, boundaries, groups, c)
  {
    var all := boundaries + [|payload|];
    cuts := [];
    for k := 0 to |all|
      invariant Increasing(cuts)
      invariant forall c: nat :: c in cuts <==> c in all[..k] && !Inside(groups, c)
    {
      if !(exists g :: 0 <= g < |groups| && groups[g].start < all[k] < groups[g].end) {
        cuts := Insert(cuts, all[k]);
      }
      assert all[..k + 1] == all[..k] + [all[k]];
    }
    assert all[..|all|] == all;
  }

  /** `bisect.bisect_right(cuts, x)`. */
  method BisectRight(cuts: seq<nat>, x: nat) returns (p: nat)
    requires Increasing(cuts)
    ensures p <= |cuts| && (forall i :: 0 <= i < p ==> cuts[i] <= x) && (forall i :: p <= i < |cuts| ==> cuts[i] > x)
  {
    var hi := |cuts|;
    p := 0;
    while p < hi
      invariant 0 <= p <= hi <= |cuts|
      invariant (forall i :: 0 <= i < p ==> cuts[i] <= x) && (forall i :: hi <= i < |cuts| ==> cuts[i] > x)
    {
      var mid := (p + hi) / 2;
      if x < cuts[mid] {
        hi := mid;
      } else {
        p := mid + 1;
      }
    }
  }

  /** The first alternative of the loop body: the farthest preferred cut, if affordable. */
  method PreferredCut(payload: Bytes, boundaries: seq<nat>, cuts: seq<nat>, groups: seq<Range>, unit: nat,
                      start: nat, f: nat, remaining: nat) returns (found: bool, end: nat)
    requires Separate(payload, groups) && IsFarthest(payload, groups, unit, start, f)
    requires forall b :: b in boundaries ==> b <= |payload| && CharStart(payload, b)
    requires Increasing(cuts) && forall c: nat :: c in cuts <==> Preferred(payload, boundaries, groups, c)
    ensures found <==> exists c: nat :: Usable(payload, boundaries, groups, unit, start, remaining, c)
    ensures found ==> Usable(payload, boundaries, groups, unit, start, remaining, end)
    ensures found ==> forall c: nat :: Preferred(payload, boundaries, groups, c) && c <= start + unit ==> c <= end
  {
    var position := BisectRight(cuts, f);
    found, end := false, f;
    forall c: nat | Preferred(payload, boundaries, groups, c) && c <= start + unit
      ensures position > 0 && c <= cuts[position - 1]
    {
      assert Legal(payload, groups, c);
      var i :| 0 <= i < |cuts| && cuts[i] == c;
    }
    if position > 0 && cuts[position - 1] > start {
      end := cuts[position - 1];
      assert end in cuts;
      found := Fits(payload, groups, unit, end, remaining);
      if !found {
        forall c: nat ensures !Usable(payload, boundaries, groups, unit, start, remaining, c) {
          if Usable(payload, boundaries, groups, unit, start, remaining, c) {
            FeasibleLater(payload, groups, unit, c, end, remaining);
          }
        }
      } else {
        assert Usable(payload, boundaries, groups, unit, start, remaining, end);
      }
    }
  }

  /** The second alternative: keep CR and LF together, if affordable. */
  method NewlineCut(payload: Bytes, groups: seq<Range>, unit: nat, start: nat, f: nat, remaining: nat)
    returns (end: nat)
    requires Separate(payload, groups) && IsFarthest(payload, groups, unit, start, f)
    ensures end == if CutsNewline(payload, groups, unit, start, remaining, f) then f - 1 else f
  {
    end := f;
    if start < f - 1 && payload[f - 1..if f + 1 <= |payload| then f + 1 else f] == [13, 10]
       && !(exists g :: 0 <= g < |groups| && groups[g].start < f - 1 < groups[g].end)
    {
      assert payload[f - 1] == payload[f - 1..f + 1][0] && payload[f] == payload[f - 1..f + 1][1];
      var before := Fits(payload, groups, unit, f - 1, remaining);
      if before {
        end := f - 1;
      }
    } else if f < |payload| && start < f - 1 {
      assert payload[f - 1..f + 1] == [payload[f - 1], payload[f]];
    }
  }

  /** One pass of the loop of `partition`: the end of the unit that starts at `start`. */
  method NextCut(payload: Bytes, boundaries: seq<nat>, cuts: seq<nat>, groups: seq<Range>, unit: nat,
                 start: nat, remaining: nat) returns (end: nat)
    requires Separate(payload, groups)
    requires forall b :: b in boundaries ==> b <= |payload| && CharStart(payload, b)
    requires Increasing(cuts) && forall c: nat :: c in cuts <==> Preferred(payload, boundaries, groups, c)
    requires start < |payload| && Legal(payload, groups, start)
    requires Feasible(payload, groups, unit, start, remaining + 1)
    ensures Fitting(payload, boundaries, groups, unit, start, remaining, end)
    ensures Feasible(payload, groups, unit, end, remaining)
  {
    var f := Farthest(payload, groups, unit, start);
    GreedyStep(payload, groups, unit, start, remaining + 1, f);
    var found;
    found, end := PreferredCut(payload, boundaries, cuts, groups, unit, start, f, remaining);
    if !found {
      end := NewlineCut(payload, groups, unit, start, f, remaining);
    }
  }

  /** `validate_unit(chunk)`. */
  predicate ValidUnit(chunk: Bytes, unit: nat) {
    Text(chunk) && 1 <= |chunk| <= unit
  }

  /** The loop of `partition`, entered once `fits(0, max_units)` holds. */
  method CutAll(payload: Bytes, boundaries: seq<nat>, cuts: seq<nat>, maxUnits: nat, groups: seq<Range>, unit: nat)
    returns (r: Result<seq<Bytes>>, ghost ends: seq<nat>)
    requires Text(payload) && Separate(payload, groups)
    requires forall b :: b in boundaries ==> b <= |payload| && CharStart(payload, b)
    requires Increasing(cuts) && forall c: nat :: c in cuts <==> Preferred(payload, boundaries, groups, c)
    requires Legal(payload, groups, 0) && Feasible(payload, groups, unit, 0, maxUnits)
    ensures r.Ok? && Choices(payload, boundaries, groups, unit, maxUnits, ends)
    ensures Cutting(payload, ends, r.value) && From(ends, |ends|) == |payload|
    ensures Concat(r.value) == payload && AllValid(r.value, unit)
  {
    hide Chosen, ChoiceAt, UnitAt, Feasible, Preferred, ValidUtf8, Separate, Inside;
    ends := [];
    var result, start: nat := [], 0;
    while start < |payload|
      invariant start <= |payload| && Legal(payload, groups, start) && start == From(ends, |ends|)
      invariant Choices(payload, boundaries, groups, unit, maxUnits, ends)
      invariant |result| <= maxUnits && Cutting(payload, ends, result) && AllValid(result, unit)
      invariant Concat(result) == payload[..start]
      invariant Feasible(payload, groups, unit, start, maxUnits - |result|)
    {
      NeedsUnit(payload, groups, unit, start, maxUnits - |result|);
      var end := NextCut(payload, boundaries, cuts, groups, unit, start, maxUnits - |result| - 1);
      var chunk := payload[start..end];
      TextSlice(payload, start, end);
      if !ValidUnit(chunk, unit) {
        return Err, ends;
      }
      OneMoreChoice(payload, boundaries, groups, unit, maxUnits, ends, end);
      OneMoreUnit(payload, ends, result, end);
      ends := ends + [end];
      result := result + [chunk];
      if |result| > maxUnits {
        return Err, ends;
      }
      start := end;
    }
    r := Ok(result);
    assert payload[..start] == payload;
  }

  lemma NeedsUnit(payload: Bytes, groups: seq<Range>, unit: nat, s: nat, n: nat)
    requires s < |payload| && Feasible(payload, groups, unit, s, n)
    ensures n > 0
  {
    var cuts :| |cuts| <= n && IsSplit(payload, groups, unit, s, cuts);
  }

  predicate AllValid(units: seq<Bytes>, unit: nat) {
    forall k :: 0 <= k < |units| ==> ValidUnit(units[k], unit)
  }

  /**
   `partition(payload, boundaries, max_units, groups)`.  It fails exactly when the input is
   not text, is empty, the unit budget is out of range or no legal split exists; no later
   check can fail.  The units are those of `Choices`.
   */
  method Partition(payload: Bytes, boundaries: seq<nat>, maxUnits: int, groups: seq<Range>, unit: nat)
    returns (r: Result<seq<Bytes>>, ghost ends: seq<nat>)
    requires Separate(payload, groups)
    requires forall b :: b in boundaries ==> b <= |payload| && CharStart(payload, b)
    ensures r.Ok? <==>
      (Text(payload) && payload != [] && 1 <= maxUnits <= MAX_UNITS && Feasible(payload, groups, unit, 0, maxUnits))
    ensures r.Ok? ==> Choices(payload, boundaries, groups, unit, maxUnits, ends)
    ensures r.Ok? ==> Cutting(payload, ends, r.value) && From(ends, |ends|) == |payload|
    ensures r.Ok? ==> Concat(r.value) == payload && AllValid(r.value, unit)
  {
    ends := [];
    if !Text(payload) || payload == [] || !(1 <= maxUnits <= MAX_UNITS) {
      return Err, ends;
    }
    var cuts := Cuts(payload, boundaries, groups);
    ValidStart(payload);
    var fits := Fits(payload, groups, unit, 0, maxUnits);
    if !fits {
      return Err, ends;
    }
    r, ends := CutAll(payload, boundaries, cuts, maxUnits, groups, unit);
  }

  lemma OneMoreChoice(payload: Bytes, boundaries: seq<nat>, groups: seq<Range>, unit: nat, maxUnits: nat,
                      ends: seq<nat>, end: nat)
    requires Choices(payload, boundaries, groups, unit, maxUnits, ends) && |ends| < maxUnits
    requires Fitting(payload, boundaries, groups, unit, From(ends, |ends|), maxUnits - |ends| - 1, end)
    ensures Choices(payload, boundaries, groups, unit, maxUnits, ends + [end])
  {
    var more := ends + [end];
    forall k | 0 <= k < |more|
      ensures ChoiceAt(payload, boundaries, groups, unit, maxUnits, more, k)
    {
      assert From(more, k) == From(ends, k);
      if k < |ends| {
        assert ChoiceAt(payload, boundaries, groups, unit, maxUnits, ends, k) && more[k] == ends[k];
      }
    }
  }

  lemma OneMoreUnit(payload: Bytes, ends: seq<nat>, units: seq<Bytes>, end: nat)
    requires Cutting(payload, ends, units) && From(ends, |ends|) <= end <= |payload|
    requires Concat(units) == payload[..From(ends, |ends|)]
    ensures Cutting(payload, ends + [end], units + [payload[From(ends, |ends|)..end]])
    ensures Concat(units + [payload[From(ends, |ends|)..end]]) == payload[..end]
  {
    var chunk := payload[From(ends, |ends|)..end];
    ConcatSnoc(units + [chunk], |units|);
    assert (units + [chunk])[..|units|] == units && (units + [chunk])[..|units| + 1] == units + [chunk];
    forall k | 0 <= k <= |ends| ensures UnitAt(payload, ends + [end], units + [chunk], k) {
      assert From(ends + [end], k) == From(ends, k);
      assert k < |ends| ==> UnitAt(payload, ends, units, k);
    }
  }
}
