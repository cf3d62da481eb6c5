/** What follows from the choice of cuts in `partition` of scripts/bounded_review.py. */
module PartitionLaws {
  import opened Utf8
  import opened Partition
  import opened GroupRanges

  /** The chosen ends are a legal split. */
  lemma {:induction false} ChoicesSplit(payload: Bytes, boundaries: seq<nat>, groups: seq<Range>, unit: nat,
                                        maxUnits: nat, ends: seq<nat>, k: nat)
    requires Choices(payload, boundaries, groups, unit, maxUnits, ends) && From(ends, |ends|) == |payload|
    requires k <= |ends|
    ensures IsSplit(payload, groups, unit, From(ends, k), ends[k..])
    decreases |ends| - k
  {
    hide Chosen, Legal;
    if k < |ends| {
      assert ChoiceAt(payload, boundaries, groups, unit, maxUnits, ends, k);
      ChoicesSplit(payload, boundaries, groups, unit, maxUnits, ends, k + 1);
      assert ends[k..][1..] == ends[k + 1..] && ends[k..][0] == ends[k] == From(ends, k + 1);
    }
  }

  lemma FittingUnique(payload: Bytes, boundaries: seq<nat>, groups: seq<Range>, unit: nat, start: nat, remaining: nat,
                      e: nat, e': nat)
    requires Fitting(payload, boundaries, groups, unit, start, remaining, e)
    requires Fitting(payload, boundaries, groups, unit, start, remaining, e')
    ensures e == e'
  {
    hide Preferred, Legal, Feasible, Inside;
    if exists c: nat :: Usable(payload, boundaries, groups, unit, start, remaining, c) {
      assert e <= e' && e' <= e;
    } else {
      var f: nat :| IsFarthest(payload, groups, unit, start, f)
        && e == (if CutsNewline(payload, groups, unit, start, remaining, f) then f - 1 else f);
      var f': nat :| IsFarthest(payload, groups, unit, start, f')
        && e' == (if CutsNewline(payload, groups, unit, start, remaining, f') then f' - 1 else f');
      assert f <= f' && f' <= f;
    }
  }

  lemma {:induction false} EndsAgree(payload: Bytes, boundaries: seq<nat>, groups: seq<Range>, unit: nat, maxUnits: nat,
                                     e: seq<nat>, e': seq<nat>, k: nat)
    requires Choices(payload, boundaries, groups, unit, maxUnits, e)
    requires Choices(payload, boundaries, groups, unit, maxUnits, e')
    requires k <= |e| && k <= |e'|
    ensures e[..k] == e'[..k] && From(e, k) == From(e', k)
  {
    hide Fitting;
    if k > 0 {
      EndsAgree(payload, boundaries, groups, unit, maxUnits, e, e', k - 1);
      assert ChoiceAt(payload, boundaries, groups, unit, maxUnits, e, k - 1);
      assert ChoiceAt(payload, boundaries, groups, unit, maxUnits, e', k - 1);
      FittingUnique(payload, boundaries, groups, unit, From(e, k - 1), maxUnits - k, e[k - 1], e'[k - 1]);
      assert e[..k] == e[..k - 1] + [e[k - 1]] && e'[..k] == e'[..k - 1] + [e'[k - 1]];
    }
  }

  lemma StartsInside(payload: Bytes, boundaries: seq<nat>, groups: seq<Range>, unit: nat, maxUnits: nat, ends: seq<nat>)
    requires Choices(payload, boundaries, groups, unit, maxUnits, ends)
    ensures forall k :: 0 <= k < |ends| ==> From(ends, k) < ends[k] <= |payload|
  {
    hide Chosen, Legal;
    forall k | 0 <= k < |ends| ensures From(ends, k) < ends[k] <= |payload| {
      assert ChoiceAt(payload, boundaries, groups, unit, maxUnits, ends, k);
    }
  }

  /** The rule determines the units. */
  lemma SplitUnique(payload: Bytes, boundaries: seq<nat>, groups: seq<Range>, unit: nat, maxUnits: nat,
                    e: seq<nat>, units: seq<Bytes>, e': seq<nat>, units': seq<Bytes>)
    requires Choices(payload, boundaries, groups, unit, maxUnits, e) && From(e, |e|) == |payload|
    requires Choices(payload, boundaries, groups, unit, maxUnits, e') && From(e', |e'|) == |payload|
    requires Cutting(payload, e, units) && Cutting(payload, e', units')
    ensures e == e' && units == units'
  {
    hide Chosen, Legal;
    var k := if |e| < |e'| then |e| else |e'|;
    EndsAgree(payload, boundaries, groups, unit, maxUnits, e, e', k);
    StartsInside(payload, boundaries, groups, unit, maxUnits, e);
    StartsInside(payload, boundaries, groups, unit, maxUnits, e');
    assert e[..k] == e && e'[..k] == e';
    forall j | 0 <= j < |units| ensures units[j] == units'[j] {
      assert UnitAt(payload, e, units, j) && UnitAt(payload, e', units', j);
    }
  }

  // ---------------------------------------------------------------- Merged groups serve as well

  ghost predicate SamePreferred(payload: Bytes, b: seq<nat>, g: seq<Range>, b': seq<nat>, g': seq<Range>) {
    forall c: nat :: Preferred(payload, b, g, c) <==> Preferred(payload, b', g', c)
  }

  lemma SameLegal(payload: Bytes, g: seq<Range>, g': seq<Range>, c: nat)
    requires SameInside(g, g')
    ensures Legal(payload, g, c) <==> Legal(payload, g', c)
  {
  }

  lemma {:induction false} SameSplit(payload: Bytes, g: seq<Range>, g': seq<Range>, unit: nat, s: nat, cuts: seq<nat>)
    requires SameInside(g, g')
    ensures IsSplit(payload, g, unit, s, cuts) <==> IsSplit(payload, g', unit, s, cuts)
    decreases |cuts|
  {
    hide SameInside;
    if cuts != [] {
      SameSplit(payload, g, g', unit, cuts[0], cuts[1..]);
      SameLegal(payload, g, g', cuts[0]);
    }
  }

  lemma SameFeasible(payload: Bytes, g: seq<Range>, g': seq<Range>, unit: nat, s: nat, n: nat)
    requires SameInside(g, g')
    ensures Feasible(payload, g, unit, s, n) <==> Feasible(payload, g', unit, s, n)
  {
    hide SameInside;
    forall cuts: seq<nat> ensures IsSplit(payload, g, unit, s, cuts) <==> IsSplit(payload, g', unit, s, cuts) {
      SameSplit(payload, g, g', unit, s, cuts);
    }
  }

  lemma SameUsable(payload: Bytes, b: seq<nat>, g: seq<Range>, b': seq<nat>, g': seq<Range>, unit: nat, s: nat, n: nat,
                   c: nat)
    requires SameInside(g, g') && SamePreferred(payload, b, g, b', g')
    ensures Usable(payload, b, g, unit, s, n, c) <==> Usable(payload, b', g', unit, s, n, c)
  {
    hide SameInside, Feasible, Preferred;
    SameFeasible(payload, g, g', unit, c, n);
    assert Preferred(payload, b, g, c) <==> Preferred(payload, b', g', c);
  }

  lemma SameFarthest(payload: Bytes, g: seq<Range>, g': seq<Range>, unit: nat, s: nat, n: nat, f: nat)
    requires SameInside(g, g') && IsFarthest(payload, g, unit, s, f)
    ensures IsFarthest(payload, g', unit, s, f)
    ensures CutsNewline(payload, g, unit, s, n, f) <==> CutsNewline(payload, g', unit, s, n, f)
  {
    hide Feasible, Inside, Legal;
    forall c: nat ensures Legal(payload, g, c) <==> Legal(payload, g', c) {
      SameLegal(payload, g, g', c);
    }
    if s < f - 1 {
      SameFeasible(payload, g, g', unit, f - 1, n);
      assert Inside(g, f - 1) <==> Inside(g', f - 1);
    }
  }

  lemma SameChosen(payload: Bytes, b: seq<nat>, g: seq<Range>, b': seq<nat>, g': seq<Range>, unit: nat, s: nat, n: nat,
                   e: nat)
    requires SameInside(g, g') && SamePreferred(payload, b, g, b', g')
    requires Chosen(payload, b, g, unit, s, n, e)
    ensures Chosen(payload, b', g', unit, s, n, e)
  {
    hide SameInside, Usable, Preferred, IsFarthest, CutsNewline;
    forall c: nat ensures Usable(payload, b, g, unit, s, n, c) <==> Usable(payload, b', g', unit, s, n, c) {
      SameUsable(payload, b, g, b', g', unit, s, n, c);
    }
    if exists c: nat :: Usable(payload, b, g, unit, s, n, c) {
      forall c: nat | Preferred(payload, b', g', c) && c <= s + unit ensures c <= e {
        assert Preferred(payload, b, g, c);
      }
    } else {
      var f: nat :| IsFarthest(payload, g, unit, s, f)
        && e == (if CutsNewline(payload, g, unit, s, n, f) then f - 1 else f);
      SameFarthest(payload, g, g', unit, s, n, f);
    }
  }

  /** Groups that forbid the same cuts give the same units. */
  lemma SameChoices(payload: Bytes, b: seq<nat>, g: seq<Range>, b': seq<nat>, g': seq<Range>, unit: nat, maxUnits: nat,
                    ends: seq<nat>)
    requires SameInside(g, g') && SamePreferred(payload, b, g, b', g')
    requires Choices(payload, b, g, unit, maxUnits, ends)
    ensures Choices(payload, b', g', unit, maxUnits, ends)
  {
    hide SameInside, Chosen, SamePreferred;
    forall k | 0 <= k < |ends| ensures ChoiceAt(payload, b', g', unit, maxUnits, ends, k) {
      assert ChoiceAt(payload, b, g, unit, maxUnits, ends, k);
      SameChosen(payload, b, g, b', g', unit, From(ends, k), maxUnits - k - 1, ends[k]);
      SameLegal(payload, g, g', ends[k]);
    }
  }
}
