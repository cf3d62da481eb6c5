/**
 `verify`, `validate_review` and `aggregate` of scripts/bounded_review.py: the last word on a
 review, given the manifest, the units, the receipts and the finished ledger.
 */
module Aggregation {
  import opened Common
  import opened Utf8
  import opened Partition
  import opened Coverage
  import opened Admission

  datatype Subject = UnitSubject(number: nat) | Integration | OtherSubject

  datatype Semantic = CompleteUnit | CompleteCrossUnit | OtherSemantic

  /** An authenticated receipt; `manifest` and `payload` stand for their digests. */
  datatype Review = Review(
    manifest: Manifest, subject: Subject, payload: Digest<Bytes>, pass: bool, findings: seq<Bytes>, semantic: Semantic)

  datatype Receipt = Receipt(manifest: Manifest, diff: Digest<Bytes>, unitCount: nat)

  /** The receipt that review `number` must bring. */
  function Wanted(m: Manifest, number: nat): Review
    requires number <= |m.units|
  {
    if number == |m.units| then Review(m, Integration, m.diff, true, [], CompleteCrossUnit)
    else Review(m, UnitSubject(number), m.units[number].sha, true, [], CompleteUnit)
  }

  /** `verify(manifest, chunks, …)`: plan again from the input, never from the manifest. */
  method Verify(m: Manifest, chunks: seq<Bytes>, payload: Bytes, binding: Binding, prompt: Bytes, version: Bytes,
                limits: Limits) returns (ok: bool)
    ensures ok <==> IsPlan(payload, binding, prompt, version, limits, m, chunks)
  {
    hide IsPlan;
    var expected := MakePlan(payload, binding, prompt, version, limits);
    if expected.Err? {
      return false;
    }
    var m', chunks' := expected.value.0, expected.value.1;
    if IsPlan(payload, binding, prompt, version, limits, m, chunks) {
      PlanUnique(payload, binding, prompt, version, limits, m, chunks, m', chunks');
      PlanUnits(payload, binding, prompt, version, limits, m, chunks);
    }
    if m != m' || |chunks| != |chunks'| {
      return false;
    }
    for k := 0 to |chunks|
      invariant chunks[..k] == chunks'[..k]
    {
      if !ValidUnit(chunks[k], MAX_UNIT_BYTES) || chunks[k] != chunks'[k] {
        return false;
      }
    }
    assert chunks[..|chunks|] == chunks && chunks'[..|chunks|] == chunks';
    ok := Concat(chunks) == payload;
  }

  /** The units of a plan pass every check that `verify` repeats on them. */
  lemma PlanUnits(payload: Bytes, binding: Binding, prompt: Bytes, version: Bytes, limits: Limits,
                  m: Manifest, chunks: seq<Bytes>)
    requires IsPlan(payload, binding, prompt, version, limits, m, chunks)
    ensures Concat(chunks) == payload && |m.units| == |chunks|
    ensures forall k :: 0 <= k < |chunks| ==> ValidUnit(chunks[k], MAX_UNIT_BYTES)
  {
    hide ValidBinding, ValidPrompt, AllRanges, Distinct, Boundaries, UnitsOf, Chosen, Inside;
    var ranges := AllRanges(m.files, limits.groups).value;
    var ends :| Cut(payload, m.files, ranges, limits.maxUnits, chunks, ends);
    PlanCovers(payload, binding, prompt, version, limits, m, chunks);
    CutWhole(payload, m.files, ranges, limits.maxUnits, chunks, ends);
    forall k | 0 <= k < |chunks| ensures ValidUnit(chunks[k], MAX_UNIT_BYTES) {
      UnitIsText(payload, Boundaries(m.files, ranges), ranges, limits.maxUnits, ends, chunks, k);
    }
  }

  lemma UnitIsText(payload: Bytes, boundaries: seq<nat>, groups: seq<Range>, maxUnits: nat, ends: seq<nat>,
                   chunks: seq<Bytes>, k: nat)
    requires Text(payload) && Choices(payload, boundaries, groups, MAX_UNIT_BYTES, maxUnits, ends)
    requires Cutting(payload, ends, chunks) && k < |chunks|
    ensures Text(chunks[k])
  {
    hide Chosen, Inside, Text;
    assert ChoiceAt(payload, boundaries, groups, MAX_UNIT_BYTES, maxUnits, ends, k);
    assert UnitAt(payload, ends, chunks, k);
    if k > 0 {
      assert ChoiceAt(payload, boundaries, groups, MAX_UNIT_BYTES, maxUnits, ends, k - 1);
    } else {
      TextStart(payload);
    }
    TextSlice(payload, From(ends, k), ends[k]);
  }

  lemma TextStart(payload: Bytes)
    requires Text(payload)
    ensures CharStart(payload, 0)
  {
    ValidStart(payload);
  }

  /** `validate_review(manifest, number, review)` */
  method ValidateReview(m: Manifest, number: nat, review: Review) returns (ok: bool)
    requires number <= |m.units|
    ensures ok <==> review == Wanted(m, number)
  {
    var integration := number == |m.units|;
    if review.manifest != m {
      return false;
    }
    if review.subject != (if integration then Integration else UnitSubject(number)) {
      return false;
    }
    if review.payload != (if integration then m.diff else m.units[number].sha) {
      return false;
    }
    if !review.pass || review.findings != [] {
      return false;
    }
    ok := review.semantic == if integration then CompleteCrossUnit else CompleteUnit;
  }

  /** The ledger of this manifest, with every review finished. */
  predicate Complete(l: Ledger, ledgerOf: Manifest, m: Manifest, units: nat) {
    ledgerOf == m && !l.failed && l.active.None? && l.next == units + 1
  }

  /**
   `aggregate(manifest, chunks, …)`: a receipt exactly for the re-planned manifest and
   units, a complete ledger, and one passing review per unit plus the integration review, in order.
   */
  method Aggregate(m: Manifest, chunks: seq<Bytes>, payload: Bytes, binding: Binding, prompt: Bytes, version: Bytes,
                   limits: Limits, reviews: seq<Review>, account: Account) returns (r: Result<Receipt>)
    ensures r.Ok? <==>
      && IsPlan(payload, binding, prompt, version, limits, m, chunks)
      && Complete(account.Value(), account.manifest, m, |chunks|)
      && |reviews| == |m.units| + 1 && forall k :: 0 <= k <= |m.units| ==> reviews[k] == Wanted(m, k)
    ensures r.Ok? ==> r.value == Receipt(m, Sha(payload), |chunks|)
  {
    hide IsPlan;
    var planned := Verify(m, chunks, payload, binding, prompt, version, limits);
    if !planned {
      return Err;
    }
    PlanUnits(payload, binding, prompt, version, limits, m, chunks);
    if account.manifest != m || account.failed || account.active.Some? || account.next != |chunks| + 1 {
      return Err;
    }
    if |reviews| != |chunks| + 1 {
      return Err;
    }
    for number := 0 to |reviews|
      invariant forall k :: 0 <= k < number ==> reviews[k] == Wanted(m, k)
    {
      var ok := ValidateReview(m, number, reviews[number]);
      if !ok {
        return Err;
      }
    }
    r := Ok(Receipt(m, Sha(payload), |chunks|));
  }

  lemma PlanShape(payload: Bytes, binding: Binding, prompt: Bytes, version: Bytes, limits: Limits,
                  m: Manifest, chunks: seq<Bytes>)
    requires IsPlan(payload, binding, prompt, version, limits, m, chunks)
    ensures m.limits == limits && m.diff == Sha(payload) && |m.units| == |chunks|
    ensures limits.perReviewSeconds >= 1 && limits.perReviewCost >= 1 && limits.maxCost >= 1
    ensures Affordable(limits, |chunks|)
  {
    hide AllRanges, Cut, ValidBinding, ValidPrompt, Distinct, UnitsOf;
    PlanUnits(payload, binding, prompt, version, limits, m, chunks);
  }

  lemma ReviewsMean(m: Manifest, chunks: seq<Bytes>, payload: Bytes, reviews: seq<Review>)
    requires Covers(payload, m, chunks) && m.diff == Sha(payload)
    requires |reviews| == |m.units| + 1 && forall k :: 0 <= k <= |m.units| ==> reviews[k] == Wanted(m, k)
    ensures forall k :: 0 <= k < |chunks| ==> reviews[k].payload == Sha(chunks[k]) && reviews[k].pass
    ensures reviews[|chunks|].payload == Sha(payload) && reviews[|chunks|].pass
  {
    hide UnitCovers, Tile;
    forall k | 0 <= k < |chunks| ensures reviews[k].payload == Sha(chunks[k]) && reviews[k].pass {
      UnitSha(m, chunks, k);
    }
  }

  lemma UnitSha(m: Manifest, chunks: seq<Bytes>, k: nat)
    requires k < |m.units| && UnitCovers(m.files, m.units[k], k, chunks)
    ensures k < |chunks| && m.units[k].sha == Sha(chunks[k])
  {
  }

  lemma HistoryMeans(l: Ledger, calls: seq<Call>, units: nat)
    requires Open(l) && l.limits.perReviewSeconds >= 1 && l.limits.perReviewCost >= 1 && l.limits.maxCost >= 1
    requires !Run(l, calls).failed && Run(l, calls).active.None? && Run(l, calls).next == units + 1
    ensures |calls| == 2 * (units + 1) && Spent(calls) <= l.limits.maxCost
    ensures calls[|calls| - 1].now - l.started <= l.limits.maxReviewSeconds
  {
    HistoryIsSerial(l, calls);
    assert InTurn(l, calls, |calls| - 1);
  }

  /**
   What a receipt means.  Every unit of a cover of the payload has a passing review of its
   own bytes, the integration review saw the whole payload, and the reviews were reserved
   and finished one after the other within the time and cost of the policy.
   */
  lemma PassMeans(payload: Bytes, binding: Binding, prompt: Bytes, version: Bytes, limits: Limits,
                  m: Manifest, chunks: seq<Bytes>, reviews: seq<Review>, start: int, calls: seq<Call>)
    requires IsPlan(payload, binding, prompt, version, limits, m, chunks)
    requires Complete(Run(Opened(m.limits, |m.units|, start), calls), m, m, |chunks|)
    requires |reviews| == |m.units| + 1 && forall k :: 0 <= k <= |m.units| ==> reviews[k] == Wanted(m, k)
    ensures Covers(payload, m, chunks)
    ensures forall k :: 0 <= k < |chunks| ==> reviews[k].payload == Sha(chunks[k]) && reviews[k].pass
    ensures reviews[|chunks|].payload == Sha(payload) && reviews[|chunks|].pass
    ensures |calls| == 2 * (|chunks| + 1) && Spent(calls) <= limits.maxCost
    ensures calls[|calls| - 1].now - start <= limits.maxReviewSeconds
  {
    hide IsPlan, Covers, Affordable, Run, Wanted;
    PlanShape(payload, binding, prompt, version, limits, m, chunks);
    PlanCovers(payload, binding, prompt, version, limits, m, chunks);
    ReviewsMean(m, chunks, payload, reviews);
    HistoryMeans(Opened(m.limits, |m.units|, start), calls, |chunks|);
  }

  /** Once a plan is made, a prompt run of all its reviews is never refused and completes the ledger. */
  lemma PlanRunsThrough(payload: Bytes, binding: Binding, prompt: Bytes, version: Bytes, limits: Limits,
                        m: Manifest, chunks: seq<Bytes>, start: int, calls: seq<Call>)
    requires IsPlan(payload, binding, prompt, version, limits, m, chunks)
    requires |calls| <= 2 * (|chunks| + 1)
    requires forall k :: 0 <= k < |calls| ==> PromptAt(Opened(limits, |chunks|, start), calls, k)
    ensures Accepted(Opened(m.limits, |m.units|, start), calls)
    ensures |calls| == 2 * (|chunks| + 1) ==> Complete(Run(Opened(m.limits, |m.units|, start), calls), m, m, |chunks|)
  {
    hide IsPlan, Run, PromptAt;
    PlanShape(payload, binding, prompt, version, limits, m, chunks);
    StaticSuffices(Opened(limits, |chunks|, start), calls);
  }
}
