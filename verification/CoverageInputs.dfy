/** Which inputs `plan` of scripts/bounded_review.py admits, in the words of its checks. */
module CoverageInputs {
  import opened Common
  import opened Utf8
  import opened PathQuoting
  import opened DiffGrammar
  import opened DiffPrinter
  import opened Coverage

  /** Letters, digits, `_`, `.` and `-`. */
  predicate Word(s: Bytes) {
    s != [] && forall k :: 0 <= k < |s| ==>
      || 'A' as int <= s[k] <= 'Z' as int || 'a' as int <= s[k] <= 'z' as int || '0' as int <= s[k] <= '9' as int
      || s[k] == '_' as int || s[k] == '.' as int || s[k] == '-' as int
  }

  /** A repository is an owner and a name with a slash between them. */
  lemma RepositoryIs(s: Bytes)
    ensures RepositoryName(s) <==> exists owner: Bytes, name: Bytes :: Word(owner) && Word(name) && s == owner + ['/' as int] + name
  {
    if RepositoryName(s) {
      var k :| 0 < k < |s| - 1 && s[k] == SLASH && forall j :: 0 <= j < |s| && j != k ==> NameByte(s[j]);
      var owner, name := s[..k], s[k + 1..];
      assert Word(owner) && Word(name) && s == owner + ['/' as int] + name;
    }
    if owner: Bytes, name: Bytes :| Word(owner) && Word(name) && s == owner + ['/' as int] + name {
      var k := |owner|;
      forall j | 0 <= j < |s| && j != k ensures NameByte(s[j]) {
        assert j < k ==> s[j] == owner[j];
        assert j > k ==> s[j] == name[j - k - 1];
      }
      assert 0 < k < |s| - 1 && s[k] == SLASH;
    }
  }

  /** A binding names a repository and four objects. */
  lemma BindingIs(b: Binding)
    ensures ValidBinding(b) <==>
      && RepositoryName(b.repository)
      && forall blob :: blob in [b.base, b.head, b.mergeBase, b.tree] ==> Hexadecimal(blob)
  {
    hide RepositoryName, Hexadecimal, IsBlob;
    forall blob | blob in [b.base, b.head, b.mergeBase, b.tree] ensures Hexadecimal(blob) <==> IsBlob(blob) {
      BlobsAreHexadecimal(blob);
    }
    var blobs := [b.base, b.head, b.mergeBase, b.tree];
    assert b.base == blobs[0] && b.head == blobs[1] && b.mergeBase == blobs[2] && b.tree == blobs[3];
  }

  predicate Between(low: int, x: int, high: int) {
    low <= x && x <= high
  }

  lemma {:induction false} ConcatHolds(groups: seq<seq<Bytes>>, p: Bytes)
    ensures p in Concat(groups) <==> exists g, k :: 0 <= g < |groups| && 0 <= k < |groups[g]| && groups[g][k] == p
  {
    if groups != [] {
      ConcatHolds(groups[1..], p);
      if p in groups[0] {
        var k :| 0 <= k < |groups[0]| && groups[0][k] == p;
      }
      if p in Concat(groups[1..]) {
        var g, k :| 0 <= g < |groups[1..]| && 0 <= k < |groups[1..][g]| && groups[1..][g][k] == p;
        assert groups[g + 1][k] == p;
      }
      if g, k :| 0 <= g < |groups| && 0 <= k < |groups[g]| && groups[g][k] == p {
        assert g > 0 ==> groups[1..][g - 1][k] == p;
      }
    }
  }

  lemma DistinctSplit(a: seq<Bytes>, b: seq<Bytes>)
    ensures Distinct(a + b) <==> Distinct(a) && Distinct(b) && forall p :: p in a ==> p !in b
  {
    var s := a + b;
    if Distinct(s) {
      forall j, k | 0 <= j < k < |a| ensures a[j] != a[k] {
        assert s[j] != s[k];
      }
      forall j, k | 0 <= j < k < |b| ensures b[j] != b[k] {
        assert s[|a| + j] != s[|a| + k];
      }
      forall p | p in a ensures p !in b {
        var j :| 0 <= j < |a| && a[j] == p;
        forall k | 0 <= k < |b| ensures b[k] != p {
          assert s[j] != s[|a| + k];
        }
      }
    }
    if Distinct(a) && Distinct(b) && forall p :: p in a ==> p !in b {
      forall j, k | 0 <= j < k < |s| ensures s[j] != s[k] {
        assert j < |a| ==> s[j] in a;
        assert k >= |a| ==> s[k] in b;
        assert j >= |a| ==> s[j] == b[j - |a|] && s[k] == b[k - |a|];
      }
    }
  }

  ghost predicate Same(groups: seq<seq<Bytes>>, g: nat, j: nat, h: nat, k: nat) {
    g < |groups| && h < |groups| && j < |groups[g]| && k < |groups[h]| && groups[g][j] == groups[h][k]
  }

  /** No path stands in two places. */
  ghost predicate Apart(groups: seq<seq<Bytes>>) {
    forall g: nat, j: nat, h: nat, k: nat :: Same(groups, g, j, h, k) ==> g == h && j == k
  }

  lemma {:induction false} ApartIs(groups: seq<seq<Bytes>>)
    ensures Distinct(Concat(groups)) <==> Apart(groups)
  {
    if groups != [] {
      var head, rest := groups[0], groups[1..];
      ApartIs(rest);
      DistinctSplit(head, Concat(rest));
      hide Concat, Distinct;
      forall p ensures p in Concat(rest) <==> exists g, k :: 0 <= g < |rest| && 0 <= k < |rest[g]| && rest[g][k] == p {
        ConcatHolds(rest, p);
      }
      if Apart(groups) {
        HeadApart(groups);
      }
      if Apart(rest) && DistinctOf(head) && forall p :: p in head ==> p !in Concat(rest) {
        WholeApart(groups);
      }
      DistinctIs(head);
    } else {
      assert Concat(groups) == [];
    }
  }

  ghost predicate DistinctOf(paths: seq<Bytes>) {
    forall j, k :: 0 <= j < |paths| && 0 <= k < |paths| && paths[j] == paths[k] ==> j == k
  }

  lemma DistinctIs(paths: seq<Bytes>)
    ensures Distinct(paths) <==> DistinctOf(paths)
  {
    if DistinctOf(paths) {
      forall j, k | 0 <= j < k < |paths| ensures paths[j] != paths[k] {
      }
    }
  }

  lemma HeadApart(groups: seq<seq<Bytes>>)
    requires groups != [] && Apart(groups)
    ensures Apart(groups[1..]) && DistinctOf(groups[0])
    ensures forall j, g, k :: 0 <= j < |groups[0]| && 0 <= g < |groups[1..]| && 0 <= k < |groups[1..][g]| ==>
              groups[1..][g][k] != groups[0][j]
  {
    var rest := groups[1..];
    forall g: nat, j: nat, h: nat, k: nat | Same(rest, g, j, h, k) ensures g == h && j == k {
      assert Same(groups, g + 1, j, h + 1, k);
    }
    forall j, k | 0 <= j < |groups[0]| && 0 <= k < |groups[0]| && groups[0][j] == groups[0][k] ensures j == k {
      assert Same(groups, 0, j, 0, k);
    }
    forall j, g, k | 0 <= j < |groups[0]| && 0 <= g < |rest| && 0 <= k < |rest[g]| ensures rest[g][k] != groups[0][j] {
      assert !Same(groups, 0, j, g + 1, k);
      assert groups[g + 1] == rest[g];
    }
  }

  lemma WholeApart(groups: seq<seq<Bytes>>)
    requires groups != [] && Apart(groups[1..]) && DistinctOf(groups[0])
    requires forall p :: p in groups[0] ==> p !in Concat(groups[1..])
    ensures Apart(groups)
  {
    hide Concat;
    var rest := groups[1..];
    forall g: nat, j: nat, h: nat, k: nat | Same(groups, g, j, h, k) ensures g == h && j == k {
      var p := groups[g][j];
      if g > 0 {
        assert rest[g - 1][j] == p;
        ConcatHolds(rest, p);
      }
      if h > 0 {
        assert rest[h - 1][k] == p;
        ConcatHolds(rest, p);
      }
      if g > 0 && h > 0 {
        assert Same(rest, g - 1, j, h - 1, k);
      }
    }
  }

  /** A policy: its budgets within the fixed ones, and at most 64 groups of at most 128 paths. */
  lemma PolicyIs(l: Limits)
    ensures ValidPolicy(l) <==>
      && Between(1, l.maxUnits, 64) && Between(1, l.maxTotalBytes, 64 * 199999)
      && Between(1, l.maxReviewSeconds, 7200) && Between(1, l.perReviewSeconds, 100)
      && Between(1, l.maxCost, 66000000) && Between(1, l.perReviewCost, 1000000) && Between(1, l.maxWip, 1)
      && |l.groups| <= 64 && (forall g :: 0 <= g < |l.groups| ==> Between(1, |l.groups[g]|, 128))
      && Apart(l.groups) && (forall g, k :: 0 <= g < |l.groups| && 0 <= k < |l.groups[g]| ==> ValidPath(l.groups[g][k]))
  {
    ApartIs(l.groups);
    ValidIs(l.groups);
    hide Apart, Distinct, ValidPath, Concat;
  }

  lemma ValidIs(groups: seq<seq<Bytes>>)
    ensures (forall k :: 0 <= k < |Concat(groups)| ==> ValidPath(Concat(groups)[k]))
       <==> (forall g, k :: 0 <= g < |groups| && 0 <= k < |groups[g]| ==> ValidPath(groups[g][k]))
  {
    hide Concat, ValidPath;
    var all := Concat(groups);
    forall p ensures p in all <==> exists g, k :: 0 <= g < |groups| && 0 <= k < |groups[g]| && groups[g][k] == p {
      ConcatHolds(groups, p);
    }
    if forall k :: 0 <= k < |all| ==> ValidPath(all[k]) {
      forall g, k | 0 <= g < |groups| && 0 <= k < |groups[g]| ensures ValidPath(groups[g][k]) {
        assert groups[g][k] in all;
      }
    }
    if forall g, k :: 0 <= g < |groups| && 0 <= k < |groups[g]| ==> ValidPath(groups[g][k]) {
      forall k | 0 <= k < |all| ensures ValidPath(all[k]) {
        assert all[k] in all;
      }
    }
  }

  /** The prompt is text of at most a million bytes, its version not empty. */
  lemma PromptIs(prompt: Bytes, version: Bytes)
    ensures ValidPrompt(prompt, version) <==> Text(prompt) && Between(1, |prompt|, 1000000) && Between(1, |version|, 100)
  {
    hide Text;
  }
}
