/** Small shared vocabulary: optional values, results, and a stream as a list of chunks. */
module Common {

  datatype Option<+T> = None | Some(value: T)

  /** A value, or the source's exception. */
  datatype Result<+T> = Ok(value: T) | Err

  /** SHA-256 of a content, taken to be injective. */
  datatype Digest<+T> = Sha(content: T)

  /** More digits than this Python's `int` refuses to convert. */
  const MAX_DIGITS := 4300

  /** The whole stream that a list of chunks cuts up. */
  function Concat<T>(chunks: seq<seq<T>>): seq<T> {
    if chunks == [] then [] else chunks[0] + Concat(chunks[1..])
  }

  lemma Regroup<T>(a: seq<T>, b: seq<T>, c: seq<T>)
    ensures a + b + c == a + (b + c)
  {
  }

  lemma {:induction false} ConcatSnoc<T>(chunks: seq<seq<T>>, k: nat)
    requires k < |chunks|
    ensures Concat(chunks[..k + 1]) == Concat(chunks[..k]) + chunks[k]
  {
    if k == 0 {
      assert chunks[..1] == [chunks[0]] && chunks[..0] == [];
    } else {
      ConcatSnoc(chunks[1..], k - 1);
      assert chunks[..k + 1][1..] == chunks[1..][..k] && chunks[..k][1..] == chunks[1..][..k - 1];
    }
  }

  lemma {:induction false} ConcatSplit<T>(chunks: seq<seq<T>>, k: nat)
    requires k <= |chunks|
    ensures Concat(chunks) == Concat(chunks[..k]) + Concat(chunks[k..])
    decreases k
  {
    if k == 0 {
      assert chunks[..0] == [] && chunks[0..] == chunks;
    } else {
      ConcatSplit(chunks, k - 1);
      ConcatSnoc(chunks, k - 1);
      assert chunks[k - 1..][1..] == chunks[k..];
    }
  }
}
