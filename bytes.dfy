/**
 * Byte strings and the document splitting that `Run` and `parseManifest` perform with
 * `strings.Split(string(manifest), "---")`: a raw substring split on every leftmost,
 * non-overlapping occurrence of "---", with no knowledge of YAML.
 */
module Bytes {
  import opened Wrappers

  newtype byte = x: int | 0 <= x < 256

  type Bytes = seq<byte>

  /** The document boundary "---". */
  const Boundary: Bytes := [45, 45, 45]

  /** "---\n", written by the output sink in front of every manifest. */
  const FrameHeader: Bytes := [45, 45, 45, 10]

  /** The boundary occurs in `s` starting at index `i`. */
  predicate BoundaryAt(s: Bytes, i: int)
  {
    0 <= i && i + |Boundary| <= |s| && s[i..i + |Boundary|] == Boundary
  }

  predicate HasBoundary(s: Bytes)
  {
    exists i :: 0 <= i < |s| && BoundaryAt(s, i)
  }

  /** Shifting a boundary occurrence by one byte when the first byte is dropped. */
  lemma BoundaryAtTail(s: Bytes, k: int)
    requires |s| > 0
    ensures BoundaryAt(s[1..], k) <==> k >= 0 && BoundaryAt(s, k + 1)
  {
    if 0 <= k && k + |Boundary| <= |s| - 1 {
      assert s[1..][k..k + |Boundary|] == s[k + 1..k + 1 + |Boundary|];
    }
  }

  /** `strings.Index(s, "---")`: the first index at which the boundary occurs, if any. */
  function IndexOfBoundary(s: Bytes): (r: Option<nat>)
    ensures r.Some? ==> BoundaryAt(s, r.value)
    ensures r.Some? ==> forall j :: 0 <= j < r.value ==> !BoundaryAt(s, j)
    ensures r.None? <==> !HasBoundary(s)
    decreases |s|
  {
    if |s| < |Boundary| then
      assert forall j :: !BoundaryAt(s, j);
      None
    else if s[..|Boundary|] == Boundary then
      assert BoundaryAt(s, 0);
      Some(0)
    else
      match IndexOfBoundary(s[1..])
      case None =>
        assert forall j :: !BoundaryAt(s, j) by {
          forall j ensures !BoundaryAt(s, j) {
            if j >= 1 { BoundaryAtTail(s, j - 1); }
          }
        }
        None
      case Some(k) =>
        BoundaryAtTail(s, k);
        assert forall j :: 0 <= j < k + 1 ==> !BoundaryAt(s, j) by {
          forall j | 0 <= j < k + 1 ensures !BoundaryAt(s, j) {
            if j >= 1 { BoundaryAtTail(s, j - 1); }
          }
        }
        Some(k + 1)
  }

  /** `strings.Split(s, "---")`. */
  function Split(s: Bytes): (pieces: seq<Bytes>)
    ensures |pieces| >= 1
    decreases |s|
  {
    match IndexOfBoundary(s)
    case None => [s]
    case Some(i) => [s[..i]] + Split(s[i + |Boundary|..])
  }

  /** `strings.Join(pieces, "---")`, the inverse of `Split`. */
  function Join(pieces: seq<Bytes>): Bytes
    requires |pieces| >= 1
  {
    if |pieces| == 1 then pieces[0] else pieces[0] + Boundary + Join(pieces[1..])
  }

  /** Joining the pieces with "---" gives back exactly the split input: nothing is lost or reordered. */
  lemma {:induction false} JoinSplit(s: Bytes)
    ensures Join(Split(s)) == s
    decreases |s|
  {
    match IndexOfBoundary(s)
    case None =>
    case Some(i) =>
      var rest := s[i + |Boundary|..];
      JoinSplit(rest);
      assert Split(s) == [s[..i]] + Split(rest);
      assert Split(s)[1..] == Split(rest);
      assert s == s[..i] + Boundary + rest;
  }

  /** No piece contains "---": the input is cut at every occurrence. */
  lemma {:induction false} SplitPiecesHaveNoBoundary(s: Bytes)
    ensures forall k :: 0 <= k < |Split(s)| ==> !HasBoundary(Split(s)[k])
    decreases |s|
  {
    match IndexOfBoundary(s)
    case None =>
    case Some(i) =>
      var rest := s[i + |Boundary|..];
      SplitPiecesHaveNoBoundary(rest);
      var piece := s[..i];
      forall j | BoundaryAt(piece, j) ensures false {
        assert piece[j..j + |Boundary|] == s[j..j + |Boundary|];
        assert BoundaryAt(s, j);
      }
      assert Split(s) == [piece] + Split(rest);
  }

  /**
   * Every piece but the last ends where the leftmost boundary starts: in the piece followed by
   * "---", the first occurrence is the appended one. With `JoinSplit` this pins the split down
   * among all ways of writing the input as pieces joined by "---".
   */
  lemma {:induction false} SplitIsLeftmost(s: Bytes)
    ensures forall k :: 0 <= k < |Split(s)| - 1 ==>
      IndexOfBoundary(Split(s)[k] + Boundary) == Some(|Split(s)[k]|)
    decreases |s|
  {
    match IndexOfBoundary(s)
    case None =>
    case Some(i) =>
      var rest := s[i + |Boundary|..];
      SplitIsLeftmost(rest);
      var piece := s[..i];
      var framed := piece + Boundary;
      assert framed == s[..i + |Boundary|];
      assert BoundaryAt(framed, i) by {
        assert framed[i..i + |Boundary|] == Boundary;
      }
      forall j | 0 <= j < i ensures !BoundaryAt(framed, j) {
        if BoundaryAt(framed, j) {
          assert framed[j..j + |Boundary|] == s[j..j + |Boundary|];
          assert BoundaryAt(s, j);
        }
      }
      var r := IndexOfBoundary(framed);
      assert r.Some?;
      assert r.value == i;
      assert Split(s) == [piece] + Split(rest);
  }

  /** An input without "---" is a single piece, itself (the empty input gives one empty piece). */
  lemma SplitWithoutBoundary(s: Bytes)
    requires !HasBoundary(s)
    ensures Split(s) == [s]
  {
  }
}
