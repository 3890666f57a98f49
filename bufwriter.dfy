/**
 * The `bufio.NewWriter(&b)` that `handleResource` hands to the printer (parser.go:143-149):
 * a 4096-byte buffered writer in front of a `bytes.Buffer`, whose writes never fail.
 * `b.Bytes()` is read without a `Flush`, so only what the buffered writer has passed on
 * reaches the emitted document.
 */
module BufferedWriter {
  import opened Bytes

  /** `bufio.NewWriter`'s default buffer size. */
  const BufferSize: nat := 4096

  /** `delivered`: the bytes already in the `bytes.Buffer`; `pending`: those still in the buffer. */
  datatype Writer = Writer(delivered: Bytes, pending: Bytes)

  predicate Valid(w: Writer)
  {
    |w.pending| <= BufferSize
  }

  function Concat(chunks: seq<Bytes>): Bytes
  {
    if chunks == [] then [] else chunks[0] + Concat(chunks[1..])
  }

  /**
   * `bufio.Writer.Write`: while the data does not fit the space left, either hand it straight
   * through (when the buffer is empty) or top the buffer up and flush it; then buffer the rest.
   * No byte is lost or reordered, and what was delivered stays delivered.
   */
  function Write(w: Writer, p: Bytes): (r: Writer)
    requires Valid(w)
    ensures Valid(r)
    ensures r.delivered + r.pending == w.delivered + w.pending + p
    ensures |w.delivered| <= |r.delivered| && r.delivered[..|w.delivered|] == w.delivered
    decreases |p| + |w.pending|
  {
    if |p| <= BufferSize - |w.pending| then
      Writer(w.delivered, w.pending + p)
    else if |w.pending| == 0 then
      Writer(w.delivered + p, [])
    else
      var n := BufferSize - |w.pending|;
      var next := Write(Writer(w.delivered + w.pending + p[..n], []), p[n..]);
      assert w.pending + p == w.pending + p[..n] + p[n..];
      next
  }

  /** The writes the printer issues, one after another. */
  function WriteAll(w: Writer, chunks: seq<Bytes>): (r: Writer)
    requires Valid(w)
    ensures Valid(r)
    decreases |chunks|
  {
    if chunks == [] then w else WriteAll(Write(w, chunks[0]), chunks[1..])
  }

  /** `bufio.Writer.Flush`. */
  function Flush(w: Writer): Writer
  {
    Writer(w.delivered + w.pending, [])
  }

  /** The document as the source emits it: `b.Bytes()` with no `Flush` before it. */
  function PrintedAsWritten(chunks: seq<Bytes>): Bytes
  {
    WriteAll(Writer([], []), chunks).delivered
  }

  /** The document as evidently intended: `b.Bytes()` after flushing the buffered writer. */
  function Printed(chunks: seq<Bytes>): Bytes
  {
    Flush(WriteAll(Writer([], []), chunks)).delivered
  }

  lemma {:induction false} WriteAllKeepsEverything(w: Writer, chunks: seq<Bytes>)
    requires Valid(w)
    ensures WriteAll(w, chunks).delivered + WriteAll(w, chunks).pending == w.delivered + w.pending + Concat(chunks)
    ensures |w.delivered| <= |WriteAll(w, chunks).delivered|
    ensures WriteAll(w, chunks).delivered[..|w.delivered|] == w.delivered
    decreases |chunks|
  {
    if chunks != [] {
      var w' := Write(w, chunks[0]);
      WriteAllKeepsEverything(w', chunks[1..]);
      assert Concat(chunks) == chunks[0] + Concat(chunks[1..]);
    }
  }

  /** With the flush, the emitted document is exactly everything the printer wrote, in order. */
  lemma PrintedIsEverythingWritten(chunks: seq<Bytes>)
    ensures Printed(chunks) == Concat(chunks)
  {
    WriteAllKeepsEverything(Writer([], []), chunks);
  }

  /**
   * Without the flush, the emitted document is a prefix of what the printer wrote and may miss
   * up to a whole buffer's worth of its end.
   */
  lemma AsWrittenIsTruncatedPrefix(chunks: seq<Bytes>)
    ensures |PrintedAsWritten(chunks)| <= |Concat(chunks)|
    ensures PrintedAsWritten(chunks) == Concat(chunks)[..|PrintedAsWritten(chunks)|]
    ensures |Concat(chunks)| - |PrintedAsWritten(chunks)| <= BufferSize
  {
    var w := WriteAll(Writer([], []), chunks);
    WriteAllKeepsEverything(Writer([], []), chunks);
    assert w.delivered + w.pending == Concat(chunks);
    assert Concat(chunks)[..|w.delivered|] == w.delivered;
  }

  /**
   * The discrepancy: a CRD that the printer writes in one call of at most 4096 bytes stays in
   * the buffer, and the document emitted for it is empty.
   */
  lemma SmallDocumentIsLost(p: Bytes)
    requires 0 < |p| <= BufferSize
    ensures PrintedAsWritten([p]) == []
    ensures Printed([p]) == p
  {
    assert WriteAll(Writer([], []), [p]) == WriteAll(Write(Writer([], []), p), []);
  }
}
