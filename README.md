# xunpack parser, modelled in Dafny

xunpack reads a multi-document manifest stream and flattens it. Each document is decoded.
A Crossplane `Provider` has its package image fetched; the image layers are scanned for
`package.yaml`, and that manifest is re-split into documents. Documents in the
`meta.pkg.crossplane.io` group are dropped from it. A v1 `CompositeResourceDefinition`
(XRD) is turned into one CustomResourceDefinition. Everything else is dropped. The results
go through a channel to a single sink, which writes each one behind a `---\n` header.

The project models `internal/parser/parser.go`:

- `bytes.dfy` (module `Bytes`): `strings.Split(…, "---")` as used by `Run` and `parseManifest`. It is a raw, leftmost, non-overlapping substring split, and `Join` is its left inverse: `Join(Split(s)) == s`. The other direction fails for pieces that contain "---".
- `objects.dfy` (module `Objects`): the error, GVK, object and CRD values the parser reads. It also holds the two routing tests and the Kind/APIVersion rewrite.
- `extract.dfy` (module `Extract`): `extractPackageManifest` and the layer loop of `unpack`. Both are first-match loops with early return, proved against specification functions.
- `bufwriter.dfy` (module `BufferedWriter`): the `bufio.Writer` that `handleResource` prints into (see Findings).
- `handle.dfy` (module `Handle`): `parseManifest` (a loop, proved against `SubDocuments`), `handleResource`, and the task closure of `Run`.
- `pipeline.dfy` (module `Pipeline`): `abort`, `exit`, the sink loop, the split-and-push loop of `Run`, and the run as a whole.

The collaborators are function-valued fields of `Handle.Env`:

- the decoder;
- image retrieval and materialisation, which give a sequence of layers or an error;
- `xcrd.ForCompositeResource`;
- the printer, modelled as the writes it makes, or its error.

The destination writer is a function giving the outcome of its i-th `Write` call. A
successful decode is a `Decoding`: its object has the Go type the routed GVK asserts. This is
what makes `obj.(*crossplanev1.Provider)` and the XRD assertion safe. The decoder built in
main.go, from a scheme holding only those types, provides it.

Some behaviour of parser.go that the model keeps as it is:

- An XRD yields exactly one document: the output of `xcrd.ForCompositeResource`, with its Kind and APIVersion rewritten (parser.go:135-149).
- Every decode error on a sub-document means the piece is passed through unchanged, whatever the cause (parser.go:166-167).
- Sub-documents are always sent as their raw bytes (parser.go:167, :171).
- A sink write error cancels the context only under `FailFast` (parser.go:44-46).
- The XRD document is `b.Bytes()` of an unflushed buffered writer (parser.go:143-149; see Findings).

## Model

| member | source | states |
|---|---|---|
| Bytes.IndexOfBoundary | internal/parser/parser.go:85 | the index found is an occurrence of "---" with none before it; none is found iff the input has no occurrence |
| Bytes.JoinSplit | internal/parser/parser.go:85 | joining the pieces of the split with "---" gives back exactly the input |
| Bytes.SplitPiecesHaveNoBoundary | internal/parser/parser.go:156 | no piece contains "---", even one inside a YAML scalar: the split is not YAML-aware |
| Bytes.SplitIsLeftmost | internal/parser/parser.go:156 | every piece but the last ends at the leftmost remaining "---" occurrence |
| Bytes.SplitWithoutBoundary | internal/parser/parser.go:85 | an input with no "---" (the empty input included) is one piece, itself |
| Objects.Retyped | internal/parser/parser.go:140-141 | the CRD gets Kind CustomResourceDefinition and APIVersion apiextensions.k8s.io/v1, and its content is unchanged |
| Objects.RoutesAreDisjoint | internal/parser/parser.go:121-133 | no GVK takes both the Provider branch and the XRD branch |
| Extract.FirstManifestHeader | internal/parser/parser.go:254-270 | the index found is a header named exactly package.yaml, with no earlier one; none is found iff no header has that name |
| Extract.ExtractPackageManifest | internal/parser/parser.go:251-272 | returns the contents of the first package.yaml entry; if the stream runs out it returns the error that ended it (io.EOF or any other, unchanged); tr.Next() is called only up to the match |
| Extract.LaterHeadersIrrelevant | internal/parser/parser.go:268-270 | headers after the first package.yaml change neither the result nor the number of reads |
| Extract.FirstDecisiveLayer | internal/parser/parser.go:213-245 | the index found is the first layer not passed over (io.EOF scan, empty manifest); none is found iff every layer is passed over |
| Extract.UnpackLayersLoop | internal/parser/parser.go:212-247 | the first layer with a non-empty manifest wins, in order, and no later layer is examined; a preparation error or a non-EOF scan error aborts with that error; io.EOF when no layer decides |
| Extract.UnpackPackage | internal/parser/parser.go:179-247 | a failed fetch or materialisation is returned unchanged; otherwise the layer loop decides |
| Extract.UnpackFindsFirstManifest | internal/parser/parser.go:236-244 | unpack returns manifest m iff some layer yields m and every earlier layer is passed over |
| Extract.UnpackNotFound | internal/parser/parser.go:238-247 | unpack returns io.EOF iff every layer is passed over, or the first deciding layer failed with io.EOF while being prepared |
| Extract.UnpackedManifestIsNonEmpty | internal/parser/parser.go:242-244 | a returned manifest is never empty |
| Extract.LaterLayersIrrelevant | internal/parser/parser.go:242-244 | layers after the deciding one change neither the result nor the number of layers examined |
| BufferedWriter.Write | internal/parser/parser.go:144 | a write through the 4096-byte buffer loses and reorders nothing, keeps what was already delivered, and leaves at most 4096 bytes pending |
| BufferedWriter.WriteAllKeepsEverything | internal/parser/parser.go:144 | after all the printer's writes, delivered plus pending bytes are exactly what it wrote, in order |
| BufferedWriter.PrintedIsEverythingWritten | internal/parser/parser.go:143-149 | with a flush before b.Bytes(), the emitted document is exactly what the printer wrote |
| BufferedWriter.AsWrittenIsTruncatedPrefix | internal/parser/parser.go:143-149 | without the flush, the emitted document is a prefix of what the printer wrote and can miss up to 4096 trailing bytes |
| BufferedWriter.SmallDocumentIsLost | internal/parser/parser.go:143-149 | without the flush, a CRD printed in one write of 1 to 4096 bytes is emitted as an empty document |
| Handle.SubDocuments | internal/parser/parser.go:155-177 | parseManifest sends no more documents than there are pieces |
| Handle.SubDocumentsAppend | internal/parser/parser.go:156-174 | the pieces are sent in input order |
| Handle.SubDocumentsMembers | internal/parser/parser.go:157-173 | a document is sent iff it is a non-empty piece that does not decode into meta.pkg.crossplane.io; a decode error means it is sent |
| Handle.ParseManifest | internal/parser/parser.go:155-177 | sends the kept pieces, verbatim and in order, and always returns nil |
| Handle.EmptyPieceDoesNothing | internal/parser/parser.go:87-89 | a zero-length piece sends nothing and returns nil |
| Handle.UndecodablePieceDropped | internal/parser/parser.go:91-97 | a top-level piece that fails to decode sends nothing and returns nil, never an error |
| Handle.OnlyRoutedKindsAct | internal/parser/parser.go:120-153 | a task sends or fails only for group pkg.crossplane.io with kind Provider, or for apiextensions.crossplane.io/v1 CompositeResourceDefinition; any other GVK sends nothing and returns nil |
| Handle.CompositeDefinitionSendsOneCrd | internal/parser/parser.go:133-150 | an XRD sends exactly one document or fails with nothing sent; a synthesis or printing error is returned unchanged; the CRD printed has Kind CustomResourceDefinition and APIVersion apiextensions.k8s.io/v1; the document sent is a prefix of what the printer wrote, at most 4096 bytes short (the writer is not flushed) |
| Handle.FlushedCompositeSendsWholeCrd | internal/parser/parser.go:143-149 | with a flush before b.Bytes(), the XRD branch fails with the same errors and otherwise sends everything the printer wrote |
| Handle.ProviderIsUnpacked | internal/parser/parser.go:121-132 | a Provider of any version is unpacked: an unpack error is returned with nothing sent; otherwise the non-empty manifest's sub-documents are sent and nil is returned |
| Handle.MetaDocumentsNeverSent | internal/parser/parser.go:169-172 | a sub-document that decodes into meta.pkg.crossplane.io is never sent for a Provider |
| Pipeline.Abort | internal/parser/parser.go:39-49 | abort returns its error unchanged; it cancels iff FailFast is set and the error is non-nil |
| Pipeline.Exit | internal/parser/parser.go:110-118 | exit terminates iff some waiter returns an error and AllowFailure is off; it stops at the first such waiter and waits for all of them otherwise |
| Pipeline.FramedAppend | internal/parser/parser.go:61-78 | the sink's output for two runs of manifests is the concatenation of the outputs |
| Pipeline.Documents | internal/parser/parser.go:71 | each written document is a newline followed by the manifest |
| Pipeline.FramedIsJoinedDocuments | internal/parser/parser.go:71 | the output is a "---"-joined stream: an empty leading piece, then one document per manifest in receive order |
| Pipeline.FirstFailedWrite | internal/parser/parser.go:71-75 | the index found is a failing write with none failing before it; none is found iff every write succeeds |
| Pipeline.Sink | internal/parser/parser.go:61-78 | writes "---\n" and each received manifest in receive order, up to the first failing write; returns abort of that error, which cancels iff FailFast |
| Pipeline.FirstTaskError | internal/parser/parser.go:104 | the pool reports an error returned by some task, and none iff no task failed |
| Pipeline.RunTasks | internal/parser/parser.go:85-104 | queues every task's sends, task after task, and reports the first task error |
| Pipeline.Run | internal/parser/parser.go:35-108 | a read error is returned; otherwise the tasks run, exit checks the pool, the sink drains, exit checks the sink, and nil is returned |
| Pipeline.AllSentMembers | internal/parser/parser.go:85-100 | a manifest is queued iff some piece's task sent it |
| Pipeline.AllSentAppend | internal/parser/parser.go:85-100 | a task's sends are queued together and in the order it made them |
| Pipeline.QuietTasksSendNothing | internal/parser/parser.go:85-104 | tasks that do nothing queue nothing and the pool reports no error |
| Pipeline.QuietInputWritesNothing | internal/parser/parser.go:35-108 | if every piece is empty, undecodable or of an unrouted kind, the run completes and writes nothing |
| Pipeline.EmptyInputWritesNothing | internal/parser/parser.go:35-108 | an empty input writes nothing and Run returns nil |
| Pipeline.TerminatesIffErrorAndNotAllowed | internal/parser/parser.go:104-118 | the process terminates iff a task or a write failed and AllowFailure is off |
| Pipeline.Delivered | internal/parser/parser.go:66-75 | the sink writes at most as many manifests as it receives |
| Pipeline.SinkWritesReceivedPrefix | internal/parser/parser.go:61-78 | the sink writes a framed prefix of what it received; it writes all of it and returns nil iff no write fails |
| Pipeline.CompletedWritesQueuedManifests | internal/parser/parser.go:35-108 | a completed run has written the framed prefix of the queued manifests that the destination accepted |

## Left out

- main.go is not modelled: flag and environment parsing, the logger, opening the files, and building the scheme and printer.
- Image retrieval and materialisation (`name.ParseReference`, `remote.Image`, `os.MkdirTemp`, `os.CreateTemp`, `tarball.Write`, `tarball.ImageFromPath`) form one collaborator with one possible error. Temporary files and their cleanup are not modelled.
- Per layer, `Uncompressed`, `CreateTemp`, `io.Copy` and `Seek` are folded into one result: the layer's tar stream, or the first error they return.
- The error of `ociImage.Layers()` is discarded by the source (parser.go:212). The model sees a failed listing as an image with no layers, which then gives `io.EOF`.
- The printer is modelled as a function of the CRD alone. main.go:79 shares one `printers.YAMLPrinter` across all tasks, and that printer writes "---\n" before every object after its first. So the same CRD prints differently on later calls, as two writes instead of one. This also affects which inputs show the Findings row.
- With the decoder main.go builds (main.go:66-70, a scheme holding only `pkg.crossplane.io/v1` and `apiextensions.crossplane.io/v1`), a `meta.pkg.crossplane.io` document fails to decode and is therefore passed through (parser.go:166-167). `Handle.MetaDocumentsNeverSent` holds for any decoder, but with that one its hypothesis is never met.
- The decoder, `xcrd.ForCompositeResource` and the YAML printer are uninterpreted. Only the group, version and kind that are read, and the Kind and APIVersion that are written, are modelled.
- Concurrency is not modelled: the worker pool, goroutines, the bounded channel's interleaving of tasks, and the `Workers` setting. The model runs one schedule, with tasks in input order and then the sink draining. That is the order a single worker gives. Only the order within one task is the source's guarantee.
- Context cancellation is left out. `Sink` reports whether `abort` cancelled, but the effect of cancelling on the pool and the sink's early `ctx.Done()` branch are not modelled. The worker package is not part of this model.
- A hang after a write error is not modelled. The sends at parser.go:149, :167 and :171 are plain `out <-`, with no select on `ctx.Done()`. Once the sink has returned on a write error (parser.go:74), any send beyond the channel's `Workers` slots (parser.go:59) blocks forever, so `exit(pool)` (parser.go:104) never returns, whatever `FailFast` and `AllowFailure` are. On such a run the program never reaches the `ExitedAfterSink` or `Completed` results of `Pipeline.RunSpec`. `Pipeline.TerminatesIffErrorAndNotAllowed` and `Pipeline.CompletedWritesQueuedManifests` describe the run of the modelled schedule, where the sink drains only after all tasks have finished.
- The model assumes each task sees its own piece (per-iteration loop variables). The Go version in use is not part of this model.
- `os.Exit` and logging are modelled as the `ExitedAfterTasks`/`ExitedAfterSink` results. What the concurrent sink had written before an exit after the pool is not modelled, because it depends on scheduling.
- Pipeline.Sink: a failing `Write` counts as writing nothing of that manifest. Partial writes are not modelled.

## Findings

| source | as written | input that shows it | evidently intended | confidence | as-written member | corrected member |
|---|---|---|---|---|---|---|
| internal/parser/parser.go:143-149 | the CRD is printed into `bufio.NewWriter(&b)` and `b.Bytes()` is read without `Flush`, so bytes still in the 4096-byte buffer are never emitted | an XRD whose CRD the printer writes in one call of 1 to 4096 bytes: the document sent is empty, so the sink writes only "---\n" | the document is everything the printer wrote (flush before reading `b`) | not executed; medium, because it relies on `bufio.Writer`'s documented buffering | BufferedWriter.SmallDocumentIsLost | Handle.FlushedCompositeSendsWholeCrd |

A single write of more than 4096 bytes into the empty buffer is passed straight through, so a large CRD printed first loses nothing. `Handle.CompositeOutcome`, which the pipeline uses, sends the unflushed document as the program does. `Handle.FlushedCompositeOutcome` is the corrected branch, and `BufferedWriter.PrintedIsEverythingWritten` proves that its document is everything the printer wrote.
