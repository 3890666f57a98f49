/**
 * What one task of `Run` does with one top-level piece: decode it, route it by its
 * group/version/kind in `handleResource`, and, for a Provider, re-split the unpacked package
 * manifest in `parseManifest`. A task's channel sends are returned as the sequence `sent`.
 */
module Handle {
  import opened Wrappers
  import opened Bytes
  import opened Objects
  import opened Extract
  import BufferedWriter

  /** The collaborators the parser only calls. */
  datatype Env = Env(
    /** `Decoder.Decode` */
    decode: Bytes -> Result<Decoding, Error>,
    /** `name.ParseReference`, `remote.Image`, the temporary files and `tarball.ImageFromPath` */
    fetch: string -> Result<Image, Error>,
    /** `xcrd.ForCompositeResource` */
    synthesize: Definition -> Result<Crd, Error>,
    /** `Printer.PrintObj`: the writes it makes to its writer, or its error */
    render: Crd -> Result<seq<Bytes>, Error>)

  /** What a task sent on the manifests channel, in order, and the error it returned. */
  datatype Outcome = Outcome(sent: seq<Bytes>, err: Option<Error>)

  const Nothing := Outcome([], None)

  /** A package sub-document is emitted unless it is empty or decodes as package metadata. */
  predicate EmitsSubDocument(decode: Bytes -> Result<Decoding, Error>, piece: Bytes)
  {
    |piece| > 0 && !(decode(piece).Ok? && decode(piece).value.gvk.group == MetaGroup)
  }

  /** The piece as `parseManifest` sends it: itself or nothing. */
  function SentPiece(decode: Bytes -> Result<Decoding, Error>, piece: Bytes): seq<Bytes>
  {
    if EmitsSubDocument(decode, piece) then [piece] else []
  }

  /** The pieces, in order and verbatim, that `parseManifest` sends. */
  function SubDocuments(decode: Bytes -> Result<Decoding, Error>, pieces: seq<Bytes>): (r: seq<Bytes>)
    ensures |r| <= |pieces|
  {
    if pieces == [] then [] else SentPiece(decode, pieces[0]) + SubDocuments(decode, pieces[1..])
  }

  /** The pieces of two consecutive stretches are sent one stretch after the other. */
  lemma {:induction false} SubDocumentsAppend(decode: Bytes -> Result<Decoding, Error>, a: seq<Bytes>, b: seq<Bytes>)
    ensures SubDocuments(decode, a + b) == SubDocuments(decode, a) + SubDocuments(decode, b)
  {
    if a == [] {
      assert a + b == b;
    } else {
      var head := SentPiece(decode, a[0]);
      assert (a + b)[0] == a[0];
      assert (a + b)[1..] == a[1..] + b;
      SubDocumentsAppend(decode, a[1..], b);
      calc {
        SubDocuments(decode, a + b);
        head + SubDocuments(decode, a[1..] + b);
        head + (SubDocuments(decode, a[1..]) + SubDocuments(decode, b));
        (head + SubDocuments(decode, a[1..])) + SubDocuments(decode, b);
      }
    }
  }

  /**
   * A piece is sent iff it is one of the pieces and is non-empty and does not decode into the
   * meta group; in particular a piece that fails to decode is sent.
   */
  lemma {:induction false} SubDocumentsMembers(decode: Bytes -> Result<Decoding, Error>, pieces: seq<Bytes>, x: Bytes)
    ensures x in SubDocuments(decode, pieces) <==> x in pieces && EmitsSubDocument(decode, x)
  {
    if pieces != [] {
      SubDocumentsMembers(decode, pieces[1..], x);
      assert pieces == [pieces[0]] + pieces[1..];
    }
  }

  /**
   * `parseManifest`: split the manifest on "---" and send each non-empty piece that does not
   * decode into the meta group, verbatim and in order; the error it returns is always nil.
   */
  method ParseManifest(decode: Bytes -> Result<Decoding, Error>, manifest: Bytes)
    returns (sent: seq<Bytes>, err: Option<Error>)
    ensures sent == SubDocuments(decode, Split(manifest))
    ensures err.None?
  {
    var pieces := Split(manifest);
    sent := [];
    for i := 0 to |pieces|
      invariant sent == SubDocuments(decode, pieces[..i])
    {
      var piece := pieces[i];
      assert pieces[..i + 1] == pieces[..i] + [piece];
      SubDocumentsAppend(decode, pieces[..i], [piece]);
      assert SubDocuments(decode, [piece]) == SentPiece(decode, piece) + SubDocuments(decode, []);
      if |piece| == 0 {
        continue;
      }
      var decoded := decode(piece);
      if decoded.Err? {
        sent := sent + [piece];
      } else {
        // exclude meta resources
        if decoded.value.gvk.group != MetaGroup {
          sent := sent + [piece];
        }
      }
    }
    assert pieces[..|pieces|] == pieces;
    err := None;
  }

  /**
   * The XRD branch as written: the synthesised CRD, retyped, printed into an unflushed
   * `bufio.Writer`, and `b.Bytes()` sent.
   */
  function CompositeOutcome(env: Env, def: Definition): Outcome
  {
    match env.synthesize(def)
    case Err(e) => Outcome([], Some(e))
    case Ok(crd) =>
      match env.render(Retyped(crd))
      case Err(e) => Outcome([], Some(e))
      case Ok(chunks) => Outcome([BufferedWriter.PrintedAsWritten(chunks)], None)
  }

  /** The XRD branch as evidently intended: the buffered writer is flushed before `b.Bytes()`. */
  function FlushedCompositeOutcome(env: Env, def: Definition): Outcome
  {
    match env.synthesize(def)
    case Err(e) => Outcome([], Some(e))
    case Ok(crd) =>
      match env.render(Retyped(crd))
      case Err(e) => Outcome([], Some(e))
      case Ok(chunks) => Outcome([BufferedWriter.Printed(chunks)], None)
  }

  /** `handleResource`: Providers are unpacked and re-split, v1 XRDs synthesised, the rest ignored. */
  function HandleResource(env: Env, d: Decoding): Outcome
  {
    if IsProvider(d.gvk) then
      match Unpack(env.fetch, d.obj.package)
      case Err(e) => Outcome([], Some(e))
      case Ok(manifest) => Outcome(SubDocuments(env.decode, Split(manifest)), None)
    else if IsCompositeDefinition(d.gvk) then
      CompositeOutcome(env, d.obj.definition)
    else
      Nothing
  }

  /** The task `Run` pushes for one top-level piece. */
  function Task(env: Env, piece: Bytes): Outcome
  {
    if |piece| == 0 then Nothing
    else match env.decode(piece)
      case Err(_) => Nothing
      case Ok(d) => HandleResource(env, d)
  }

  /** A zero-length piece sends nothing and returns nil. */
  lemma EmptyPieceDoesNothing(env: Env)
    ensures Task(env, []) == Nothing
  {
  }

  /** A top-level piece that fails to decode is dropped silently: no send, no error. */
  lemma UndecodablePieceDropped(env: Env, piece: Bytes)
    requires env.decode(piece).Err?
    ensures Task(env, piece) == Nothing
  {
  }

  /**
   * Only a Provider (any version) or a v1 CompositeResourceDefinition sends anything or fails;
   * every other decoded piece is consumed silently.
   */
  lemma OnlyRoutedKindsAct(env: Env, piece: Bytes)
    ensures Task(env, piece) != Nothing ==>
      |piece| > 0 && env.decode(piece).Ok? &&
      (IsProvider(env.decode(piece).value.gvk) || IsCompositeDefinition(env.decode(piece).value.gvk))
    ensures |piece| > 0 && env.decode(piece).Ok? &&
      !IsProvider(env.decode(piece).value.gvk) && !IsCompositeDefinition(env.decode(piece).value.gvk)
      ==> Task(env, piece) == Nothing
  {
  }

  /**
   * A v1 CompositeResourceDefinition sends exactly one document, printed from the synthesised
   * CRD with kind CustomResourceDefinition and apiVersion apiextensions.k8s.io/v1; or, when
   * synthesis or printing fails, nothing, and that error unchanged. The document is what the
   * unflushed buffered writer passed on: a prefix of what the printer wrote, at most 4096 bytes
   * short of it.
   */
  lemma CompositeDefinitionSendsOneCrd(env: Env, d: Decoding)
    requires IsCompositeDefinition(d.gvk)
    ensures var o := HandleResource(env, d);
      (o.err.None? && |o.sent| == 1) || (o.err.Some? && o.sent == [])
    ensures var o := HandleResource(env, d);
      env.synthesize(d.obj.definition).Err? ==> o.err == Some(env.synthesize(d.obj.definition).error)
    ensures var o := HandleResource(env, d);
      env.synthesize(d.obj.definition).Ok? ==>
        var crd := env.synthesize(d.obj.definition).value;
        var printed := Retyped(crd);
        printed.kind == CrdKind && printed.apiVersion == CrdApiVersion && printed.spec == crd.spec &&
        (env.render(printed).Err? ==> o.err == Some(env.render(printed).error)) &&
        (env.render(printed).Ok? ==>
          var full := BufferedWriter.Concat(env.render(printed).value);
          o.err.None? && |o.sent| == 1 &&
          |o.sent[0]| <= |full| && o.sent[0] == full[..|o.sent[0]|] &&
          |full| - |o.sent[0]| <= BufferedWriter.BufferSize)
  {
    RoutesAreDisjoint(d.gvk);
    var o := HandleResource(env, d);
    if env.synthesize(d.obj.definition).Ok? {
      var crd := env.synthesize(d.obj.definition).value;
      if env.render(Retyped(crd)).Ok? {
        BufferedWriter.AsWrittenIsTruncatedPrefix(env.render(Retyped(crd)).value);
      }
    }
  }

  /**
   * With the flush, the XRD branch sends everything the printer wrote for the retyped CRD, and it
   * fails, with the same errors, exactly when the branch as written fails.
   */
  lemma FlushedCompositeSendsWholeCrd(env: Env, def: Definition)
    ensures FlushedCompositeOutcome(env, def).err == CompositeOutcome(env, def).err
    ensures var o := FlushedCompositeOutcome(env, def);
      o.err.None? ==>
        o.sent == [BufferedWriter.Concat(env.render(Retyped(env.synthesize(def).value)).value)]
  {
    if env.synthesize(def).Ok? && env.render(Retyped(env.synthesize(def).value)).Ok? {
      BufferedWriter.PrintedIsEverythingWritten(env.render(Retyped(env.synthesize(def).value)).value);
    }
  }

  /**
   * A Provider is unpacked: an unpack error is returned and nothing is sent; otherwise the
   * manifest's sub-documents are sent and nil is returned.
   */
  lemma ProviderIsUnpacked(env: Env, d: Decoding)
    requires IsProvider(d.gvk)
    ensures var o := HandleResource(env, d);
      match Unpack(env.fetch, d.obj.package)
      case Err(e) => o == Outcome([], Some(e))
      case Ok(m) => o == Outcome(SubDocuments(env.decode, Split(m)), None) && |m| > 0
  {
    match env.fetch(d.obj.package)
    case Err(_) =>
    case Ok(img) => UnpackedManifestIsNonEmpty(img.layers);
  }

  /** No sub-document of an unpacked package that decodes into the meta group is ever sent. */
  lemma MetaDocumentsNeverSent(env: Env, d: Decoding, x: Bytes)
    requires IsProvider(d.gvk)
    requires env.decode(x).Ok? && env.decode(x).value.gvk.group == MetaGroup
    ensures x !in HandleResource(env, d).sent
  {
    match Unpack(env.fetch, d.obj.package)
    case Err(_) =>
    case Ok(m) => SubDocumentsMembers(env.decode, Split(m), x);
  }
}
