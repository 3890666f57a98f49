/**
 * `extractPackageManifest` and the layer loop of `unpack`: two first-match scans with early exit.
 * A layer is the tar stream its uncompressed temporary file holds, or the error met while
 * producing that file; the image is the sequence of its layers.
 */
module Extract {
  import opened Wrappers
  import opened Bytes
  import opened Objects

  const ManifestName: string := "package.yaml"

  /**
   * One result of `tr.Next()` that is not an error: a header with the result `io.ReadAll(tr)`
   * would give for its contents, or a nil header. `io.ReadAll` never reports `io.EOF`.
   */
  datatype TarHeader = Header(name: string, body: Result<Bytes, Error>) | NilHeader

  /** A tar stream: the headers `tr.Next()` yields, then the error that ends it (`io.EOF` or another). */
  datatype TarStream = TarStream(headers: seq<TarHeader>, end: Error)

  predicate IsManifestHeader(h: TarHeader)
  {
    h.Header? && h.name == ManifestName
  }

  /** The index of the first header named exactly "package.yaml". */
  function FirstManifestHeader(hs: seq<TarHeader>): (r: Option<nat>)
    ensures r.Some? ==> r.value < |hs| && IsManifestHeader(hs[r.value])
    ensures r.Some? ==> forall j :: 0 <= j < r.value ==> !IsManifestHeader(hs[j])
    ensures r.None? <==> forall j :: 0 <= j < |hs| ==> !IsManifestHeader(hs[j])
  {
    if hs == [] then None
    else if IsManifestHeader(hs[0]) then Some(0)
    else match FirstManifestHeader(hs[1..])
      case None => None
      case Some(k) => Some(k + 1)
  }

  /** What scanning one tar stream gives: the first manifest's contents, else the stream's end. */
  function ScanResult(t: TarStream): Result<Bytes, Error>
  {
    match FirstManifestHeader(t.headers)
    case Some(k) => t.headers[k].body
    case None => Err(t.end)
  }

  /** How many times `tr.Next()` is called before the scan returns. */
  function ScanLength(t: TarStream): nat
  {
    match FirstManifestHeader(t.headers)
    case Some(k) => k + 1
    case None => |t.headers| + 1
  }

  /**
   * `extractPackageManifest`: advance the reader until the first header named "package.yaml"
   * and return its contents, reading no later header; if the stream ends first, return the
   * error that ended it (`io.EOF` when it simply ran out). `next` counts the `tr.Next()` calls.
   */
  method ExtractPackageManifest(t: TarStream) returns (r: Result<Bytes, Error>, next: nat)
    ensures r == ScanResult(t)
    ensures next == ScanLength(t)
    ensures (exists k :: 0 <= k < |t.headers| && IsManifestHeader(t.headers[k])) || r == Err(t.end)
  {
    var i := 0;
    while true
      invariant 0 <= i <= |t.headers|
      invariant forall j :: 0 <= j < i ==> !IsManifestHeader(t.headers[j])
      decreases |t.headers| - i
    {
      if i == |t.headers| {
        // tr.Next() reports the error ending the stream; io.EOF and any other error alike are returned
        return Err(t.end), i + 1;
      }
      var header := t.headers[i];
      i := i + 1;
      if header.NilHeader? {
        continue;
      }
      if header.name == ManifestName {
        return header.body, i;
      }
    }
  }

  /** One layer: its tar stream, or the error from `Uncompressed`, `CreateTemp`, `io.Copy` or `Seek`. */
  datatype Layer = Layer(unpacked: Result<TarStream, Error>)

  /** What the layer loop does with one layer. */
  datatype LayerStep = Skip | Found(manifest: Bytes) | Abort(err: Error)

  /**
   * A preparation error aborts, whatever it is; a scan ending in `io.EOF` or an empty
   * "package.yaml" moves on to the next layer; another scan error aborts; non-empty contents win.
   */
  function StepOf(l: Layer): LayerStep
  {
    match l.unpacked
    case Err(e) => Abort(e)
    case Ok(t) =>
      match ScanResult(t)
      case Err(e) => if e == EOF then Skip else Abort(e)
      case Ok(m) => if |m| > 0 then Found(m) else Skip
  }

  /** The index of the first layer that does not just move on. */
  function FirstDecisiveLayer(ls: seq<Layer>): (r: Option<nat>)
    ensures r.Some? ==> r.value < |ls| && !StepOf(ls[r.value]).Skip?
    ensures r.Some? ==> forall j :: 0 <= j < r.value ==> StepOf(ls[j]).Skip?
    ensures r.None? <==> forall j :: 0 <= j < |ls| ==> StepOf(ls[j]).Skip?
  {
    if ls == [] then None
    else if !StepOf(ls[0]).Skip? then Some(0)
    else match FirstDecisiveLayer(ls[1..])
      case None => None
      case Some(k) => Some(k + 1)
  }

  /** The result of the layer loop: decided by the first decisive layer, `io.EOF` if there is none. */
  function UnpackLayers(ls: seq<Layer>): Result<Bytes, Error>
  {
    match FirstDecisiveLayer(ls)
    case None => Err(EOF)
    case Some(k) =>
      match StepOf(ls[k])
      case Found(m) => Ok(m)
      case Abort(e) => Err(e)
  }

  /** How many layers the loop examines before it returns. */
  function LayersExamined(ls: seq<Layer>): nat
  {
    match FirstDecisiveLayer(ls)
    case None => |ls|
    case Some(k) => k + 1
  }

  /**
   * The layer loop of `unpack`: returns the manifest of the first layer whose scan yields
   * non-empty bytes, examining no later layer; a scan ending in `io.EOF` or an empty manifest
   * moves on, any other error returns at once; `io.EOF` when the layers run out.
   */
  method UnpackLayersLoop(ls: seq<Layer>) returns (r: Result<Bytes, Error>, examined: nat)
    ensures r == UnpackLayers(ls)
    ensures examined == LayersExamined(ls)
    ensures r.Ok? ==> |r.value| > 0
  {
    var i := 0;
    while i < |ls|
      invariant 0 <= i <= |ls|
      invariant forall j :: 0 <= j < i ==> StepOf(ls[j]).Skip?
    {
      var layer := ls[i];
      i := i + 1;
      if layer.unpacked.Err? {
        return Err(layer.unpacked.error), i;
      }
      var manifest, next := ExtractPackageManifest(layer.unpacked.value);
      if manifest.Err? && manifest.error != EOF {
        return Err(manifest.error), i;
      }
      if manifest.Ok? && |manifest.value| > 0 {
        return manifest, i;
      }
    }
    return Err(EOF), i;
  }

  /**
   * The image as `ociImage.Layers()` lists it. The error `Layers()` returns is discarded by the
   * source, and the listing it comes with is then empty, so a failed listing is an image with
   * no layers.
   */
  datatype Image = Image(layers: seq<Layer>)

  /** `unpack`: fetch and materialise the image, or fail with that error; then the layer loop. */
  function Unpack(fetch: string -> Result<Image, Error>, package: string): Result<Bytes, Error>
  {
    match fetch(package)
    case Err(e) => Err(e)
    case Ok(img) => UnpackLayers(img.layers)
  }

  method UnpackPackage(fetch: string -> Result<Image, Error>, package: string)
    returns (r: Result<Bytes, Error>)
    ensures r == Unpack(fetch, package)
    ensures fetch(package).Err? ==> r == Err(fetch(package).error)
  {
    var image := fetch(package);
    if image.Err? {
      return Err(image.error);
    }
    var examined;
    r, examined := UnpackLayersLoop(image.value.layers);
  }

  /** `unpack` yields a manifest exactly when some layer has one and every earlier layer is passed over. */
  lemma UnpackFindsFirstManifest(ls: seq<Layer>, m: Bytes)
    ensures UnpackLayers(ls) == Ok(m) <==>
      exists k :: 0 <= k < |ls| && StepOf(ls[k]) == Found(m) && forall j :: 0 <= j < k ==> StepOf(ls[j]).Skip?
  {
    if exists k :: 0 <= k < |ls| && StepOf(ls[k]) == Found(m) && forall j :: 0 <= j < k ==> StepOf(ls[j]).Skip? {
      var k :| 0 <= k < |ls| && StepOf(ls[k]) == Found(m) && forall j :: 0 <= j < k ==> StepOf(ls[j]).Skip?;
      var f := FirstDecisiveLayer(ls);
      assert f.Some? && f.value == k;
    }
  }

  /** A manifest `unpack` returns is never empty. */
  lemma UnpackedManifestIsNonEmpty(ls: seq<Layer>)
    ensures UnpackLayers(ls).Ok? ==> |UnpackLayers(ls).value| > 0
  {
  }

  /** `unpack` reports not found (or an `io.EOF` preparation error) and nothing else when no layer decides. */
  lemma UnpackNotFound(ls: seq<Layer>)
    ensures UnpackLayers(ls) == Err(EOF) <==>
      (forall j :: 0 <= j < |ls| ==> StepOf(ls[j]).Skip?) ||
      exists k :: 0 <= k < |ls| && StepOf(ls[k]) == Abort(EOF) && forall j :: 0 <= j < k ==> StepOf(ls[j]).Skip?
  {
    if exists k :: 0 <= k < |ls| && StepOf(ls[k]) == Abort(EOF) && forall j :: 0 <= j < k ==> StepOf(ls[j]).Skip? {
      var k :| 0 <= k < |ls| && StepOf(ls[k]) == Abort(EOF) && forall j :: 0 <= j < k ==> StepOf(ls[j]).Skip?;
      var f := FirstDecisiveLayer(ls);
      assert f.Some? && f.value == k;
    }
  }

  /** Layers after the deciding one are never looked at: appending layers changes nothing. */
  lemma {:induction false} LaterLayersIrrelevant(ls: seq<Layer>, more: seq<Layer>)
    requires FirstDecisiveLayer(ls).Some?
    ensures UnpackLayers(ls + more) == UnpackLayers(ls)
    ensures LayersExamined(ls + more) == LayersExamined(ls)
  {
    var k := FirstDecisiveLayer(ls).value;
    assert forall j :: 0 <= j < k ==> (ls + more)[j] == ls[j];
    assert (ls + more)[k] == ls[k];
    var f := FirstDecisiveLayer(ls + more);
    assert f.Some? && f.value == k;
  }

  /** Headers after the first "package.yaml" are never read: appending headers changes nothing. */
  lemma {:induction false} LaterHeadersIrrelevant(t: TarStream, more: seq<TarHeader>, end: Error)
    requires FirstManifestHeader(t.headers).Some?
    ensures ScanResult(TarStream(t.headers + more, end)) == ScanResult(t)
    ensures ScanLength(TarStream(t.headers + more, end)) == ScanLength(t)
  {
    var k := FirstManifestHeader(t.headers).value;
    var hs := t.headers + more;
    assert forall j :: 0 <= j < k ==> hs[j] == t.headers[j];
    assert hs[k] == t.headers[k];
    var f := FirstManifestHeader(hs);
    assert f.Some? && f.value == k;
  }
}
