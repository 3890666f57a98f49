/**
 * `Run`, `abort` and `exit`: split the input, run one task per piece, write every sent manifest
 * to the output behind a "---\n" header, and decide whether the process terminates.
 *
 * The model runs one schedule of the pool: the tasks run one after another in input order and
 * the sink then drains what they sent, which is the order a single worker gives.
 */
module Pipeline {
  import opened Wrappers
  import opened Bytes
  import opened Objects
  import opened Handle

  /** The parser's `AllowFailure` and `FailFast` switches. */
  datatype Config = Config(allowFailure: bool, failFast: bool)

  /** What `abort` returns, and whether it cancelled the run's context. */
  datatype Aborted = Aborted(err: Option<Error>, cancelled: bool)

  /** `abort`: pass the error on; cancel the context only for a non-nil error under `FailFast`. */
  function Abort(err: Option<Error>, failFast: bool): (r: Aborted)
    ensures r.err == err
    ensures r.cancelled <==> failFast && err.Some?
  {
    if err.None? then Aborted(None, false)
    else Aborted(err, failFast)
  }

  /**
   * `exit`: wait for each waiter in turn; the first error, unless `AllowFailure`, terminates the
   * process (`os.Exit(1)`). `waited` is the number of `Wait` calls made.
   */
  method Exit(waits: seq<Option<Error>>, allowFailure: bool) returns (terminates: bool, waited: nat)
    ensures terminates <==> !allowFailure && exists i :: 0 <= i < |waits| && waits[i].Some?
    ensures terminates ==> 0 < waited <= |waits| && waits[waited - 1].Some?
    ensures terminates ==> forall j :: 0 <= j < waited - 1 ==> waits[j].None?
    ensures !terminates ==> waited == |waits|
  {
    waited := 0;
    while waited < |waits|
      invariant waited <= |waits|
      invariant !allowFailure ==> forall j :: 0 <= j < waited ==> waits[j].None?
    {
      var err := waits[waited];
      waited := waited + 1;
      if err.Some? && !allowFailure {
        return true, waited;
      }
    }
    terminates := false;
  }

  /** What the sink writes for the manifests it received, in receive order. */
  function Framed(ms: seq<Bytes>): Bytes
  {
    if ms == [] then [] else Framed(ms[..|ms| - 1]) + FrameHeader + ms[|ms| - 1]
  }

  lemma {:induction false} FramedAppend(a: seq<Bytes>, b: seq<Bytes>)
    ensures Framed(a + b) == Framed(a) + Framed(b)
    decreases |b|
  {
    if b == [] {
      assert a + b == a;
    } else {
      var last := b[|b| - 1];
      assert (a + b)[..|a + b| - 1] == a + b[..|b| - 1];
      FramedAppend(a, b[..|b| - 1]);
    }
  }

  /** Each manifest as the piece that follows its boundary: a newline, then the manifest. */
  function Documents(ms: seq<Bytes>): (ds: seq<Bytes>)
    ensures |ds| == |ms|
    ensures forall i :: 0 <= i < |ms| ==> ds[i] == [10 as byte] + ms[i]
  {
    if ms == [] then [] else Documents(ms[..|ms| - 1]) + [[10 as byte] + ms[|ms| - 1]]
  }

  /**
   * The output is a multi-document stream: an empty piece, then one document per manifest,
   * joined by "---".
   */
  lemma {:induction false} FramedIsJoinedDocuments(ms: seq<Bytes>)
    ensures Framed(ms) == Join([[]] + Documents(ms))
    decreases |ms|
  {
    if ms == [] {
      assert [[]] + Documents(ms) == [[]];
      return;
    }
    var init := ms[..|ms| - 1];
    var last := ms[|ms| - 1];
    var doc := [10 as byte] + last;
    assert FrameHeader == Boundary + [10 as byte];
    assert Documents(ms) == Documents(init) + [doc];
    if init == [] {
      assert Framed(ms) == [] + FrameHeader + last;
      assert [[]] + Documents(ms) == [[], doc];
      assert Join([[], doc]) == [] + Boundary + Join([doc]);
    } else {
      FramedIsJoinedDocuments(init);
      JoinSnoc([[]] + Documents(init), doc);
      assert [[]] + Documents(ms) == ([[]] + Documents(init)) + [doc];
      calc {
        Framed(ms);
        Framed(init) + FrameHeader + last;
        Join([[]] + Documents(init)) + Boundary + doc;
        Join(([[]] + Documents(init)) + [doc]);
      }
    }
  }

  lemma {:induction false} JoinSnoc(pieces: seq<Bytes>, last: Bytes)
    requires |pieces| >= 1
    ensures Join(pieces + [last]) == Join(pieces) + Boundary + last
    decreases |pieces|
  {
    if |pieces| == 1 {
      assert (pieces + [last])[1..] == [last];
    } else {
      assert (pieces + [last])[1..] == pieces[1..] + [last];
      JoinSnoc(pieces[1..], last);
    }
  }

  /** The index of the first `Output.Write` call among the first `n` that fails. */
  function FirstFailedWrite(writeResult: nat -> Option<Error>, n: nat): (r: Option<nat>)
    ensures r.Some? ==> r.value < n && writeResult(r.value).Some?
    ensures r.Some? ==> forall j :: 0 <= j < r.value ==> writeResult(j).None?
    ensures r.None? <==> forall j :: 0 <= j < n ==> writeResult(j).None?
  {
    if n == 0 then None
    else match FirstFailedWrite(writeResult, n - 1)
      case Some(k) => Some(k)
      case None => if writeResult(n - 1).Some? then Some(n - 1) else None
  }

  /**
   * The sink task: write "---\n" followed by each received manifest, in receive order; on the
   * first failing write stop and return `abort` of that error. `writeResult(i)` is the outcome of
   * the i-th `Output.Write` call.
   */
  method Sink(received: seq<Bytes>, writeResult: nat -> Option<Error>, failFast: bool)
    returns (written: Bytes, err: Option<Error>, cancelled: bool)
    ensures (written, err) == SinkResult(received, writeResult)
    ensures cancelled <==> failFast && err.Some?
  {
    written := [];
    var i := 0;
    while i < |received|
      invariant 0 <= i <= |received|
      invariant written == Framed(received[..i])
      invariant forall j :: 0 <= j < i ==> writeResult(j).None?
    {
      var manifest := received[i];
      var result := writeResult(i);
      if result.Some? {
        var aborted := Abort(result, failFast);
        return written, aborted.err, aborted.cancelled;
      }
      assert received[..i + 1][..i] == received[..i];
      written := written + (FrameHeader + manifest);
      i := i + 1;
    }
    assert received[..i] == received;
    err, cancelled := None, false;
  }

  /** The outcome of every piece's task, in input order. */
  function Outcomes(env: Env, pieces: seq<Bytes>): (os: seq<Outcome>)
    ensures |os| == |pieces|
    ensures forall k :: 0 <= k < |pieces| ==> os[k] == Task(env, pieces[k])
  {
    seq(|pieces|, k requires 0 <= k < |pieces| => Task(env, pieces[k]))
  }

  /** The manifests the tasks send, task after task. */
  function AllSent(os: seq<Outcome>): seq<Bytes>
  {
    if os == [] then [] else AllSent(os[..|os| - 1]) + os[|os| - 1].sent
  }

  /** What the pool's `Wait` reports: the first error a task returned. */
  function FirstTaskError(os: seq<Outcome>): (r: Option<Error>)
    ensures r.Some? ==> exists k :: 0 <= k < |os| && os[k].err == r
    ensures r.None? <==> forall k :: 0 <= k < |os| ==> os[k].err.None?
  {
    if os == [] then None
    else
      var prefix := FirstTaskError(os[..|os| - 1]);
      assert forall k :: 0 <= k < |os| - 1 ==> os[..|os| - 1][k] == os[k];
      if prefix.Some? then prefix else os[|os| - 1].err
  }

  /** How a run ends. */
  datatype RunResult =
    /** reading the input failed; `Run` returns that error */
    | ReadFailed(err: Error)
    /** `exit(pool)` terminated the process after a task error */
    | ExitedAfterTasks(err: Error)
    /** `exit(outWriter)` terminated the process after a write error */
    | ExitedAfterSink(written: Bytes, err: Error)
    /** `Run` returned nil */
    | Completed(written: Bytes)

  /** What the sink writes and returns for the manifests it receives. */
  function SinkResult(ms: seq<Bytes>, writeResult: nat -> Option<Error>): (Bytes, Option<Error>)
  {
    match FirstFailedWrite(writeResult, |ms|)
    case None => (Framed(ms), None)
    case Some(k) => (Framed(ms[..k]), writeResult(k))
  }

  /** The run as a whole, on the schedule described above. */
  function RunSpec(input: Result<Bytes, Error>, env: Env, cfg: Config, writeResult: nat -> Option<Error>): RunResult
  {
    match input
    case Err(e) => ReadFailed(e)
    case Ok(data) =>
      var os := Outcomes(env, Split(data));
      var poolErr := FirstTaskError(os);
      if poolErr.Some? && !cfg.allowFailure then ExitedAfterTasks(poolErr.value)
      else
        var (written, sinkErr) := SinkResult(AllSent(os), writeResult);
        if sinkErr.Some? && !cfg.allowFailure then ExitedAfterSink(written, sinkErr.value)
        else Completed(written)
  }

  /** The loop of `Run` that pushes one task per piece, and the pool's `Wait` after it. */
  method RunTasks(env: Env, pieces: seq<Bytes>) returns (manifests: seq<Bytes>, poolErr: Option<Error>)
    ensures manifests == AllSent(Outcomes(env, pieces))
    ensures poolErr == FirstTaskError(Outcomes(env, pieces))
  {
    ghost var os := Outcomes(env, pieces);
    manifests, poolErr := [], None;
    for i := 0 to |pieces|
      invariant manifests == AllSent(os[..i])
      invariant poolErr == FirstTaskError(os[..i])
    {
      var outcome := Task(env, pieces[i]);
      assert outcome == os[i];
      assert os[..i + 1][..i] == os[..i];
      manifests := manifests + outcome.sent;
      if poolErr.None? {
        poolErr := outcome.err;
      }
    }
    assert os[..|pieces|] == os;
  }

  /**
   * `Run`: read the input, push one task per "---" piece, wait for the pool (`exit`), then let
   * the sink drain the channel and wait for it (`exit`).
   */
  method Run(input: Result<Bytes, Error>, env: Env, cfg: Config, writeResult: nat -> Option<Error>)
    returns (r: RunResult)
    ensures r == RunSpec(input, env, cfg, writeResult)
  {
    if input.Err? {
      return ReadFailed(input.error);
    }
    var pieces := Split(input.value);
    var manifests, poolErr := RunTasks(env, pieces);
    var terminates, waited := Exit([poolErr], cfg.allowFailure);
    assert terminates == (poolErr.Some? && !cfg.allowFailure) by {
      assert [poolErr][0] == poolErr;
    }
    if terminates {
      return ExitedAfterTasks(poolErr.value);
    }
    var written, sinkErr, cancelled := Sink(manifests, writeResult, cfg.failFast);
    terminates, waited := Exit([sinkErr], cfg.allowFailure);
    assert terminates == (sinkErr.Some? && !cfg.allowFailure) by {
      assert [sinkErr][0] == sinkErr;
    }
    if terminates {
      return ExitedAfterSink(written, sinkErr.value);
    }
    return Completed(written);
  }

  /** A manifest is queued exactly when some task sent it. */
  lemma {:induction false} AllSentMembers(os: seq<Outcome>, x: Bytes)
    ensures x in AllSent(os) <==> exists k :: 0 <= k < |os| && x in os[k].sent
    decreases |os|
  {
    if os != [] {
      var init := os[..|os| - 1];
      AllSentMembers(init, x);
      assert forall k :: 0 <= k < |init| ==> init[k] == os[k];
      if x in AllSent(os) && x !in AllSent(init) {
        assert x in os[|os| - 1].sent;
      }
    }
  }

  /** Each task's manifests are queued together and in the order it sent them. */
  lemma {:induction false} AllSentAppend(a: seq<Outcome>, b: seq<Outcome>)
    ensures AllSent(a + b) == AllSent(a) + AllSent(b)
    decreases |b|
  {
    if b == [] {
      assert a + b == a;
    } else {
      assert (a + b)[..|a + b| - 1] == a + b[..|b| - 1];
      AllSentAppend(a, b[..|b| - 1]);
    }
  }

  /** Tasks that do nothing queue nothing and report no error. */
  lemma {:induction false} QuietTasksSendNothing(os: seq<Outcome>)
    requires forall k :: 0 <= k < |os| ==> os[k] == Nothing
    ensures AllSent(os) == []
    ensures FirstTaskError(os).None?
    decreases |os|
  {
    if os != [] {
      var init := os[..|os| - 1];
      assert forall k :: 0 <= k < |init| ==> init[k] == os[k];
      QuietTasksSendNothing(init);
    }
  }

  /**
   * When no task sends or fails (every piece is empty, undecodable, or of a kind that is not
   * routed) the run completes and writes nothing.
   */
  lemma QuietInputWritesNothing(data: Bytes, env: Env, cfg: Config, writeResult: nat -> Option<Error>)
    requires forall k :: 0 <= k < |Split(data)| ==> Task(env, Split(data)[k]) == Nothing
    ensures RunSpec(Ok(data), env, cfg, writeResult) == Completed([])
  {
    QuietTasksSendNothing(Outcomes(env, Split(data)));
  }

  /** An input with no documents at all writes nothing and returns nil. */
  lemma EmptyInputWritesNothing(env: Env, cfg: Config, writeResult: nat -> Option<Error>)
    ensures RunSpec(Ok([]), env, cfg, writeResult) == Completed([])
  {
    assert Split([]) == [[]];
    QuietInputWritesNothing([], env, cfg, writeResult);
  }

  /**
   * The process terminates exactly when a task or a write failed and `AllowFailure` is off;
   * with `AllowFailure` the run always returns, with the read error or nil.
   */
  lemma TerminatesIffErrorAndNotAllowed(input: Result<Bytes, Error>, env: Env, cfg: Config, writeResult: nat -> Option<Error>)
    ensures var r := RunSpec(input, env, cfg, writeResult);
      (r.ExitedAfterTasks? || r.ExitedAfterSink?) <==>
        input.Ok? && !cfg.allowFailure &&
        ((exists k :: 0 <= k < |Split(input.value)| && Task(env, Split(input.value)[k]).err.Some?) ||
         FirstFailedWrite(writeResult, |AllSent(Outcomes(env, Split(input.value)))|).Some?)
  {
  }

  /** How many received manifests the sink writes before a write fails, or all of them. */
  function Delivered(ms: seq<Bytes>, writeResult: nat -> Option<Error>): (n: nat)
    ensures n <= |ms|
  {
    match FirstFailedWrite(writeResult, |ms|)
    case None => |ms|
    case Some(k) => k
  }

  /**
   * The sink writes "---\n" and a manifest for a prefix of what it received, in order; all of
   * it exactly when no write fails, and then it returns nil.
   */
  lemma SinkWritesReceivedPrefix(ms: seq<Bytes>, writeResult: nat -> Option<Error>)
    ensures SinkResult(ms, writeResult).0 == Framed(ms[..Delivered(ms, writeResult)])
    ensures SinkResult(ms, writeResult).1.None? <==> forall j :: 0 <= j < |ms| ==> writeResult(j).None?
    ensures SinkResult(ms, writeResult).1.None? ==> SinkResult(ms, writeResult).0 == Framed(ms)
  {
    assert ms[..|ms|] == ms;
  }

  /** A completed run has written the sink's output for a prefix of what the tasks queued. */
  lemma CompletedWritesQueuedManifests(data: Bytes, env: Env, cfg: Config, writeResult: nat -> Option<Error>)
    requires RunSpec(Ok(data), env, cfg, writeResult).Completed?
    ensures var ms := AllSent(Outcomes(env, Split(data)));
      RunSpec(Ok(data), env, cfg, writeResult).written == Framed(ms[..Delivered(ms, writeResult)])
  {
    var ms := AllSent(Outcomes(env, Split(data)));
    SinkWritesReceivedPrefix(ms, writeResult);
  }
}
