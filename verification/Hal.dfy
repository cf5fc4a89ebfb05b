/** The HAL side of an operation (hal/src/keymint.rs): input cut into requests that fit the channel,
    a handle that is dropped at the first failure, and a channel that may lose messages. */
module HalSpec {
  import opened Base
  import opened Auth
  import opened OperationSpec
  import opened HalRequests

  /** What happens to one request: it gets through, or it is lost before or after the TA acts on it. */
  datatype Fault = Delivered | RequestLost | ResponseLost

  datatype Trip = Trip(env: Env, fault: Fault)

  /** The TA's dispatcher, for requests on operations. */
  function Serve<S>(cfg: Config<S>, s: TaState<S>, r: Request, env: Env): (TaState<S>, Result<Bytes>) {
    match r
    case UpdateAadRequest(h, input, token, timestamp) =>
      var (s', done) := UpdateAad(cfg, s, OpArgs(h, token, timestamp, env), input);
      (s', if done.Err? then Err(done.error) else Ok([]))
    case UpdateRequest(h, input, token, timestamp) => Update(cfg, s, OpArgs(h, token, timestamp, env), input)
    case FinishRequest(h, input, signature, token, timestamp, confirmation) =>
      Finish(cfg, s, OpArgs(h, token, timestamp, env), FinishArgs(input, signature, confirmation))
    case AbortRequest(h) =>
      var (s', done) := Abort(s, h);
      (s', if done.Err? then Err(done.error) else Ok([]))
  }

  /** `channel_execute`: an encoding over the channel's size is refused without being sent. */
  function Execute<S>(cfg: Config<S>, maxSize: nat, s: TaState<S>, r: Request, trip: Trip): (TaState<S>, Result<Bytes>) {
    if |Encoded(r)| > maxSize then (s, Err(InvalidInputLength))
    else
      match trip.fault
      case RequestLost => (s, Err(CommFailure))
      case Delivered => Serve(cfg, s, r, trip.env)
      case ResponseLost => (Serve(cfg, s, r, trip.env).0, Err(CommFailure))
  }

  function WithInput(template: Request, input: Bytes): Request
    requires template.UpdateRequest? || template.UpdateAadRequest?
  {
    if template.UpdateRequest? then UpdateRequest(template.handle, input, template.token, template.timestamp)
    else UpdateAadRequest(template.handle, input, template.token, template.timestamp)
  }

  /** The loop of `update` and `updateAad`, from the `k`-th request on. */
  function SendChunks<S>(cfg: Config<S>, maxSize: nat, s: TaState<S>, template: Request, data: Bytes,
                         trips: nat -> Trip, k: nat)
    : (TaState<S>, Result<Bytes>)
    requires maxSize > MAX_CBOR_OVERHEAD && (template.UpdateRequest? || template.UpdateAadRequest?)
    decreases |data|
  {
    if data == [] then (s, Ok([]))
    else
      var n := Min(maxSize - MAX_CBOR_OVERHEAD, |data|);
      match Execute(cfg, maxSize, s, WithInput(template, data[..n]), trips(k))
      case (s1, Err(e)) => (s1, Err(e))
      case (s1, Ok(out)) =>
        match SendChunks(cfg, maxSize, s1, template, data[n..], trips, k + 1)
        case (s2, Err(e)) => (s2, Err(e))
        case (s2, Ok(rest)) => (s2, Ok(out + rest))
  }

  function UpdateBefore(f: Request, n: nat): Request
    requires f.FinishRequest? && f.lastInput.Some? && n <= |f.lastInput.value|
  {
    UpdateRequest(f.handle, f.lastInput.value[..n], f.token, f.timestamp)
  }

  /** The loop of `finish`: updates until the rest fits in the final request. */
  function SendFinish<S>(cfg: Config<S>, maxSize: nat, s: TaState<S>, f: Request, trips: nat -> Trip, k: nat)
    : (TaState<S>, Result<Bytes>)
    requires maxSize > MAX_CBOR_OVERHEAD && f.FinishRequest?
    decreases if f.lastInput.Some? then |f.lastInput.value| else 0
  {
    var n := maxSize - MAX_CBOR_OVERHEAD;
    if f.lastInput.None? || |f.lastInput.value| <= n then Execute(cfg, maxSize, s, f, trips(k))
    else
      match Execute(cfg, maxSize, s, UpdateBefore(f, n), trips(k))
      case (s1, Err(e)) => (s1, Err(e))
      case (s1, Ok(out)) =>
        match SendFinish(cfg, maxSize, s1, f.(lastInput := Some(f.lastInput.value[n..])), trips, k + 1)
        case (s2, Err(e)) => (s2, Err(e))
        case (s2, Ok(rest)) => (s2, Ok(out + rest))
  }
}

/** Chunked sending over a channel that loses nothing amounts to one call on the TA. */
module HalRefinement {
  import opened Base
  import opened Auth
  import opened OperationSpec
  import opened HalRequests
  import opened HalSpec
  import opened Chunking

  ghost predicate Reliable(trips: nat -> Trip, env: Env) {
    forall k :: trips(k) == Trip(env, Delivered)
  }

  function ArgsOf(r: Request, env: Env): OpArgs
    requires !r.AbortRequest?
  {
    OpArgs(r.handle, r.token, r.timestamp, env)
  }

  /** Non-empty input sent in chunks is one `update` of the TA: the same final state, the same output,
      failure exactly when that would fail. */
  lemma {:induction false} ChunkedUpdate<S(!new)>(cfg: Config<S>, maxSize: nat, s: TaState<S>, template: Request, data: Bytes,
                                                  trips: nat -> Trip, k: nat, env: Env)
    requires maxSize > MAX_CBOR_OVERHEAD && template.UpdateRequest? && data != []
    requires DocumentedSizes(template.token, template.timestamp, None, None)
    requires Streaming(cfg.crypto) && Reliable(trips, env)
    ensures var (s1, r1) := SendChunks(cfg, maxSize, s, template, data, trips, k);
            var (s2, r2) := Update(cfg, s, ArgsOf(template, env), data);
            s1 == s2 && SameOutcome(r1, r2)
    decreases |data|
  {
    var a := ArgsOf(template, env);
    var n := Min(maxSize - MAX_CBOR_OVERHEAD, |data|);
    var x, y := data[..n], data[n..];
    assert x + y == data;
    UpdateRequestFits(WithInput(template, x));
    var (s1, r1) := Update(cfg, s, a, x);
    assert Execute(cfg, maxSize, s, WithInput(template, x), trips(k)) == (s1, r1);
    if y == [] {
      assert x == data;
      assert r1.Ok? ==> r1.value + [] == r1.value;
    } else {
      ChunkedUpdate(cfg, maxSize, s1, template, y, trips, k + 1, env);
      UpdateJoin(cfg, s, a, x, y);
    }
  }

  /** The same for additional data. */
  lemma {:induction false} ChunkedUpdateAad<S(!new)>(cfg: Config<S>, maxSize: nat, s: TaState<S>, template: Request, data: Bytes,
                                                     trips: nat -> Trip, k: nat, env: Env)
    requires maxSize > MAX_CBOR_OVERHEAD && template.UpdateAadRequest? && data != []
    requires DocumentedSizes(template.token, template.timestamp, None, None)
    requires AadStreaming(cfg.crypto) && Reliable(trips, env)
    ensures var (s1, r1) := SendChunks(cfg, maxSize, s, template, data, trips, k);
            var (s2, r2) := UpdateAad(cfg, s, ArgsOf(template, env), data);
            s1 == s2 && (r1.Ok? <==> r2.Ok?)
    decreases |data|
  {
    var a := ArgsOf(template, env);
    var n := Min(maxSize - MAX_CBOR_OVERHEAD, |data|);
    var x, y := data[..n], data[n..];
    assert x + y == data;
    UpdateRequestFits(WithInput(template, x));
    var (s1, r1) := UpdateAad(cfg, s, a, x);
    assert Execute(cfg, maxSize, s, WithInput(template, x), trips(k)).0 == s1;
    if y == [] {
      assert x == data;
    } else {
      ChunkedUpdateAad(cfg, maxSize, s1, template, y, trips, k + 1, env);
      AadJoin(cfg, s, a, x, y);
    }
  }

  /** Chunked `finish` succeeds exactly when one `finish` with all the input would, with the same
      output; unless it has to be cut and is not authorized, it also leaves the same state. */
  lemma {:induction false} ChunkedFinish<S(!new)>(cfg: Config<S>, maxSize: nat, s: TaState<S>, f: Request, trips: nat -> Trip,
                                                  k: nat, env: Env)
    requires maxSize > MAX_CBOR_OVERHEAD && f.FinishRequest?
    requires DocumentedSizes(f.token, f.timestamp, f.signature, f.confirmation)
    requires Streaming(cfg.crypto) && Reliable(trips, env)
    ensures var (s1, r1) := SendFinish(cfg, maxSize, s, f, trips, k);
            var (s2, r2) := Serve(cfg, s, f, env);
            && SameOutcome(r1, r2)
            && (Authorized(cfg, s, ArgsOf(f, env)) || !Cut(maxSize, f) ==> s1 == s2)
    decreases if f.lastInput.Some? then |f.lastInput.value| else 0
  {
    FinishOrUpdateFits(maxSize, f);
    assert trips(k) == Trip(env, Delivered);
    if Cut(maxSize, f) {
      var n := maxSize - MAX_CBOR_OVERHEAD;
      var a, u := ArgsOf(f, env), UpdateBefore(f, n);
      var x, y := f.lastInput.value[..n], f.lastInput.value[n..];
      assert x + y == f.lastInput.value;
      var (s1, r1) := Update(cfg, s, a, x);
      assert Execute(cfg, maxSize, s, u, trips(k)) == (s1, r1);
      FinishJoin(cfg, s, a, x, y, FinishArgs(f.lastInput, f.signature, f.confirmation));
      if r1.Ok? {
        ChunkedFinish(cfg, maxSize, s1, f.(lastInput := Some(y)), trips, k + 1, env);
        StaysAuthorized(cfg, s, a, x);
      }
    }
  }

  predicate Cut(maxSize: nat, f: Request)
    requires f.FinishRequest?
  {
    f.lastInput.Some? && |f.lastInput.value| > maxSize - MAX_CBOR_OVERHEAD
  }

  lemma FinishOrUpdateFits(maxSize: nat, f: Request)
    requires maxSize > MAX_CBOR_OVERHEAD && f.FinishRequest?
    requires DocumentedSizes(f.token, f.timestamp, f.signature, f.confirmation)
    ensures !Cut(maxSize, f) ==> |Encoded(f)| <= maxSize
    ensures Cut(maxSize, f) ==> |Encoded(UpdateBefore(f, maxSize - MAX_CBOR_OVERHEAD))| <= maxSize
  {
    if Cut(maxSize, f) {
      UpdateRequestFits(UpdateBefore(f, maxSize - MAX_CBOR_OVERHEAD));
    } else {
      FinishRequestFits(f);
    }
  }

  lemma StaysAuthorized<S>(cfg: Config<S>, s: TaState<S>, a: OpArgs, x: Bytes)
    requires Update(cfg, s, a, x).1.Ok?
    ensures Authorized(cfg, s, a) && Authorized(cfg, Update(cfg, s, a, x).0, a)
  {
    var op := Authorize(cfg, s.ops[a.handle], a).value;
    var presenceOk := s.presence != Some(a.handle) || a.env.tupAvailable;
    AuthorizeAgain(cfg, s.ops[a.handle], UpdateBody(cfg, op, x, presenceOk).value.0, a);
  }
}
