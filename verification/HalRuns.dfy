/** HAL operations and the TA together, over whole runs in which the channel may lose any message:
    what a held handle guarantees, and when an operation is left behind in the TA. */
module HalRuns {
  import opened Base
  import opened Auth
  import opened OperationSpec
  import opened HalRequests
  import opened HalSpec
  import opened HalRefinement
  import opened Chunking

  // ---- Effects of one request ----

  /** Operations other than `h` and their claims to presence are exactly as before, and none appears. */
  ghost predicate OnlyTouches<S>(s: TaState<S>, s': TaState<S>, h: I64) {
    && s'.ops.Keys <= s.ops.Keys
    && (forall h' :: h' in s.ops && h' != h ==> h' in s'.ops && s'.ops[h'] == s.ops[h'])
    && (s'.presence == s.presence || (s.presence == Some(h) && s'.presence == None))
  }

  lemma OnlyTouchesTransitive<S>(s: TaState<S>, s1: TaState<S>, s2: TaState<S>, h: I64)
    requires OnlyTouches(s, s1, h) && OnlyTouches(s1, s2, h)
    ensures OnlyTouches(s, s2, h)
  {
  }

  predicate IsUpdate(r: Request) { r.UpdateRequest? || r.UpdateAadRequest? }

  lemma ServeOnlyTouches<S>(cfg: Config<S>, s: TaState<S>, r: Request, env: Env)
    ensures OnlyTouches(s, Serve(cfg, s, r, env).0, r.handle)
    ensures IsUpdate(r) && Serve(cfg, s, r, env).1.Ok? ==> r.handle in Serve(cfg, s, r, env).0.ops
  {
  }

  lemma ExecuteOnlyTouches<S>(cfg: Config<S>, maxSize: nat, s: TaState<S>, r: Request, trip: Trip)
    ensures OnlyTouches(s, Execute(cfg, maxSize, s, r, trip).0, r.handle)
    ensures IsUpdate(r) && Execute(cfg, maxSize, s, r, trip).1.Ok? ==> r.handle in Execute(cfg, maxSize, s, r, trip).0.ops
  {
    ServeOnlyTouches(cfg, s, r, trip.env);
  }

  lemma {:induction false} ChunksOnlyTouch<S>(cfg: Config<S>, maxSize: nat, s: TaState<S>, template: Request, data: Bytes,
                                              trips: nat -> Trip, k: nat)
    requires maxSize > MAX_CBOR_OVERHEAD && IsUpdate(template)
    ensures var (s', r) := SendChunks(cfg, maxSize, s, template, data, trips, k);
            OnlyTouches(s, s', template.handle) && (r.Ok? && template.handle in s.ops ==> template.handle in s'.ops)
    decreases |data|
  {
    if data != [] {
      var n := Min(maxSize - MAX_CBOR_OVERHEAD, |data|);
      var chunk := WithInput(template, data[..n]);
      ExecuteOnlyTouches(cfg, maxSize, s, chunk, trips(k));
      var (s1, r1) := Execute(cfg, maxSize, s, chunk, trips(k));
      if r1.Ok? {
        ChunksOnlyTouch(cfg, maxSize, s1, template, data[n..], trips, k + 1);
      }
    }
  }

  lemma {:induction false} FinishOnlyTouches<S>(cfg: Config<S>, maxSize: nat, s: TaState<S>, f: Request, trips: nat -> Trip, k: nat)
    requires maxSize > MAX_CBOR_OVERHEAD && f.FinishRequest?
    ensures OnlyTouches(s, SendFinish(cfg, maxSize, s, f, trips, k).0, f.handle)
    decreases if f.lastInput.Some? then |f.lastInput.value| else 0
  {
    if Cut(maxSize, f) {
      var n := maxSize - MAX_CBOR_OVERHEAD;
      var u, rest := UpdateBefore(f, n), f.(lastInput := Some(f.lastInput.value[n..]));
      ExecuteOnlyTouches(cfg, maxSize, s, u, trips(k));
      var (s1, r1) := Execute(cfg, maxSize, s, u, trips(k));
      if r1.Ok? {
        FinishOnlyTouches(cfg, maxSize, s1, rest, trips, k + 1);
        OnlyTouchesTransitive(s, s1, SendFinish(cfg, maxSize, s1, rest, trips, k + 1).0, f.handle);
        assert SendFinish(cfg, maxSize, s, f, trips, k).0 == SendFinish(cfg, maxSize, s1, rest, trips, k + 1).0;
      } else {
        assert SendFinish(cfg, maxSize, s, f, trips, k).0 == s1;
      }
    } else {
      ExecuteOnlyTouches(cfg, maxSize, s, f, trips(k));
    }
  }

  // ---- The system ----

  /** The TA and the HAL operation objects, each holding its handle until it is invalidated. */
  datatype Sys<S> = Sys(ta: TaState<S>, held: seq<Option<I64>>)

  /** One HAL call: `begin`, or a request (a template for updates) with its input on object `i`; the
      handle in the request is replaced by the one the object holds. */
  datatype Event<!S> =
    | BeginEvent(call: BeginCall<S>, fault: Fault)
    | SendEvent(i: nat, request: Request, trips: nat -> Trip)

  function WithHandle(r: Request, h: I64): Request {
    match r
    case UpdateAadRequest(_, input, token, timestamp) => UpdateAadRequest(h, input, token, timestamp)
    case UpdateRequest(_, input, token, timestamp) => UpdateRequest(h, input, token, timestamp)
    case FinishRequest(_, input, signature, token, timestamp, confirmation) =>
      FinishRequest(h, input, signature, token, timestamp, confirmation)
    case AbortRequest(_) => AbortRequest(h)
  }

  function Send<S>(cfg: Config<S>, maxSize: nat, s: TaState<S>, r: Request, trips: nat -> Trip): (TaState<S>, Result<Bytes>)
    requires maxSize > MAX_CBOR_OVERHEAD
  {
    match r
    case FinishRequest(_, _, _, _, _, _) => SendFinish(cfg, maxSize, s, r, trips, 0)
    case AbortRequest(_) => Execute(cfg, maxSize, s, r, trips(0))
    case _ => SendChunks(cfg, maxSize, s, r, r.input, trips, 0)
  }

  /** A HAL call on an object: nothing is sent without a handle; any failure, and any finish or abort,
      drops the handle. */
  function CallOn<S>(cfg: Config<S>, maxSize: nat, s: TaState<S>, handle: Option<I64>, r: Request, trips: nat -> Trip)
    : (TaState<S>, Option<I64>, Result<Bytes>)
    requires maxSize > MAX_CBOR_OVERHEAD
  {
    if handle.None? then (s, None, Err(InvalidOperationHandle))
    else
      var (s', out) := Send(cfg, maxSize, s, WithHandle(r, handle.value), trips);
      (s', if out.Ok? && IsUpdate(r) then handle else None, out)
  }

  /** `begin` makes an object only if the response comes back. */
  function BeginOver<S>(cfg: Config<S>, sys: Sys<S>, c: BeginCall<S>, fault: Fault): Sys<S> {
    if fault.RequestLost? then sys
    else
      var (s', r) := Begin(cfg, sys.ta, c);
      Sys(s', if fault.Delivered? && r.Ok? then sys.held + [Some(r.value)] else sys.held)
  }

  function HalStep<S>(cfg: Config<S>, maxSize: nat, sys: Sys<S>, e: Event<S>): Sys<S>
    requires maxSize > MAX_CBOR_OVERHEAD
  {
    match e
    case BeginEvent(c, fault) => BeginOver(cfg, sys, c, fault)
    case SendEvent(i, r, trips) =>
      if i >= |sys.held| then sys
      else
        var (s', handle, _) := CallOn(cfg, maxSize, sys.ta, sys.held[i], r, trips);
        Sys(s', sys.held[i := handle])
  }

  function HalRun<S>(cfg: Config<S>, maxSize: nat, sys: Sys<S>, es: seq<Event<S>>): Sys<S>
    requires maxSize > MAX_CBOR_OVERHEAD
    decreases |es|
  {
    if es == [] then sys else HalRun(cfg, maxSize, HalStep(cfg, maxSize, sys, es[0]), es[1..])
  }

  /** Handles drawn by `begin` are not in use. */
  predicate ValidEvent<S>(sys: Sys<S>, e: Event<S>) { e.BeginEvent? ==> e.call.handle !in sys.ta.ops }

  predicate ValidHalRun<S>(cfg: Config<S>, maxSize: nat, sys: Sys<S>, es: seq<Event<S>>)
    requires maxSize > MAX_CBOR_OVERHEAD
    decreases |es|
  {
    es == [] || (ValidEvent(sys, es[0]) && ValidHalRun(cfg, maxSize, HalStep(cfg, maxSize, sys, es[0]), es[1..]))
  }

  // ---- Held handles are live and distinct ----

  ghost predicate HeldInv<S>(sys: Sys<S>) {
    && (forall i :: 0 <= i < |sys.held| && sys.held[i].Some? ==> sys.held[i].value in sys.ta.ops)
    && (forall i, j :: 0 <= i < j < |sys.held| && sys.held[i].Some? ==> sys.held[i] != sys.held[j])
  }

  lemma SendOnlyTouches<S>(cfg: Config<S>, maxSize: nat, s: TaState<S>, r: Request, trips: nat -> Trip)
    requires maxSize > MAX_CBOR_OVERHEAD
    ensures OnlyTouches(s, Send(cfg, maxSize, s, r, trips).0, r.handle)
    ensures IsUpdate(r) && Send(cfg, maxSize, s, r, trips).1.Ok? && r.handle in s.ops ==>
              r.handle in Send(cfg, maxSize, s, r, trips).0.ops
  {
    match r {
      case FinishRequest(_, _, _, _, _, _) => FinishOnlyTouches(cfg, maxSize, s, r, trips, 0);
      case AbortRequest(_) => ExecuteOnlyTouches(cfg, maxSize, s, r, trips(0));
      case UpdateRequest(_, input, _, _) => ChunksOnlyTouch(cfg, maxSize, s, r, input, trips, 0);
      case UpdateAadRequest(_, input, _, _) => ChunksOnlyTouch(cfg, maxSize, s, r, input, trips, 0);
    }
  }

  lemma StepKeepsHeld<S>(cfg: Config<S>, maxSize: nat, sys: Sys<S>, e: Event<S>)
    requires maxSize > MAX_CBOR_OVERHEAD && HeldInv(sys) && ValidEvent(sys, e)
    ensures HeldInv(HalStep(cfg, maxSize, sys, e))
  {
    match e {
      case BeginEvent(c, fault) =>
      case SendEvent(i, r, trips) =>
        if i < |sys.held| && sys.held[i].Some? {
          SendOnlyTouches(cfg, maxSize, sys.ta, WithHandle(r, sys.held[i].value), trips);
        }
    }
  }

  /** Whatever the channel loses, in every run each held handle names a live operation of the TA and
      no two objects hold the same one. */
  lemma {:induction false} RunKeepsHeld<S>(cfg: Config<S>, maxSize: nat, sys: Sys<S>, es: seq<Event<S>>)
    requires maxSize > MAX_CBOR_OVERHEAD && HeldInv(sys) && ValidHalRun(cfg, maxSize, sys, es)
    ensures HeldInv(HalRun(cfg, maxSize, sys, es))
    decreases |es|
  {
    if es != [] {
      StepKeepsHeld(cfg, maxSize, sys, es[0]);
      RunKeepsHeld(cfg, maxSize, HalStep(cfg, maxSize, sys, es[0]), es[1..]);
    }
  }

  /** No call on one object, successful or not, changes the operation another object holds. */
  lemma ObjectsAreIsolated<S>(cfg: Config<S>, maxSize: nat, sys: Sys<S>, e: Event<S>, j: nat)
    requires maxSize > MAX_CBOR_OVERHEAD && HeldInv(sys) && e.SendEvent?
    requires j < |sys.held| && j != e.i && sys.held[j].Some?
    ensures var sys', h := HalStep(cfg, maxSize, sys, e), sys.held[j].value;
            sys'.held[j] == Some(h) && h in sys'.ta.ops && sys'.ta.ops[h] == sys.ta.ops[h]
  {
    if e.i < |sys.held| && sys.held[e.i].Some? {
      SendOnlyTouches(cfg, maxSize, sys.ta, WithHandle(e.request, sys.held[e.i].value), e.trips);
    }
  }

  // ---- Operations left behind ----

  predicate DocumentedRequest(r: Request) {
    match r
    case AbortRequest(_) => true
    case FinishRequest(_, _, signature, token, timestamp, confirmation) => DocumentedSizes(token, timestamp, signature, confirmation)
    case _ => DocumentedSizes(r.token, r.timestamp, None, None)
  }

  /** A delivered update that fails removes the operation exactly if it was authorized. */
  lemma FailedUpdateRemoves<S>(cfg: Config<S>, s: TaState<S>, r: Request, env: Env)
    requires IsUpdate(r) && r.handle in s.ops
    ensures var (s', out) := Serve(cfg, s, r, env);
            && (out.Err? ==> (r.handle in s'.ops <==> !Authorized(cfg, s, ArgsOf(r, env))))
            && (out.Ok? ==> Authorized(cfg, s, ArgsOf(r, env)) && Authorized(cfg, s', ArgsOf(r, env)))
  {
    var a := ArgsOf(r, env);
    if Serve(cfg, s, r, env).1.Ok? {
      if r.UpdateRequest? {
        StaysAuthorized(cfg, s, a, r.input);
      } else {
        AuthorizeAgain(cfg, s.ops[r.handle], Authorize(cfg, s.ops[r.handle], a).value, a);
      }
    }
  }

  /** Over a reliable channel a failed `update` or `updateAad`, which always drops the handle, leaves
      the operation behind in the TA exactly if authorization was what failed. */
  lemma {:induction false} FailedChunksLeaveExactly<S>(cfg: Config<S>, maxSize: nat, s: TaState<S>, template: Request, data: Bytes,
                                                       trips: nat -> Trip, k: nat, env: Env)
    requires maxSize > MAX_CBOR_OVERHEAD && IsUpdate(template) && template.handle in s.ops
    requires DocumentedRequest(template) && Reliable(trips, env)
    ensures var (s', r) := SendChunks(cfg, maxSize, s, template, data, trips, k);
            r.Err? ==> (template.handle in s'.ops <==> !Authorized(cfg, s, ArgsOf(template, env)))
    decreases |data|
  {
    if data != [] {
      var n := Min(maxSize - MAX_CBOR_OVERHEAD, |data|);
      var chunk := WithInput(template, data[..n]);
      UpdateRequestFits(chunk);
      FailedUpdateRemoves(cfg, s, chunk, env);
      assert ArgsOf(chunk, env) == ArgsOf(template, env);
      assert Execute(cfg, maxSize, s, chunk, trips(k)) == Serve(cfg, s, chunk, env);
      var (s1, r1) := Serve(cfg, s, chunk, env);
      if r1.Ok? {
        FailedChunksLeaveExactly(cfg, maxSize, s1, template, data[n..], trips, k + 1, env);
      }
    }
  }

  /** Over a reliable channel `finish` leaves the operation behind exactly if its input had to be cut
      and the first piece was refused authorization. */
  lemma {:induction false} FinishLeavesExactly<S>(cfg: Config<S>, maxSize: nat, s: TaState<S>, f: Request, trips: nat -> Trip,
                                                  k: nat, env: Env)
    requires maxSize > MAX_CBOR_OVERHEAD && f.FinishRequest? && f.handle in s.ops
    requires DocumentedRequest(f) && Reliable(trips, env)
    ensures f.handle in SendFinish(cfg, maxSize, s, f, trips, k).0.ops <==>
            Cut(maxSize, f) && !Authorized(cfg, s, ArgsOf(f, env))
    decreases if f.lastInput.Some? then |f.lastInput.value| else 0
  {
    FinishOrUpdateFits(maxSize, f);
    assert trips(k) == Trip(env, Delivered);
    if Cut(maxSize, f) {
      var n := maxSize - MAX_CBOR_OVERHEAD;
      var u := UpdateBefore(f, n);
      FailedUpdateRemoves(cfg, s, u, env);
      assert ArgsOf(u, env) == ArgsOf(f, env);
      var (s1, r1) := Serve(cfg, s, u, env);
      if r1.Ok? {
        var rest := f.(lastInput := Some(f.lastInput.value[n..]));
        FinishLeavesExactly(cfg, maxSize, s1, rest, trips, k + 1, env);
        assert ArgsOf(rest, env) == ArgsOf(f, env);
      }
    }
  }

  /** `begin` makes an object exactly if it succeeds and its response comes back; it leaves an operation behind in
      the TA exactly if it succeeds and the response is lost. */
  lemma BeginLeavesExactly<S>(cfg: Config<S>, maxSize: nat, sys: Sys<S>, c: BeginCall<S>, fault: Fault)
    requires maxSize > MAX_CBOR_OVERHEAD && HeldInv(sys) && c.handle !in sys.ta.ops
    ensures var sys', began := HalStep(cfg, maxSize, sys, BeginEvent(c, fault)), !fault.RequestLost? && Begin(cfg, sys.ta, c).1.Ok?;
            && sys'.held == sys.held + (if began && fault.Delivered? then [Some(c.handle)] else [])
            && (c.handle in sys'.ta.ops <==> began)
            && (c.handle in sys'.ta.ops && Some(c.handle) !in sys'.held <==> began && fault.ResponseLost?)
  {
    assert sys.held + [] == sys.held;
    assert Some(c.handle) !in sys.held;
  }

  // ---- No leaks in orderly runs ----

  /** Nothing is lost, and no call on a held handle is refused authorization. */
  ghost predicate Orderly<S>(cfg: Config<S>, sys: Sys<S>, e: Event<S>) {
    match e
    case BeginEvent(_, fault) => fault.Delivered?
    case SendEvent(i, r, trips) =>
      DocumentedRequest(r) &&
      exists env ::
        Reliable(trips, env) &&
        (i < |sys.held| && sys.held[i].Some? && !r.AbortRequest? ==>
           Authorized(cfg, sys.ta, ArgsOf(WithHandle(r, sys.held[i].value), env)))
  }

  ghost predicate OrderlyRun<S>(cfg: Config<S>, maxSize: nat, sys: Sys<S>, es: seq<Event<S>>)
    requires maxSize > MAX_CBOR_OVERHEAD
    decreases |es|
  {
    es == [] || (Orderly(cfg, sys, es[0]) && OrderlyRun(cfg, maxSize, HalStep(cfg, maxSize, sys, es[0]), es[1..]))
  }

  /** The TA's operations are exactly those that some object holds. */
  ghost predicate NothingLeftBehind<S>(sys: Sys<S>) {
    forall h :: h in sys.ta.ops <==> Some(h) in sys.held
  }

  /** A call that drops the handle removes the operation. */
  lemma DroppedIsRemoved<S>(cfg: Config<S>, maxSize: nat, s: TaState<S>, r: Request, trips: nat -> Trip, env: Env)
    requires maxSize > MAX_CBOR_OVERHEAD && DocumentedRequest(r) && Reliable(trips, env) && r.handle in s.ops
    requires !r.AbortRequest? ==> Authorized(cfg, s, ArgsOf(r, env))
    ensures var (s', out) := Send(cfg, maxSize, s, r, trips);
            !(out.Ok? && IsUpdate(r)) ==> r.handle !in s'.ops
  {
    match r {
      case FinishRequest(_, _, _, _, _, _) => FinishLeavesExactly(cfg, maxSize, s, r, trips, 0, env);
      case AbortRequest(h) =>
        AbortRequestFits(h);
        assert trips(0) == Trip(env, Delivered);
      case UpdateRequest(_, input, _, _) => FailedChunksLeaveExactly(cfg, maxSize, s, r, input, trips, 0, env);
      case UpdateAadRequest(_, input, _, _) => FailedChunksLeaveExactly(cfg, maxSize, s, r, input, trips, 0, env);
    }
  }

  lemma StepLeavesNothing<S>(cfg: Config<S>, maxSize: nat, sys: Sys<S>, e: Event<S>)
    requires maxSize > MAX_CBOR_OVERHEAD && HeldInv(sys) && ValidEvent(sys, e)
    requires NothingLeftBehind(sys) && Orderly(cfg, sys, e)
    ensures NothingLeftBehind(HalStep(cfg, maxSize, sys, e))
  {
    match e {
      case BeginEvent(c, fault) =>
      case SendEvent(i, r, trips) =>
        if i < |sys.held| && sys.held[i].Some? {
          SendLeavesNothing(cfg, maxSize, sys, i, r, trips);
        }
        if i < |sys.held| && sys.held[i].None? {
          assert sys.held[i := None] == sys.held;
        }
    }
  }

  lemma SendLeavesNothing<S>(cfg: Config<S>, maxSize: nat, sys: Sys<S>, i: nat, r: Request, trips: nat -> Trip)
    requires maxSize > MAX_CBOR_OVERHEAD && HeldInv(sys) && NothingLeftBehind(sys)
    requires i < |sys.held| && sys.held[i].Some? && Orderly(cfg, sys, SendEvent(i, r, trips))
    ensures NothingLeftBehind(HalStep(cfg, maxSize, sys, SendEvent(i, r, trips)))
  {
    var sent := WithHandle(r, sys.held[i].value);
    var env :| Reliable(trips, env) && (!r.AbortRequest? ==> Authorized(cfg, sys.ta, ArgsOf(sent, env)));
    SendOnlyTouches(cfg, maxSize, sys.ta, sent, trips);
    DroppedIsRemoved(cfg, maxSize, sys.ta, sent, trips, env);
    var (s', out) := Send(cfg, maxSize, sys.ta, sent, trips);
    var handle := if out.Ok? && IsUpdate(r) then sys.held[i] else None;
    ReplaceHeld(sys, i, s', handle);
  }

  /** Taking one handle out of both sides, or out of neither, keeps them the same. */
  lemma ReplaceHeld<S>(sys: Sys<S>, i: nat, s': TaState<S>, handle: Option<I64>)
    requires HeldInv(sys) && NothingLeftBehind(sys)
    requires i < |sys.held| && sys.held[i].Some? && OnlyTouches(sys.ta, s', sys.held[i].value)
    requires if handle.None? then sys.held[i].value !in s'.ops else handle == sys.held[i] && handle.value in s'.ops
    ensures NothingLeftBehind(Sys(s', sys.held[i := handle]))
  {
    var held' := sys.held[i := handle];
    forall h
      ensures h in s'.ops <==> Some(h) in held'
    {
      if h in s'.ops {
        var j :| 0 <= j < |sys.held| && sys.held[j] == Some(h);
        assert held'[j] == Some(h);
      }
      if Some(h) in held' {
        var j :| 0 <= j < |held'| && held'[j] == Some(h);
        assert sys.held[j] == Some(h);
      }
    }
  }

  /** In a run where nothing is lost and no call is refused authorization, the TA never holds an
      operation that no object can reach. */
  lemma {:induction false} OrderlyRunLeavesNothing<S>(cfg: Config<S>, maxSize: nat, sys: Sys<S>, es: seq<Event<S>>)
    requires maxSize > MAX_CBOR_OVERHEAD && HeldInv(sys) && ValidHalRun(cfg, maxSize, sys, es)
    requires NothingLeftBehind(sys) && OrderlyRun(cfg, maxSize, sys, es)
    ensures NothingLeftBehind(HalRun(cfg, maxSize, sys, es))
    decreases |es|
  {
    if es != [] {
      StepKeepsHeld(cfg, maxSize, sys, es[0]);
      StepLeavesNothing(cfg, maxSize, sys, es[0]);
      OrderlyRunLeavesNothing(cfg, maxSize, HalStep(cfg, maxSize, sys, es[0]), es[1..]);
    }
  }
}
