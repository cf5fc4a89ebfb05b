/** Claims to user presence that nobody can settle any more (ta/src/operation.rs, hal/src/keymint.rs): the TA keeps the
    claim of an operation when it refuses authorization, and the HAL has dropped the handle. */
module HalPresence {
  import opened Base
  import opened Auth
  import opened OperationSpec
  import opened Chunking
  import opened HalRequests
  import opened HalSpec
  import opened HalRefinement
  import opened HalRuns
  import opened PresenceRuns
  import HalTraces

  /** The pending claim is that of a handle which no HAL object holds. */
  predicate Orphaned<S>(sys: Sys<S>, h: I64) { sys.ta.presence == Some(h) && Some(h) !in sys.held }

  // ---- An orphaned claim stays ----

  /** The handle is not drawn again. */
  predicate NotDrawn<S>(es: seq<Event<S>>, h: I64) {
    forall k :: 0 <= k < |es| && es[k].BeginEvent? ==> es[k].call.handle != h
  }

  lemma ClaimBlocksBegin<S>(cfg: Config<S>, s: TaState<S>, b: BeginCall<S>)
    requires s.presence.Some? && NeedsPresence(b)
    ensures Begin(cfg, s, b).1.Err? && Begin(cfg, s, b).0 == s
  {
  }

  lemma BeginKeepsClaim<S>(cfg: Config<S>, s: TaState<S>, b: BeginCall<S>)
    requires s.presence.Some?
    ensures Begin(cfg, s, b).0.presence == s.presence && (Begin(cfg, s, b).1.Ok? ==> Begin(cfg, s, b).1.value == b.handle)
  {
  }

  lemma StepKeepsOrphan<S>(cfg: Config<S>, maxSize: nat, sys: Sys<S>, e: Event<S>, h: I64)
    requires maxSize > MAX_CBOR_OVERHEAD && Orphaned(sys, h) && (e.BeginEvent? ==> e.call.handle != h)
    ensures Orphaned(HalStep(cfg, maxSize, sys, e), h)
  {
    match e {
      case BeginEvent(c, fault) => BeginKeepsClaim(cfg, sys.ta, c);
      case SendEvent(i, r, trips) =>
        if i < |sys.held| && sys.held[i].Some? {
          SendOnlyTouches(cfg, maxSize, sys.ta, WithHandle(r, sys.held[i].value), trips);
        }
    }
  }

  /** Over every run of the HAL, whatever is lost: an orphaned claim stays, and no operation begins on any key that
      needs presence. */
  lemma {:induction false} OrphanBlocksPresence<S>(cfg: Config<S>, maxSize: nat, sys: Sys<S>, es: seq<Event<S>>, h: I64, b: BeginCall<S>)
    requires maxSize > MAX_CBOR_OVERHEAD && Orphaned(sys, h) && NotDrawn(es, h) && NeedsPresence(b)
    ensures Orphaned(HalRun(cfg, maxSize, sys, es), h)
    ensures Begin(cfg, HalRun(cfg, maxSize, sys, es).ta, b).1.Err?
    decreases |es|
  {
    if es == [] {
      ClaimBlocksBegin(cfg, sys.ta, b);
    } else {
      StepKeepsOrphan(cfg, maxSize, sys, es[0], h);
      OrphanBlocksPresence(cfg, maxSize, HalStep(cfg, maxSize, sys, es[0]), es[1..], h, b);
    }
  }

  // ---- When a claim is orphaned ----

  lemma UpdateDropsClaim<S>(cfg: Config<S>, s: TaState<S>, a: OpArgs, data: Bytes)
    ensures Update(cfg, s, a, data).0.presence != Some(a.handle)
  {
  }

  lemma FinishKeepsClaimExactly<S>(cfg: Config<S>, s: TaState<S>, a: OpArgs, f: FinishArgs)
    requires a.handle in s.ops && s.presence == Some(a.handle)
    ensures Finish(cfg, s, a, f).0.presence == Some(a.handle) <==> !Authorized(cfg, s, a)
  {
  }

  lemma AadKeepsClaimExactly<S>(cfg: Config<S>, s: TaState<S>, a: OpArgs, data: Bytes)
    requires a.handle in s.ops && s.presence == Some(a.handle)
    ensures var (s', r) := UpdateAad(cfg, s, a, data);
            && (r.Err? ==> (s'.presence == Some(a.handle) <==> !Authorized(cfg, s, a)))
            && (r.Ok? ==> s'.presence == Some(a.handle) && a.handle in s'.ops)
  {
  }

  lemma {:induction false} AadChunksKeepClaimExactly<S>(cfg: Config<S>, maxSize: nat, s: TaState<S>, r: Request, data: Bytes,
                                                        trips: nat -> Trip, k: nat, env: Env)
    requires maxSize > MAX_CBOR_OVERHEAD && r.UpdateAadRequest? && DocumentedRequest(r) && Reliable(trips, env)
    requires r.handle in s.ops && s.presence == Some(r.handle)
    ensures var (s', out) := SendChunks(cfg, maxSize, s, r, data, trips, k);
            out.Err? && s'.presence == Some(r.handle) <==> data != [] && !Authorized(cfg, s, ArgsOf(r, env))
    decreases |data|
  {
    if data != [] {
      var n := Min(maxSize - MAX_CBOR_OVERHEAD, |data|);
      var chunk := WithInput(r, data[..n]);
      UpdateRequestFits(chunk);
      assert Execute(cfg, maxSize, s, chunk, trips(k)) == Serve(cfg, s, chunk, env);
      assert ArgsOf(chunk, env) == ArgsOf(r, env);
      AadKeepsClaimExactly(cfg, s, ArgsOf(r, env), chunk.input);
      FailedUpdateRemoves(cfg, s, chunk, env);
      var (s1, r1) := Serve(cfg, s, chunk, env);
      if r1.Ok? {
        AadChunksKeepClaimExactly(cfg, maxSize, s1, r, data[n..], trips, k + 1, env);
      }
    }
  }

  lemma UpdateChunksDropClaim<S>(cfg: Config<S>, maxSize: nat, s: TaState<S>, r: Request, trips: nat -> Trip, env: Env)
    requires maxSize > MAX_CBOR_OVERHEAD && r.UpdateRequest? && DocumentedRequest(r) && Reliable(trips, env) && r.input != []
    ensures SendChunks(cfg, maxSize, s, r, r.input, trips, 0).0.presence != Some(r.handle)
  {
    var n := Min(maxSize - MAX_CBOR_OVERHEAD, |r.input|);
    var chunk := WithInput(r, r.input[..n]);
    UpdateRequestFits(chunk);
    assert Execute(cfg, maxSize, s, chunk, trips(0)) == Serve(cfg, s, chunk, env);
    UpdateDropsClaim(cfg, s, ArgsOf(r, env), chunk.input);
    ChunksOnlyTouch(cfg, maxSize, Serve(cfg, s, chunk, env).0, r, r.input[n..], trips, 1);
  }

  lemma FinishRequestKeepsClaimExactly<S>(cfg: Config<S>, maxSize: nat, s: TaState<S>, f: Request, trips: nat -> Trip, env: Env)
    requires maxSize > MAX_CBOR_OVERHEAD && f.FinishRequest? && DocumentedRequest(f) && Reliable(trips, env)
    requires f.handle in s.ops && s.presence == Some(f.handle)
    ensures SendFinish(cfg, maxSize, s, f, trips, 0).0.presence == Some(f.handle) <==>
            !Cut(maxSize, f) && !Authorized(cfg, s, ArgsOf(f, env))
  {
    FinishOrUpdateFits(maxSize, f);
    assert trips(0) == Trip(env, Delivered);
    if Cut(maxSize, f) {
      var n := maxSize - MAX_CBOR_OVERHEAD;
      var u, rest := UpdateBefore(f, n), f.(lastInput := Some(f.lastInput.value[n..]));
      UpdateDropsClaim(cfg, s, ArgsOf(f, env), u.input);
      FinishOnlyTouches(cfg, maxSize, Serve(cfg, s, u, env).0, rest, trips, 1);
    } else {
      FinishKeepsClaimExactly(cfg, s, ArgsOf(f, env), FinishArgs(f.lastInput, f.signature, f.confirmation));
    }
  }

  lemma AbortDropsClaim<S>(cfg: Config<S>, maxSize: nat, s: TaState<S>, h: I64, trips: nat -> Trip, env: Env)
    requires maxSize > MAX_CBOR_OVERHEAD && Reliable(trips, env)
    ensures Send(cfg, maxSize, s, AbortRequest(h), trips).0.presence != Some(h)
  {
    AbortRequestFits(h);
    assert trips(0) == Trip(env, Delivered);
  }

  /** A handle is held by one object only. */
  lemma HeldOnce<S>(sys: Sys<S>, i: nat, handle: Option<I64>)
    requires HeldInv(sys) && i < |sys.held| && sys.held[i].Some? && (handle.None? || handle == sys.held[i])
    ensures sys.held[i] in sys.held[i := handle] <==> handle == sys.held[i]
  {
    assert sys.held[i := handle][i] == handle;
  }

  /** Requests that do not ask for presence before authorization fails: a finish that is not cut, and additional data. */
  predicate AuthorizesFirst(maxSize: nat, r: Request)
    requires maxSize > MAX_CBOR_OVERHEAD
  {
    (r.FinishRequest? && !Cut(maxSize, r)) || (r.UpdateAadRequest? && r.input != [])
  }

  /** Over a reliable channel, a call on the object with the pending claim orphans it exactly if the call is refused
      authorization before the claim is considered. */
  lemma OrphansExactly<S>(cfg: Config<S>, maxSize: nat, sys: Sys<S>, i: nat, r: Request, trips: nat -> Trip, env: Env)
    requires maxSize > MAX_CBOR_OVERHEAD && HeldInv(sys) && Reliable(trips, env) && DocumentedRequest(r)
    requires i < |sys.held| && sys.held[i].Some? && sys.ta.presence == sys.held[i]
    ensures Orphaned(HalStep(cfg, maxSize, sys, SendEvent(i, r, trips)), sys.held[i].value) <==>
            AuthorizesFirst(maxSize, r) && !Authorized(cfg, sys.ta, OpArgs(sys.held[i].value, r.token, r.timestamp, env))
  {
    var h := sys.held[i].value;
    var sent := WithHandle(r, h);
    var (s', out) := Send(cfg, maxSize, sys.ta, sent, trips);
    HeldOnce(sys, i, if out.Ok? && IsUpdate(r) then Some(h) else None);
    match r {
      case FinishRequest(_, _, _, _, _, _) => FinishRequestKeepsClaimExactly(cfg, maxSize, sys.ta, sent, trips, env);
      case UpdateAadRequest(_, input, _, _) => AadChunksKeepClaimExactly(cfg, maxSize, sys.ta, sent, input, trips, 0, env);
      case UpdateRequest(_, input, _, _) =>
        if input != [] {
          UpdateChunksDropClaim(cfg, maxSize, sys.ta, sent, trips, env);
        }
      case AbortRequest(_) => AbortDropsClaim(cfg, maxSize, sys.ta, h, trips, env);
    }
  }

  // ---- Refused calls on one object ----

  const CHANNEL_SIZE := 4096

  function Calm(): nat -> Trip { _ => Trip(AbsentEnv(), Delivered) }

  function Held(): Sys<Bytes> { Sys(TaState(map[7 := PresenceOp()], Some(7), []), [Some(7)]) }

  lemma HeldIsReached()
    ensures HalRun(EchoConfig(), CHANNEL_SIZE, HalTraces.Start(), [BeginEvent(PresenceBegin(), Delivered)]) == Held()
  {
    PresenceOpBegins();
    assert [] + [Some(7)] == [Some(7)];
    assert [BeginEvent(PresenceBegin(), Delivered)][1..] == [];
  }

  function BareUpdate(): Request { UpdateRequest(0, [1], None, None) }

  function BareFinish(): Request { FinishRequest(0, None, None, None, None, None) }

  /** An update without the token that the key demands: the object is invalidated, and the operation is left behind. */
  lemma RefusedUpdateIsLeftBehind()
    ensures HalRun(EchoConfig(), CHANNEL_SIZE, HalTraces.Start(), [BeginEvent(PresenceBegin(), Delivered)]) == Held()
    ensures HalStep(EchoConfig(), CHANNEL_SIZE, Held(), SendEvent(0, BareUpdate(), Calm())) ==
            Sys(TaState(map[7 := PresenceOp()], None, []), [None])
  {
    HeldIsReached();
    var sent := WithHandle(BareUpdate(), 7);
    assert [1][..1] == [1];
    assert WithInput(sent, [1]) == sent && ArgsOf(sent, AbsentEnv()) == BareArgs();
    UpdateRequestFits(sent);
    BareUpdateIsRefused([1]);
    assert Execute(EchoConfig(), CHANNEL_SIZE, Held().ta, sent, Calm()(0)) == Update(EchoConfig(), Held().ta, BareArgs(), [1]);
    assert [Some(7)][0 := None] == [None];
  }

  lemma BareFinishIsRefused()
    ensures Finish(EchoConfig(), Held().ta, BareArgs(), FinishArgs(None, None, None)) ==
            (TaState(map[], Some(7), []), Err(KeyUserNotAuthenticated))
  {
    assert map[7 := PresenceOp()] - {7} == map[];
  }

  /** A finish without it: the operation is gone and its claim is left, with nobody to settle it. */
  lemma RefusedFinishOrphansClaim()
    ensures HalRun(EchoConfig(), CHANNEL_SIZE, HalTraces.Start(), [BeginEvent(PresenceBegin(), Delivered)]) == Held()
    ensures var sys := HalStep(EchoConfig(), CHANNEL_SIZE, Held(), SendEvent(0, BareFinish(), Calm()));
            sys == Sys(TaState(map[], Some(7), []), [None]) && Orphaned(sys, 7)
  {
    HeldIsReached();
    var sent := WithHandle(BareFinish(), 7);
    FinishRequestFits(sent);
    BareFinishIsRefused();
    assert Execute(EchoConfig(), CHANNEL_SIZE, Held().ta, sent, Calm()(0)) ==
           Finish(EchoConfig(), Held().ta, BareArgs(), FinishArgs(None, None, None));
    assert [Some(7)][0 := None] == [None];
  }
}
