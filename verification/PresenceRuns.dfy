/** Proof of user presence over whole runs (ta/src/operation.rs): when a completed operation on a
    presence-bound key really had its presence proven. */
module PresenceRuns {
  import opened Base
  import opened KeyParams
  import opened Auth
  import opened OperationSpec
  import opened OperationRuns
  import Tags

  predicate NeedsPresence<S>(b: BeginCall<S>) {
    Tags.GetBoolTagValue(b.chars, TrustedUserPresenceRequired) == Ok(true)
  }

  /** The first call that carried data. */
  function FirstData(calls: seq<OpCall>): Option<OpCall> {
    if calls == [] then None
    else
      var first := FirstData(calls[..|calls| - 1]);
      if first.Some? then first
      else if calls[|calls| - 1].aad then None else Some(calls[|calls| - 1])
  }

  lemma FirstDataSnoc(calls: seq<OpCall>, c: OpCall)
    ensures FirstData(calls + [c]) ==
            if FirstData(calls).Some? then FirstData(calls) else if c.aad then None else Some(c)
  {
    var ext := calls + [c];
    assert ext[..|ext| - 1] == calls && ext[|ext| - 1] == c;
  }

  function HasFirstData<S>(life: Option<Life<S>>): bool { life.Some? && FirstData(life.value.calls).Some? }

  /** Whether an update on `h` was refused since its operation began and before any data was accepted. */
  function NextRefused<S>(refused: bool, life: Option<Life<S>>, c: Call<S>, ok: bool, h: I64): bool {
    match c
    case BeginCalled(b) => if ok && b.handle == h then false else refused
    case UpdateCalled(a, _) => refused || (!ok && a.handle == h && !HasFirstData(life))
    case _ => refused
  }

  function RefusedEarly<S>(cfg: Config<S>, calls: seq<Call<S>>, h: I64): bool {
    if calls == [] then false
    else
      var init, last := calls[..|calls| - 1], calls[|calls| - 1];
      NextRefused(RefusedEarly(cfg, init, h), LifeOf(cfg, init, h), last, Step(cfg, After(cfg, init), last).1, h)
  }

  /** Until data has arrived the requirement is pending exactly unless an update was refused; if none was,
      the first data call has met it. */
  ghost predicate PresenceInv<S>(s: TaState<S>, life: Option<Life<S>>, refused: bool, h: I64) {
    h in s.ops && life.Some? && NeedsPresence(life.value.begin) ==>
      match FirstData(life.value.calls)
      case None => s.presence == Some(h) <==> !refused
      case Some(c) => !refused ==> c.a.env.tupAvailable
  }

  lemma BeginKeepsPresence<S>(cfg: Config<S>, s: TaState<S>, b: BeginCall<S>, life: Option<Life<S>>, refused: bool, h: I64)
    requires PresenceInv(s, life, refused, h)
    ensures var (s', r) := Begin(cfg, s, b);
            PresenceInv(s', NextLife(life, BeginCalled(b), r.Ok?, h), NextRefused(refused, life, BeginCalled(b), r.Ok?, h), h)
  {
  }

  lemma AadTouches<S>(cfg: Config<S>, s: TaState<S>, a: OpArgs, data: Bytes, h: I64)
    ensures var (s', r) := UpdateAad(cfg, s, a, data);
            && (h in s'.ops ==> h in s.ops && (s'.presence == Some(h) <==> s.presence == Some(h)))
  {
  }

  lemma AadKeepsPresence<S>(cfg: Config<S>, s: TaState<S>, a: OpArgs, data: Bytes, life: Option<Life<S>>, refused: bool, h: I64)
    requires PresenceInv(s, life, refused, h)
    ensures var (s', r) := UpdateAad(cfg, s, a, data);
            PresenceInv(s', NextLife(life, AadCalled(a, data), r.Ok?, h), NextRefused(refused, life, AadCalled(a, data), r.Ok?, h), h)
  {
    AadTouches(cfg, s, a, data, h);
    AadAfter(s, UpdateAad(cfg, s, a, data).0, a, data, life, refused, h, UpdateAad(cfg, s, a, data).1.Ok?);
  }

  lemma AadAfter<S>(s: TaState<S>, s': TaState<S>, a: OpArgs, data: Bytes, life: Option<Life<S>>, refused: bool, h: I64, ok: bool)
    requires PresenceInv(s, life, refused, h)
    requires h in s'.ops ==> h in s.ops && (s'.presence == Some(h) <==> s.presence == Some(h))
    ensures PresenceInv(s', NextLife(life, AadCalled(a, data), ok, h), NextRefused(refused, life, AadCalled(a, data), ok, h), h)
  {
    if life.Some? {
      FirstDataSnoc(life.value.calls, OpCall(true, a, data));
    }
  }

  lemma UpdateKeepsPresence<S>(cfg: Config<S>, s: TaState<S>, a: OpArgs, data: Bytes, life: Option<Life<S>>, refused: bool, h: I64)
    requires PresenceInv(s, life, refused, h)
    ensures var (s', r) := Update(cfg, s, a, data);
            PresenceInv(s', NextLife(life, UpdateCalled(a, data), r.Ok?, h),
                        NextRefused(refused, life, UpdateCalled(a, data), r.Ok?, h), h)
  {
    UpdateShape(cfg, s, a, data);
    if life.Some? {
      FirstDataSnoc(life.value.calls, OpCall(false, a, data));
    }
  }

  lemma StepKeepsPresence<S>(cfg: Config<S>, s: TaState<S>, c: Call<S>, life: Option<Life<S>>, refused: bool, h: I64)
    requires PresenceInv(s, life, refused, h)
    ensures var (s', ok) := Step(cfg, s, c); PresenceInv(s', NextLife(life, c, ok, h), NextRefused(refused, life, c, ok, h), h)
  {
    match c {
      case BeginCalled(b) => BeginKeepsPresence(cfg, s, b, life, refused, h);
      case AadCalled(a, data) => AadKeepsPresence(cfg, s, a, data, life, refused, h);
      case UpdateCalled(a, data) => UpdateKeepsPresence(cfg, s, a, data, life, refused, h);
      case FinishCalled(a, f) =>
      case AbortCalled(h') =>
    }
  }

  lemma {:induction false} RunKeepsPresence<S>(cfg: Config<S>, calls: seq<Call<S>>, h: I64)
    ensures PresenceInv(After(cfg, calls), LifeOf(cfg, calls, h), RefusedEarly(cfg, calls, h), h)
  {
    if calls != [] {
      var init, last := calls[..|calls| - 1], calls[|calls| - 1];
      RunKeepsPresence(cfg, init, h);
      StepKeepsPresence(cfg, After(cfg, init), last, LifeOf(cfg, init, h), RefusedEarly(cfg, init, h), h);
    }
  }

  /** Over every run: unless an update was refused before its first data, a completed operation on a
      presence-bound key had its presence proven, on its first data or else on finish. */
  lemma FinishHadPresence<S>(cfg: Config<S>, calls: seq<Call<S>>, a: OpArgs, f: FinishArgs)
    requires ValidRun(cfg, calls) && Finish(cfg, After(cfg, calls), a, f).1.Ok?
    requires !RefusedEarly(cfg, calls, a.handle)
    ensures LifeOf(cfg, calls, a.handle).Some?
    ensures var life := LifeOf(cfg, calls, a.handle).value;
            NeedsPresence(life.begin) ==>
              if FirstData(life.calls).Some? then FirstData(life.calls).value.a.env.tupAvailable else a.env.tupAvailable
  {
    var _, _ := LiveEntry(cfg, calls, a.handle);
    RunKeepsPresence(cfg, calls, a.handle);
  }

  function Present(a: OpArgs): OpArgs { a.(env := a.env.(tupAvailable := true)) }

  lemma ClaimIsAsked<S>(cfg: Config<S>, s: TaState<S>, a: OpArgs, data: Bytes, f: FinishArgs)
    requires a.handle in s.ops && s.presence == Some(a.handle) && !a.env.tupAvailable
    requires Authorize(cfg, s.ops[a.handle], a).Ok?
    ensures Finish(cfg, s, a, f).1 == Err(ProofOfPresenceRequired) && Update(cfg, s, a, data).1 == Err(ProofOfPresenceRequired)
  {
  }

  lemma NoClaimIsNotAsked<S>(cfg: Config<S>, s: TaState<S>, a: OpArgs, data: Bytes, f: FinishArgs)
    requires s.presence != Some(a.handle)
    ensures Finish(cfg, s, a, f) == Finish(cfg, s, Present(a), f) && Update(cfg, s, a, data) == Update(cfg, s, Present(a), data)
  {
  }

  /** The condition is exact, over every run: while a presence-bound operation has no data yet, an authorized
      finish or update without presence is turned away if no update was refused before, and otherwise it
      fares as if presence had been shown. */
  lemma PresenceAskedExactly<S>(cfg: Config<S>, calls: seq<Call<S>>, a: OpArgs, data: Bytes, f: FinishArgs)
    requires ValidRun(cfg, calls) && a.handle in After(cfg, calls).ops && !a.env.tupAvailable
    requires Authorize(cfg, After(cfg, calls).ops[a.handle], a).Ok?
    requires LifeOf(cfg, calls, a.handle).Some?
    requires var life := LifeOf(cfg, calls, a.handle).value; NeedsPresence(life.begin) && FirstData(life.calls).None?
    ensures var s := After(cfg, calls);
            if RefusedEarly(cfg, calls, a.handle) then
              Finish(cfg, s, a, f) == Finish(cfg, s, Present(a), f) && Update(cfg, s, a, data) == Update(cfg, s, Present(a), data)
            else
              Finish(cfg, s, a, f).1 == Err(ProofOfPresenceRequired) && Update(cfg, s, a, data).1 == Err(ProofOfPresenceRequired)
  {
    RunKeepsPresence(cfg, calls, a.handle);
    if RefusedEarly(cfg, calls, a.handle) {
      NoClaimIsNotAsked(cfg, After(cfg, calls), a, data, f);
    } else {
      ClaimIsAsked(cfg, After(cfg, calls), a, data, f);
    }
  }

  // ---- A run in which presence is never shown ----

  /** A key that needs presence and a password on every call, on a device without a clock. */
  const PRESENCE_KEY: seq<KeyParam> := [Ulong(UserSecureId, 1), Uint(UserAuthType, 1), Flag(TrustedUserPresenceRequired)]

  const PASSWORD_TOKEN := HardwareAuthToken(7, 1, 0, Password, 0, [])

  function AbsentEnv(): Env { Env(Some(_ => []), false) }

  /** A signing layer that collects its input and returns it. */
  function EchoConfig(): Config<Bytes> {
    Config(Crypto((st: Bytes, data) => Ok((st + data, [])), (st, data) => Err(InvalidOperation), st => Ok(st)), false, 1)
  }

  function PresenceBegin(): BeginCall<Bytes> {
    BeginCall(Ok(()), PRESENCE_KEY, false, None, None, 0, 7, Ok(BegunCrypto(EcSignOp, None, [])), AbsentEnv())
  }

  function BareArgs(): OpArgs { OpArgs(7, None, None, AbsentEnv()) }

  function TokenArgs(): OpArgs { OpArgs(7, Some(PASSWORD_TOKEN), None, AbsentEnv()) }

  lemma PresenceKeyDemands()
    ensures RequiredAuth(PRESENCE_KEY) == Ok(Some(AuthInfo([1], 1, None)))
    ensures Tags.GetBoolTagValue(PRESENCE_KEY, TrustedUserPresenceRequired) == Ok(true)
    ensures Tags.GetOptTagValue(PRESENCE_KEY, UsageCountLimitOf, InvalidTag) == Ok(None)
  {
    assert Tags.Select(PRESENCE_KEY, SecureIdOf) == [1];
    assert Tags.Select(PRESENCE_KEY, AuthTypeOf) == [1];
    assert Tags.Select(PRESENCE_KEY, AuthTimeoutOf) == [];
  }

  lemma PasswordTokenPasses()
    ensures CheckAuthToken(AbsentEnv().hmac, PASSWORD_TOKEN, AuthInfo([1], 1, None), None, None, Some(7)) == Ok(())
  {
    SuitableAuthenticators(1);
    assert NamesUser(PASSWORD_TOKEN, 1);
  }

  function PresenceOp(): Operation<Bytes> { Operation(7, false, None, None, Some(AuthInfo([1], 1, None)), EcSignOp, None, [], 0) }

  lemma PresenceOpBegins()
    ensures Begin(EchoConfig(), Initial(), PresenceBegin()) == (TaState(map[7 := PresenceOp()], Some(7), []), Ok(7))
  {
    PresenceKeyDemands();
  }

  lemma BareUpdateIsRefused(data: Bytes)
    ensures Update(EchoConfig(), TaState(map[7 := PresenceOp()], Some(7), []), BareArgs(), data) ==
            (TaState(map[7 := PresenceOp()], None, []), Err(KeyUserNotAuthenticated))
  {
  }

  lemma TokenFinishSucceeds()
    ensures Finish(EchoConfig(), TaState(map[7 := PresenceOp()], None, []), TokenArgs(), FinishArgs(None, None, None)).1 == Ok([])
  {
    PasswordTokenPasses();
  }

  lemma TwoCalls<S>(cfg: Config<S>, begin: Call<S>, next: Call<S>)
    requires !next.BeginCalled?
    ensures After(cfg, [begin, next]) == Step(cfg, Step(cfg, Initial(), begin).0, next).0 && ValidRun(cfg, [begin, next])
  {
    assert [begin, next][..1] == [begin] && [begin][..0] == [];
    assert After(cfg, [begin]) == Step(cfg, Initial(), begin).0;
    assert ValidRun(cfg, [begin]);
  }

  function RefusedRun(): seq<Call<Bytes>> { [BeginCalled(PresenceBegin()), UpdateCalled(BareArgs(), [])] }

  lemma RefusedRunLeads()
    ensures ValidRun(EchoConfig(), RefusedRun()) && After(EchoConfig(), RefusedRun()) == TaState(map[7 := PresenceOp()], None, [])
  {
    TwoCalls<Bytes>(EchoConfig(), BeginCalled(PresenceBegin()), UpdateCalled(BareArgs(), []));
    PresenceOpBegins();
    BareUpdateIsRefused([]);
  }

  /** Begin, an update without a token, and a finish with one: it succeeds although the key needs presence
      and none is available throughout. */
  lemma PresenceNeverShown()
    ensures ValidRun(EchoConfig(), RefusedRun()) && NeedsPresence(PresenceBegin())
    ensures !PresenceBegin().env.tupAvailable && !BareArgs().env.tupAvailable && !TokenArgs().env.tupAvailable
    ensures Finish(EchoConfig(), After(EchoConfig(), RefusedRun()), TokenArgs(), FinishArgs(None, None, None)).1 == Ok([])
  {
    PresenceKeyDemands();
    RefusedRunLeads();
    TokenFinishSucceeds();
  }
}
