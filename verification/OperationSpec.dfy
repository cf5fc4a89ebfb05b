/** In-flight operations as a state machine (ta/src/operation.rs): a bounded map from handles to
    operations, and what begin, updateAad, update, finish and abort do to it. */
module OperationSpec {
  import opened Base
  import opened KeyParams
  import opened Auth
  import Tags

  const CONFIRMATION_TOKEN_SIZE := 32
  const CONFIRMATION_MESSAGE_MAX_LEN := 6144

  /** The crypto layer's operation objects: state in, state and output out. */
  datatype Crypto<!S> = Crypto(
    update: (S, Bytes) -> Result<(S, Bytes)>,
    updateAad: (S, Bytes) -> Result<S>,
    finish: S -> Result<Bytes>)

  datatype OpKind =
    | AesOp | AesGcmOp | DesOp
    | HmacSignOp(tagLen: nat) | HmacVerifyOp(minLen: nat, maxLen: nat)
    | RsaDecryptOp | RsaSignOp | EcAgreeOp | EcSignOp
  {
    /** Emits output as it progresses, rather than only when it completes. */
    predicate Emits() { AesOp? || AesGcmOp? || DesOp? }
  }

  datatype Operation<S> = Operation(
    handle: I64, aadAllowed: bool, slotToDelete: Option<nat>, trustedConfData: Option<Bytes>,
    authInfo: Option<AuthInfo>, kind: OpKind, maxInput: Option<nat>, crypto: S, inputSize: nat)

  /** What stays fixed: the crypto layer, whether there is a clock, and the table size. */
  datatype Config<!S> = Config(crypto: Crypto<S>, hasClock: bool, capacity: nat)

  /** What the surroundings contribute to one call. */
  datatype Env = Env(hmac: DeviceHmac, tupAvailable: bool)

  datatype TaState<S> = TaState(ops: map<I64, Operation<S>>, presence: Option<I64>, deletedSlots: seq<nat>)

  function Initial<S>(): TaState<S> { TaState(map[], None, []) }

  // ---- begin ----

  /** A begun crypto operation: its kind, its input limit and its initial state. */
  datatype BegunCrypto<S> = BegunCrypto(kind: OpKind, maxInput: Option<nat>, crypto: S)

  /** `checks` is the outcome of parsing the keyblob and of the parameter and usage checks, `handle`
      the random handle drawn, and `begun` the outcome of starting the crypto operation. */
  datatype BeginCall<S> = BeginCall(
    checks: Result<()>, chars: seq<KeyParam>, signing: bool, sddSlot: Option<nat>,
    token: Option<HardwareAuthToken>, now: I64, handle: I64, begun: Result<BegunCrypto<S>>, env: Env)

  function UsageCountLimitOf(p: KeyParam): Option<U32> {
    if p.Uint? && p.uintTag == UsageCountLimit then Some(p.u32) else None
  }

  function NewOperation<S>(cfg: Config<S>, presence: Option<I64>, c: BeginCall<S>): Result<(Operation<S>, bool)> {
    var _ :- c.checks;
    var confirm :- if c.signing then Tags.GetBoolTagValue(c.chars, TrustedConfirmationRequired) else Ok(false);
    var limit :- Tags.GetOptTagValue(c.chars, UsageCountLimitOf, InvalidTag);
    var needsPresence :- Tags.GetBoolTagValue(c.chars, TrustedUserPresenceRequired);
    var _ :- if needsPresence && presence.Some? then Err(ConcurrentProofOfPresenceRequested) else Ok(());
    var required :- RequiredAuth(c.chars);
    var left :- CheckBeginAuth(cfg.hasClock, c.env.hmac, required, c.token, c.now);
    var b :- c.begun;
    Ok((Operation(c.handle, b.kind == AesGcmOp, if limit == Some(1) then c.sddSlot else None,
                  if confirm then Some(CONFIRMATION_DATA_PREFIX) else None, left, b.kind, b.maxInput, b.crypto, 0),
        needsPresence))
  }

  function Begin<S>(cfg: Config<S>, s: TaState<S>, c: BeginCall<S>): (TaState<S>, Result<I64>) {
    if |s.ops| >= cfg.capacity then (s, Err(TooManyOperations))
    else
      match NewOperation(cfg, s.presence, c)
      case Err(e) => (s, Err(e))
      case Ok((op, needsPresence)) =>
        (s.(ops := s.ops[c.handle := op], presence := if needsPresence then Some(c.handle) else s.presence), Ok(c.handle))
  }

  // ---- Calls on an operation ----

  /** Arguments common to updateAad, update and finish. */
  datatype OpArgs = OpArgs(
    handle: I64, token: Option<HardwareAuthToken>, timestamp: Option<TimeStampToken>, env: Env)

  function Authorize<S>(cfg: Config<S>, op: Operation<S>, a: OpArgs): Result<Operation<S>> {
    var again :- CheckSubsequentAuth(cfg.hasClock, a.env.hmac, op.handle, op.authInfo, a.token, a.timestamp);
    Ok(if again then op else op.(authInfo := None))
  }

  function ClearPresence(presence: Option<I64>, h: I64): Option<I64> {
    if presence == Some(h) then None else presence
  }

  /** `with_authed_operation`: an authentication failure leaves the operation in place, a failure of
      the operation itself (`Err`) destroys it. */
  function WithAuthed<S, T>(cfg: Config<S>, s: TaState<S>, a: OpArgs, f: Operation<S> -> Result<(Operation<S>, T)>)
    : (TaState<S>, Result<T>)
  {
    if a.handle !in s.ops then (s, Err(InvalidOperation))
    else
      match Authorize(cfg, s.ops[a.handle], a)
      case Err(e) => (s, Err(e))
      case Ok(op) =>
        match f(op)
        case Err(e) => (s.(ops := s.ops - {a.handle}, presence := ClearPresence(s.presence, a.handle)), Err(e))
        case Ok((op', out)) => (s.(ops := s.ops[a.handle := op']), Ok(out))
  }

  function AadBody<S>(cfg: Config<S>, op: Operation<S>, data: Bytes): Result<(Operation<S>, ())> {
    if !op.aadAllowed then Err(InvalidTag)
    else if op.kind != AesGcmOp then Err(InvalidOperation)
    else
      var st :- cfg.crypto.updateAad(op.crypto, data);
      Ok((op.(crypto := st), ()))
  }

  function UpdateAad<S>(cfg: Config<S>, s: TaState<S>, a: OpArgs, data: Bytes): (TaState<S>, Result<()>) {
    WithAuthed(cfg, s, a, op => AadBody(cfg, op, data))
  }

  /** Buffer data that needs a trusted confirmation, up to the size limit. */
  function Confirmable<S>(op: Operation<S>, data: Bytes): Result<Operation<S>> {
    match op.trustedConfData
    case None => Ok(op)
    case Some(buf) =>
      if |buf| + |data| > |CONFIRMATION_DATA_PREFIX| + CONFIRMATION_MESSAGE_MAX_LEN then Err(InvalidArgument)
      else Ok(op.(trustedConfData := Some(buf + data)))
  }

  /** `check_size`: only operations that accumulate input have a limit. */
  function CheckSize<S>(op: Operation<S>, len: nat): Result<Operation<S>> {
    var op' := op.(inputSize := op.inputSize + len);
    if !op.kind.Emits() && op.maxInput.Some? && op'.inputSize > op.maxInput.value then Err(InvalidInputLength) else Ok(op')
  }

  function UpdateBody<S>(cfg: Config<S>, op: Operation<S>, data: Bytes, presenceOk: bool): Result<(Operation<S>, Bytes)> {
    var _ :- if presenceOk then Ok(()) else Err(ProofOfPresenceRequired);
    var op1 :- Confirmable(op, data);
    var op2 :- CheckSize(op1.(aadAllowed := false), |data|);
    var step :- cfg.crypto.update(op2.crypto, data);
    Ok((op2.(crypto := step.0), if op.kind.Emits() then step.1 else []))
  }

  /** Presence is used up by the first update, even one that then fails authentication. */
  function Update<S>(cfg: Config<S>, s: TaState<S>, a: OpArgs, data: Bytes): (TaState<S>, Result<Bytes>) {
    var presenceOk := s.presence != Some(a.handle) || a.env.tupAvailable;
    WithAuthed(cfg, s.(presence := ClearPresence(s.presence, a.handle)), a, op => UpdateBody(cfg, op, data, presenceOk))
  }

  // ---- finish and abort ----

  function VerifyConfirmationToken(hmac: DeviceHmac, data: Bytes, token: Option<Bytes>): Result<()> {
    if token.None? then Err(NoUserConfirmation)
    else if |token.value| != CONFIRMATION_TOKEN_SIZE then Err(InvalidArgument)
    else
      match VerifyDeviceHmac(hmac, data, token.value)
      case Err(_) => Err(VerificationFailed)
      case Ok(same) => if same then Ok(()) else Err(NoUserConfirmation)
  }

  function FeedLast<S>(cfg: Config<S>, st: S, data: Option<Bytes>): Result<(S, Bytes)> {
    if data.Some? then cfg.crypto.update(st, data.value) else Ok((st, []))
  }

  /** The last cipher calls and what becomes of their output. A signature that is longer than the
      MAC it is compared with is sliced out of bounds, which `Panic` records. */
  function Conclude<S>(cfg: Config<S>, op: Operation<S>, data: Option<Bytes>, signature: Option<Bytes>): Result<Bytes> {
    var _ :-
      match op.kind {
        case HmacVerifyOp(minLen, maxLen) =>
          if signature.None? || !(minLen <= |signature.value| < maxLen) then Err(InvalidArgument) else Ok(())
        case _ => Ok(())
      };
    var step :- FeedLast(cfg, op.crypto, data);
    var out :- cfg.crypto.finish(step.0);
    match op.kind
    case HmacSignOp(tagLen) => Ok(if |out| <= tagLen then out else out[..tagLen])
    case HmacVerifyOp(_, _) =>
      if |signature.value| > |out| then Err(Panic)
      else if out[..|signature.value|] == signature.value then Ok([]) else Err(VerificationFailed)
    case _ => Ok(if op.kind.Emits() then step.1 + out else out)
  }

  datatype FinishArgs = FinishArgs(data: Option<Bytes>, signature: Option<Bytes>, confirmation: Option<Bytes>)

  function DataOf(f: FinishArgs): Bytes { if f.data.Some? then f.data.value else [] }

  /** Everything `op_finish` does with the operation it has taken out of the table. */
  function FinishBody<S>(cfg: Config<S>, op: Operation<S>, env: Env, presenceOk: bool, f: FinishArgs): Result<Bytes> {
    var _ :- if presenceOk then Ok(()) else Err(ProofOfPresenceRequired);
    var op1 :- if f.data.Some? then Confirmable(op, f.data.value) else Ok(op);
    var op2 :- CheckSize(op1, |DataOf(f)|);
    var out :- Conclude(cfg, op2, f.data, f.signature);
    var _ :- if op2.trustedConfData.Some? then VerifyConfirmationToken(env.hmac, op2.trustedConfData.value, f.confirmation) else Ok(());
    Ok(out)
  }

  /** The operation leaves the table first, whatever happens next. */
  function Finish<S>(cfg: Config<S>, s: TaState<S>, a: OpArgs, f: FinishArgs): (TaState<S>, Result<Bytes>) {
    if a.handle !in s.ops then (s, Err(InvalidOperation))
    else
      var op := s.ops[a.handle];
      var s1 := s.(ops := s.ops - {a.handle});
      match CheckSubsequentAuth(cfg.hasClock, a.env.hmac, op.handle, op.authInfo, a.token, a.timestamp)
      case Err(e) => (s1, Err(e))
      case Ok(_) =>
        var presenceOk := s.presence != Some(a.handle) || a.env.tupAvailable;
        var s2 := s1.(presence := ClearPresence(s.presence, a.handle));
        match FinishBody(cfg, op, a.env, presenceOk, f)
        case Err(e) => (s2, Err(e))
        case Ok(out) =>
          (if op.slotToDelete.Some? then s2.(deletedSlots := s.deletedSlots + [op.slotToDelete.value]) else s2, Ok(out))
  }

  function Abort<S>(s: TaState<S>, h: I64): (TaState<S>, Result<()>) {
    var s1 := s.(presence := ClearPresence(s.presence, h));
    if h !in s.ops then (s1, Err(InvalidOperation)) else (s1.(ops := s.ops - {h}), Ok(()))
  }
}
