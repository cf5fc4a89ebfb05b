/** When `begin` succeeds and what it sets up (ta/src/operation.rs), said of the key's characteristics. */
module BeginOutcome {
  import opened Base
  import opened KeyParams
  import opened Auth
  import opened OperationSpec
  import opened Tags

  /** A flag is given at most once. */
  ghost predicate FlagOnce(chars: seq<KeyParam>, f: FlagTag) { Lacks(chars, OfFlag(f)) || Sole(chars, Flag(f)) }

  ghost predicate LimitOnce(chars: seq<KeyParam>) {
    Lacks(chars, OfUint(UsageCountLimit)) || exists v: U32 :: Sole(chars, Uint(UsageCountLimit, v))
  }

  lemma LimitLookup(chars: seq<KeyParam>)
    ensures forall v: U32 :: GetOptTagValue(chars, UsageCountLimitOf, InvalidTag) == Ok(Some(v)) <==> Sole(chars, Uint(UsageCountLimit, v))
    ensures GetOptTagValue(chars, UsageCountLimitOf, InvalidTag) == Ok(None) <==> Lacks(chars, OfUint(UsageCountLimit))
    ensures GetOptTagValue(chars, UsageCountLimitOf, InvalidTag).Ok? <==> LimitOnce(chars)
  {
    LookupExact(chars, UsageCountLimitOf, OfUint(UsageCountLimit), (v: U32) => Uint(UsageCountLimit, v), InvalidTag);
    var r := GetOptTagValue(chars, UsageCountLimitOf, InvalidTag);
    if r.Ok? && r.value.Some? {
      assert Sole(chars, Uint(UsageCountLimit, r.value.value));
    }
  }

  /** There is room, the keyblob and parameters pass, no tag is repeated, no other operation waits for presence if this
      one needs it, authentication passes and the crypto operation starts. */
  ghost predicate CanBegin<S>(cfg: Config<S>, s: TaState<S>, c: BeginCall<S>) {
    && |s.ops| < cfg.capacity && c.checks.Ok? && c.begun.Ok?
    && (c.signing ==> FlagOnce(c.chars, TrustedConfirmationRequired))
    && LimitOnce(c.chars) && FlagOnce(c.chars, TrustedUserPresenceRequired)
    && (Sole(c.chars, Flag(TrustedUserPresenceRequired)) ==> s.presence.None?)
    && RequiredAuth(c.chars).Ok? && CheckBeginAuth(cfg.hasClock, c.env.hmac, RequiredAuth(c.chars).value, c.token, c.now).Ok?
  }

  /** The operation that begins: nothing fed yet, its slot to be deleted exactly for a limit of one use, its
      confirmation data started exactly if it signs with a key that needs confirmation. */
  ghost predicate BegunAs<S>(cfg: Config<S>, c: BeginCall<S>, op: Operation<S>)
    requires c.begun.Ok? && RequiredAuth(c.chars).Ok?
  {
    && op.handle == c.handle && op.inputSize == 0
    && op.kind == c.begun.value.kind && op.maxInput == c.begun.value.maxInput && op.crypto == c.begun.value.crypto
    && (op.aadAllowed <==> op.kind == AesGcmOp)
    && op.slotToDelete == (if Sole(c.chars, Uint(UsageCountLimit, 1)) then c.sddSlot else None)
    && op.trustedConfData ==
         (if c.signing && Sole(c.chars, Flag(TrustedConfirmationRequired)) then Some(CONFIRMATION_DATA_PREFIX) else None)
    && Ok(op.authInfo) == CheckBeginAuth(cfg.hasClock, c.env.hmac, RequiredAuth(c.chars).value, c.token, c.now)
  }

  /** `begin` succeeds exactly then; it adds that operation and its claim to presence, and a failure changes nothing. */
  lemma BeginExact<S>(cfg: Config<S>, s: TaState<S>, c: BeginCall<S>)
    ensures var (s', r) := Begin(cfg, s, c);
            && (r.Ok? <==> CanBegin(cfg, s, c))
            && (r.Err? ==> s' == s)
            && (r.Ok? ==>
                  && r.value == c.handle && c.handle in s'.ops && BegunAs(cfg, c, s'.ops[c.handle])
                  && s' == s.(ops := s.ops[c.handle := s'.ops[c.handle]], presence := s'.presence)
                  && s'.presence == if Sole(c.chars, Flag(TrustedUserPresenceRequired)) then Some(c.handle) else s.presence)
  {
    FlagExact(c.chars, TrustedConfirmationRequired);
    FlagExact(c.chars, TrustedUserPresenceRequired);
    LimitLookup(c.chars);
    NewOperationExact(cfg, s.presence, c);
  }

  lemma NewOperationExact<S>(cfg: Config<S>, presence: Option<I64>, c: BeginCall<S>)
    ensures var r, confirm, limit, needs := NewOperation(cfg, presence, c), GetBoolTagValue(c.chars, TrustedConfirmationRequired),
              GetOptTagValue(c.chars, UsageCountLimitOf, InvalidTag), GetBoolTagValue(c.chars, TrustedUserPresenceRequired);
            && (r.Ok? <==>
                  && c.checks.Ok? && (c.signing ==> confirm.Ok?) && limit.Ok? && needs.Ok? && !(needs.value && presence.Some?)
                  && RequiredAuth(c.chars).Ok? && c.begun.Ok?
                  && CheckBeginAuth(cfg.hasClock, c.env.hmac, RequiredAuth(c.chars).value, c.token, c.now).Ok?)
            && (r.Ok? ==>
                  && r.value.1 == needs.value
                  && r.value.0 ==
                     Operation(c.handle, c.begun.value.kind == AesGcmOp, if limit.value == Some(1) then c.sddSlot else None,
                               if c.signing && confirm.value then Some(CONFIRMATION_DATA_PREFIX) else None,
                               CheckBeginAuth(cfg.hasClock, c.env.hmac, RequiredAuth(c.chars).value, c.token, c.now).value,
                               c.begun.value.kind, c.begun.value.maxInput, c.begun.value.crypto, 0))
  {
  }
}
