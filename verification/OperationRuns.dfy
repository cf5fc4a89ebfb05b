/** Whole runs of the operation state machine: what holds of every live operation after every
    sequence of calls, in terms of the calls that were made on it since it began. */
module OperationRuns {
  import opened Base
  import opened KeyParams
  import opened Auth
  import opened OperationSpec
  import Tags

  // ---- Runs ----

  datatype Call<S> =
    | BeginCalled(b: BeginCall<S>)
    | AadCalled(a: OpArgs, data: Bytes)
    | UpdateCalled(a: OpArgs, data: Bytes)
    | FinishCalled(a: OpArgs, f: FinishArgs)
    | AbortCalled(handle: I64)

  /** New state, and whether the call succeeded. */
  function Step<S>(cfg: Config<S>, s: TaState<S>, c: Call<S>): (TaState<S>, bool) {
    match c
    case BeginCalled(b) => var (s', r) := Begin(cfg, s, b); (s', r.Ok?)
    case AadCalled(a, data) => var (s', r) := UpdateAad(cfg, s, a, data); (s', r.Ok?)
    case UpdateCalled(a, data) => var (s', r) := Update(cfg, s, a, data); (s', r.Ok?)
    case FinishCalled(a, f) => var (s', r) := Finish(cfg, s, a, f); (s', r.Ok?)
    case AbortCalled(h) => var (s', r) := Abort(s, h); (s', r.Ok?)
  }

  function After<S>(cfg: Config<S>, calls: seq<Call<S>>): TaState<S> {
    if calls == [] then Initial()
    else Step(cfg, After(cfg, calls[..|calls| - 1]), calls[|calls| - 1]).0
  }

  /** Handles are drawn until an unused one comes up. */
  predicate ValidRun<S>(cfg: Config<S>, calls: seq<Call<S>>) {
    calls == [] ||
    (var init, last := calls[..|calls| - 1], calls[|calls| - 1];
     ValidRun(cfg, init) && (last.BeginCalled? ==> last.b.handle !in After(cfg, init).ops))
  }

  // ---- The life of an operation ----

  /** A successful updateAad (`aad`) or update. */
  datatype OpCall = OpCall(aad: bool, a: OpArgs, data: Bytes)

  /** How an operation began, and the successful calls on it since. */
  datatype Life<S> = Life(begin: BeginCall<S>, calls: seq<OpCall>)

  function Extend<S>(life: Option<Life<S>>, c: OpCall): Option<Life<S>> {
    if life.Some? then Some(life.value.(calls := life.value.calls + [c])) else None
  }

  /** How a call changes the life under handle `h`; failed calls leave no trace. */
  function NextLife<S>(life: Option<Life<S>>, c: Call<S>, ok: bool, h: I64): Option<Life<S>> {
    if !ok then life
    else
      match c
      case BeginCalled(b) => if b.handle == h then Some(Life(b, [])) else life
      case AadCalled(a, data) => if a.handle == h then Extend(life, OpCall(true, a, data)) else life
      case UpdateCalled(a, data) => if a.handle == h then Extend(life, OpCall(false, a, data)) else life
      case _ => life
  }

  /** The life of the operation last begun under handle `h`. */
  function LifeOf<S>(cfg: Config<S>, calls: seq<Call<S>>, h: I64): Option<Life<S>> {
    if calls == [] then None
    else
      var init, last := calls[..|calls| - 1], calls[|calls| - 1];
      NextLife(LifeOf(cfg, init, h), last, Step(cfg, After(cfg, init), last).1, h)
  }

  /** All data, in order. */
  function Data(calls: seq<OpCall>): Bytes {
    if calls == [] then []
    else
      var init, last := calls[..|calls| - 1], calls[|calls| - 1];
      if last.aad then Data(init) else Data(init) + last.data
  }

  predicate HasData(calls: seq<OpCall>) { exists k :: 0 <= k < |calls| && !calls[k].aad }

  /** No additional data after data. */
  predicate AadFirst(calls: seq<OpCall>) {
    forall j, k :: 0 <= j < k < |calls| && calls[k].aad ==> calls[j].aad
  }

  /** The crypto state after feeding it these calls and nothing else. */
  function Fed<S>(cfg: Config<S>, st: S, calls: seq<OpCall>): Result<S> {
    if calls == [] then Ok(st)
    else
      var before :- Fed(cfg, st, calls[..|calls| - 1]);
      var last := calls[|calls| - 1];
      if last.aad then cfg.crypto.updateAad(before, last.data)
      else
        var step :- cfg.crypto.update(before, last.data);
        Ok(step.0)
  }

  predicate NeedsConfirmation<S>(b: BeginCall<S>) {
    b.signing && Tags.GetBoolTagValue(b.chars, TrustedConfirmationRequired) == Ok(true)
  }

  function SlotToDelete<S>(b: BeginCall<S>): Option<nat> {
    if Tags.GetOptTagValue(b.chars, UsageCountLimitOf, InvalidTag) == Ok(Some(1)) then b.sddSlot else None
  }

  // ---- What holds of every live operation ----

  /** The size limit that applies to an operation. */
  function Limit<S>(b: BegunCrypto<S>): Option<nat> { if b.kind.Emits() then None else b.maxInput }

  /** Kind, slot, data accounting and crypto state are those of the operation's life. */
  ghost predicate DataInv<S>(cfg: Config<S>, op: Operation<S>, life: Life<S>) {
    && life.begin.begun.Ok?
    && var b := life.begin.begun.value;
    && op.handle == life.begin.handle && op.kind == b.kind && op.maxInput == b.maxInput
    && op.slotToDelete == SlotToDelete(life.begin)
    && op.inputSize == |Data(life.calls)|
    && (Limit(b).Some? ==> op.inputSize <= Limit(b).value)
    && op.trustedConfData ==
         (if NeedsConfirmation(life.begin) then Some(CONFIRMATION_DATA_PREFIX + Data(life.calls)) else None)
    && (NeedsConfirmation(life.begin) ==> |Data(life.calls)| <= CONFIRMATION_MESSAGE_MAX_LEN)
    && AadFirst(life.calls)
    && (op.aadAllowed <==> op.kind == AesGcmOp && !HasData(life.calls))
    && Fed(cfg, b.crypto, life.calls) == Ok(op.crypto)
  }

  /** A per-call token, valid for this operation. */
  ghost predicate CallHasToken(c: OpArgs, info: AuthInfo, h: I64) {
    TokenForOperation(c.env.hmac, c.token, info, h)
  }

  ghost predicate CallHasTimedToken(c: OpArgs, info: AuthInfo, h: I64) {
    TimedTokenForOperation(c.env.hmac, c.token, c.timestamp, info, h)
  }

  ghost predicate BeginHadToken<S>(b: BeginCall<S>, info: AuthInfo) {
    && b.token.Some? && ValidToken(b.env.hmac, b.token.value, info)
    && info.timeoutSecs.Some? && Fresh(b.token.value, b.now, info.timeoutSecs.value)
  }

  /** What has been authenticated so far, and what is still to be checked. */
  ghost predicate AuthInv<S>(cfg: Config<S>, op: Operation<S>, life: Life<S>) {
    match RequiredAuth(life.begin.chars)
    case Err(_) => false
    case Ok(None) => op.authInfo == None
    case Ok(Some(info)) =>
      if info.timeoutSecs.None? then
        op.authInfo == Some(info)
        && forall k :: 0 <= k < |life.calls| ==> CallHasToken(life.calls[k].a, info, op.handle)
      else if cfg.hasClock then
        op.authInfo == None && BeginHadToken(life.begin, info)
      else if life.calls == [] then
        op.authInfo == Some(info)
      else
        op.authInfo == None && CallHasTimedToken(life.calls[0].a, info, op.handle)
  }

  /** The entry under `h`, if there is one, has a life and agrees with it. */
  ghost predicate EntryInv<S>(cfg: Config<S>, s: TaState<S>, life: Option<Life<S>>, h: I64) {
    h in s.ops ==>
      && life.Some? && s.ops[h].handle == h
      && DataInv(cfg, s.ops[h], life.value)
      && AuthInv(cfg, s.ops[h], life.value)
  }

  ghost predicate Inv<S>(cfg: Config<S>, calls: seq<Call<S>>) {
    && |After(cfg, calls).ops| <= cfg.capacity
    && forall h :: EntryInv(cfg, After(cfg, calls), LifeOf(cfg, calls, h), h)
  }

  // ---- One operation, one call ----

  lemma BeginEstablishes<S>(cfg: Config<S>, presence: Option<I64>, b: BeginCall<S>)
    requires NewOperation(cfg, presence, b).Ok?
    ensures var op := NewOperation(cfg, presence, b).value.0;
            op.handle == b.handle && DataInv(cfg, op, Life(b, [])) && AuthInv(cfg, op, Life(b, []))
  {
    assert CONFIRMATION_DATA_PREFIX + Data([]) == CONFIRMATION_DATA_PREFIX;
  }

  lemma DataSnoc(calls: seq<OpCall>, c: OpCall)
    ensures Data(calls + [c]) == if c.aad then Data(calls) else Data(calls) + c.data
    ensures HasData(calls + [c]) <==> HasData(calls) || !c.aad
  {
    var ext := calls + [c];
    assert ext[..|ext| - 1] == calls && ext[|ext| - 1] == c;
    if HasData(calls) {
      var k :| 0 <= k < |calls| && !calls[k].aad;
      assert !ext[k].aad;
    }
  }

  lemma FedSnoc<S>(cfg: Config<S>, st: S, calls: seq<OpCall>, c: OpCall, before: S)
    requires Fed(cfg, st, calls) == Ok(before)
    ensures Fed(cfg, st, calls + [c]) ==
            if c.aad then cfg.crypto.updateAad(before, c.data)
            else match cfg.crypto.update(before, c.data) { case Ok(step) => Ok(step.0) case Err(e) => Err(e) }
  {
    var ext := calls + [c];
    assert ext[..|ext| - 1] == calls && ext[|ext| - 1] == c;
  }

  lemma AadKeepsData<S>(cfg: Config<S>, op: Operation<S>, life: Life<S>, a: OpArgs, data: Bytes)
    requires DataInv(cfg, op, life) && Authorize(cfg, op, a).Ok?
    requires AadBody(cfg, Authorize(cfg, op, a).value, data).Ok?
    ensures DataInv(cfg, AadBody(cfg, Authorize(cfg, op, a).value, data).value.0,
                    life.(calls := life.calls + [OpCall(true, a, data)]))
  {
    var c := OpCall(true, a, data);
    DataSnoc(life.calls, c);
    FedSnoc(cfg, life.begin.begun.value.crypto, life.calls, c, op.crypto);
  }

  lemma UpdateBodyShape<S>(cfg: Config<S>, op: Operation<S>, data: Bytes, presenceOk: bool)
    requires UpdateBody(cfg, op, data, presenceOk).Ok?
    ensures cfg.crypto.update(op.crypto, data).Ok?
    ensures UpdateBody(cfg, op, data, presenceOk).value.0 ==
            op.(aadAllowed := false, inputSize := op.inputSize + |data|,
                trustedConfData := if op.trustedConfData.Some? then Some(op.trustedConfData.value + data) else None,
                crypto := cfg.crypto.update(op.crypto, data).value.0)
    ensures !op.kind.Emits() && op.maxInput.Some? ==> op.inputSize + |data| <= op.maxInput.value
    ensures op.trustedConfData.Some? ==>
              |op.trustedConfData.value| + |data| <= |CONFIRMATION_DATA_PREFIX| + CONFIRMATION_MESSAGE_MAX_LEN
  {
  }

  lemma UpdateKeepsData<S>(cfg: Config<S>, op: Operation<S>, life: Life<S>, a: OpArgs, data: Bytes, presenceOk: bool)
    requires DataInv(cfg, op, life) && Authorize(cfg, op, a).Ok?
    requires UpdateBody(cfg, Authorize(cfg, op, a).value, data, presenceOk).Ok?
    ensures DataInv(cfg, UpdateBody(cfg, Authorize(cfg, op, a).value, data, presenceOk).value.0,
                    life.(calls := life.calls + [OpCall(false, a, data)]))
  {
    var c := OpCall(false, a, data);
    UpdateBodyShape(cfg, Authorize(cfg, op, a).value, data, presenceOk);
    DataSnoc(life.calls, c);
    FedSnoc(cfg, life.begin.begun.value.crypto, life.calls, c, op.crypto);
    assert CONFIRMATION_DATA_PREFIX + Data(life.calls) + data == CONFIRMATION_DATA_PREFIX + (Data(life.calls) + data);
  }

  /** Authorizing a call adds exactly the evidence the key demands. */
  lemma AuthorizeKeepsAuth<S>(cfg: Config<S>, op: Operation<S>, op': Operation<S>, life: Life<S>, c: OpCall)
    requires AuthInv(cfg, op, life) && op.handle == c.a.handle
    requires Authorize(cfg, op, c.a).Ok?
    requires op'.handle == op.handle && op'.authInfo == Authorize(cfg, op, c.a).value.authInfo
    ensures AuthInv(cfg, op', life.(calls := life.calls + [c]))
  {
    SubsequentAuthExact(cfg.hasClock, c.a.env.hmac, op.handle, op.authInfo, c.a.token, c.a.timestamp);
  }

  lemma BeginKeepsEntry<S>(cfg: Config<S>, s: TaState<S>, b: BeginCall<S>, life: Option<Life<S>>, h: I64)
    requires EntryInv(cfg, s, life, h)
    ensures var (s', r) := Begin(cfg, s, b); EntryInv(cfg, s', NextLife(life, BeginCalled(b), r.Ok?, h), h)
  {
    if Begin(cfg, s, b).1.Ok? && b.handle == h {
      BeginEstablishes(cfg, s.presence, b);
    }
  }

  lemma AadKeepsEntry<S>(cfg: Config<S>, s: TaState<S>, a: OpArgs, data: Bytes, life: Option<Life<S>>, h: I64)
    requires EntryInv(cfg, s, life, h)
    ensures var (s', r) := UpdateAad(cfg, s, a, data);
            EntryInv(cfg, s', NextLife(life, AadCalled(a, data), r.Ok?, h), h)
  {
    var (s', r) := UpdateAad(cfg, s, a, data);
    if r.Ok? && a.handle == h {
      AadKeepsData(cfg, s.ops[h], life.value, a, data);
      AuthorizeKeepsAuth(cfg, s.ops[h], s'.ops[h], life.value, OpCall(true, a, data));
    }
  }

  /** What `Update` does to the table. */
  lemma UpdateShape<S>(cfg: Config<S>, s: TaState<S>, a: OpArgs, data: Bytes)
    ensures var (s', r) := Update(cfg, s, a, data);
            var presenceOk := s.presence != Some(a.handle) || a.env.tupAvailable;
            && (r.Ok? ==>
                  && a.handle in s.ops && Authorize(cfg, s.ops[a.handle], a).Ok?
                  && UpdateBody(cfg, Authorize(cfg, s.ops[a.handle], a).value, data, presenceOk).Ok?
                  && s'.ops == s.ops[a.handle := UpdateBody(cfg, Authorize(cfg, s.ops[a.handle], a).value, data, presenceOk).value.0])
            && (r.Err? ==> s'.ops == s.ops || s'.ops == s.ops - {a.handle})
  {
  }

  lemma UpdateKeepsEntry<S>(cfg: Config<S>, s: TaState<S>, a: OpArgs, data: Bytes, life: Option<Life<S>>, h: I64)
    requires EntryInv(cfg, s, life, h)
    ensures var (s', r) := Update(cfg, s, a, data);
            EntryInv(cfg, s', NextLife(life, UpdateCalled(a, data), r.Ok?, h), h)
  {
    var (s', r) := Update(cfg, s, a, data);
    UpdateShape(cfg, s, a, data);
    if r.Ok? && a.handle == h {
      UpdateBodyShape(cfg, Authorize(cfg, s.ops[h], a).value, data, s.presence != Some(h) || a.env.tupAvailable);
      UpdateKeepsData(cfg, s.ops[h], life.value, a, data, s.presence != Some(h) || a.env.tupAvailable);
      AuthorizeKeepsAuth(cfg, s.ops[h], s'.ops[h], life.value, OpCall(false, a, data));
    }
  }

  lemma StepKeepsEntry<S>(cfg: Config<S>, s: TaState<S>, c: Call<S>, life: Option<Life<S>>, h: I64)
    requires EntryInv(cfg, s, life, h)
    ensures var (s', ok) := Step(cfg, s, c); EntryInv(cfg, s', NextLife(life, c, ok, h), h)
  {
    match c {
      case BeginCalled(b) => BeginKeepsEntry(cfg, s, b, life, h);
      case AadCalled(a, data) => AadKeepsEntry(cfg, s, a, data, life, h);
      case UpdateCalled(a, data) => UpdateKeepsEntry(cfg, s, a, data, life, h);
      case FinishCalled(a, f) =>
      case AbortCalled(h') =>
    }
  }

  // ---- Every run ----

  /** The invariant holds after every run. */
  lemma {:induction false} RunKeepsInv<S>(cfg: Config<S>, calls: seq<Call<S>>)
    requires ValidRun(cfg, calls)
    ensures Inv(cfg, calls)
  {
    if calls != [] {
      var init, last := calls[..|calls| - 1], calls[|calls| - 1];
      RunKeepsInv(cfg, init);
      forall h ensures EntryInv(cfg, After(cfg, calls), LifeOf(cfg, calls, h), h) {
        StepKeepsEntry(cfg, After(cfg, init), last, LifeOf(cfg, init, h), h);
      }
      TableStaysBounded(cfg, After(cfg, init), last);
    }
  }

  lemma TableStaysBounded<S>(cfg: Config<S>, s: TaState<S>, c: Call<S>)
    requires |s.ops| <= cfg.capacity
    ensures |Step(cfg, s, c).0.ops| <= cfg.capacity
  {
    var s' := Step(cfg, s, c).0;
    if c.BeginCalled? {
      assert s'.ops.Keys <= s.ops.Keys + {c.b.handle};
    } else {
      assert s'.ops.Keys <= s.ops.Keys;
      CardinalityMonotone(s'.ops.Keys, s.ops.Keys);
    }
  }

  lemma CardinalityMonotone<T>(a: set<T>, b: set<T>)
    requires a <= b
    ensures |a| <= |b|
  {
    assert b == a + (b - a);
  }

  // ---- What a successful finish means ----

  /** The demanded authentication took place over the operation's life, the finish included. */
  ghost predicate Authenticated<S>(cfg: Config<S>, life: Life<S>, finish: OpArgs) {
    match RequiredAuth(life.begin.chars)
    case Err(_) => false
    case Ok(None) => true
    case Ok(Some(info)) =>
      var h := life.begin.handle;
      if info.timeoutSecs.None? then
        CallHasToken(finish, info, h) && forall k :: 0 <= k < |life.calls| ==> CallHasToken(life.calls[k].a, info, h)
      else if cfg.hasClock then
        BeginHadToken(life.begin, info)
      else
        CallHasTimedToken(if life.calls == [] then finish else life.calls[0].a, info, h)
  }

  /** What a run says about one live operation. */
  lemma LiveEntry<S>(cfg: Config<S>, calls: seq<Call<S>>, h: I64) returns (op: Operation<S>, life: Life<S>)
    requires ValidRun(cfg, calls) && h in After(cfg, calls).ops
    ensures op == After(cfg, calls).ops[h] && LifeOf(cfg, calls, h) == Some(life)
    ensures op.handle == h && DataInv(cfg, op, life) && AuthInv(cfg, op, life)
  {
    RunKeepsInv(cfg, calls);
    assert EntryInv(cfg, After(cfg, calls), LifeOf(cfg, calls, h), h);
    op, life := After(cfg, calls).ops[h], LifeOf(cfg, calls, h).value;
  }

  lemma FinishBodyShape<S>(cfg: Config<S>, op: Operation<S>, env: Env, presenceOk: bool, f: FinishArgs)
    requires FinishBody(cfg, op, env, presenceOk, f).Ok?
    ensures !op.kind.Emits() && op.maxInput.Some? ==> op.inputSize + |DataOf(f)| <= op.maxInput.value
    ensures op.trustedConfData.Some? ==>
              var message := op.trustedConfData.value + DataOf(f);
              && (f.data.Some? ==> |message| <= |CONFIRMATION_DATA_PREFIX| + CONFIRMATION_MESSAGE_MAX_LEN)
              && env.hmac.Some? && f.confirmation == Some(env.hmac.value(message))
  {
    if op.trustedConfData.Some? && f.data.None? {
      assert op.trustedConfData.value + DataOf(f) == op.trustedConfData.value;
    }
  }

  /** Over every run: no operation on an authentication-bound key completes unauthenticated. */
  lemma FinishIsAuthenticated<S>(cfg: Config<S>, calls: seq<Call<S>>, a: OpArgs, f: FinishArgs)
    requires ValidRun(cfg, calls) && Finish(cfg, After(cfg, calls), a, f).1.Ok?
    ensures LifeOf(cfg, calls, a.handle).Some?
    ensures Authenticated(cfg, LifeOf(cfg, calls, a.handle).value, a)
  {
    var op, life := LiveEntry(cfg, calls, a.handle);
    SubsequentAuthExact(cfg.hasClock, a.env.hmac, op.handle, op.authInfo, a.token, a.timestamp);
  }

  /** With a clock, no live operation ever has a timeout left to check, so the branch that reports
      one after `begin()` is unreachable. */
  lemma NoTimeoutAfterBegin<S>(cfg: Config<S>, calls: seq<Call<S>>, a: OpArgs)
    requires ValidRun(cfg, calls) && cfg.hasClock && a.handle in After(cfg, calls).ops
    ensures var op := After(cfg, calls).ops[a.handle];
            && (op.authInfo.Some? ==> op.authInfo.value.timeoutSecs.None?)
            && CheckSubsequentAuth(true, a.env.hmac, op.handle, op.authInfo, a.token, a.timestamp) != Err(InvalidAuthorizationTimeout)
  {
    var _, _ := LiveEntry(cfg, calls, a.handle);
  }

  /** Over every run: a completed operation on a key that needs confirmation was confirmed, by a MAC
      over the prefix and the whole message that was fed to the cipher, of at most 6144 bytes. */
  lemma FinishIsConfirmed<S>(cfg: Config<S>, calls: seq<Call<S>>, a: OpArgs, f: FinishArgs)
    requires ValidRun(cfg, calls) && Finish(cfg, After(cfg, calls), a, f).1.Ok?
    ensures LifeOf(cfg, calls, a.handle).Some?
    ensures var life := LifeOf(cfg, calls, a.handle).value;
            var message := Data(life.calls) + DataOf(f);
            NeedsConfirmation(life.begin) ==>
              && |message| <= CONFIRMATION_MESSAGE_MAX_LEN
              && a.env.hmac.Some? && f.confirmation == Some(a.env.hmac.value(CONFIRMATION_DATA_PREFIX + message))
  {
    var op, life := LiveEntry(cfg, calls, a.handle);
    FinishBodyShape(cfg, op, a.env, After(cfg, calls).presence != Some(a.handle) || a.env.tupAvailable, f);
    assert CONFIRMATION_DATA_PREFIX + Data(life.calls) + DataOf(f) == CONFIRMATION_DATA_PREFIX + (Data(life.calls) + DataOf(f));
  }

  /** Over every run: the crypto operation that completes has been fed the life's additional data and
      data, in order and nothing else, and never more than its input limit. */
  lemma FinishFedWithinLimit<S>(cfg: Config<S>, calls: seq<Call<S>>, a: OpArgs, f: FinishArgs)
    requires ValidRun(cfg, calls) && Finish(cfg, After(cfg, calls), a, f).1.Ok?
    ensures LifeOf(cfg, calls, a.handle).Some? && LifeOf(cfg, calls, a.handle).value.begin.begun.Ok?
    ensures var life := LifeOf(cfg, calls, a.handle).value;
            var b := life.begin.begun.value;
            && AadFirst(life.calls)
            && Fed(cfg, b.crypto, life.calls) == Ok(After(cfg, calls).ops[a.handle].crypto)
            && (Limit(b).Some? ==> |Data(life.calls) + DataOf(f)| <= Limit(b).value)
  {
    var op, _ := LiveEntry(cfg, calls, a.handle);
    FinishBodyShape(cfg, op, a.env, After(cfg, calls).presence != Some(a.handle) || a.env.tupAvailable, f);
  }

  /** Slots are deleted by successful finishes of single-use keys and by nothing else. */
  lemma OnlyFinishDeletesSlots<S>(cfg: Config<S>, calls: seq<Call<S>>, c: Call<S>)
    requires ValidRun(cfg, calls)
    ensures var (s', ok) := Step(cfg, After(cfg, calls), c);
            if c.FinishCalled? && ok then
              && LifeOf(cfg, calls, c.a.handle).Some?
              && var slot := SlotToDelete(LifeOf(cfg, calls, c.a.handle).value.begin);
              && s'.deletedSlots == After(cfg, calls).deletedSlots + (if slot.Some? then [slot.value] else [])
            else s'.deletedSlots == After(cfg, calls).deletedSlots
  {
    if c.FinishCalled? && Step(cfg, After(cfg, calls), c).1 {
      var _, _ := LiveEntry(cfg, calls, c.a.handle);
    }
  }
}
