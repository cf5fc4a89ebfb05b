/** Cutting the input of an operation in two does not matter to the TA: two calls in a row do what
    one call with the joined input does. */
module Chunking {
  import opened Base
  import opened Auth
  import opened OperationSpec
  import opened OperationRuns

  /** Feeding `x` and then `y` is feeding `x + y`, in state, output and failure. */
  predicate Chains<S(==)>(c: Crypto<S>, st: S, x: Bytes, y: Bytes) {
    match c.update(st, x)
    case Err(_) => c.update(st, x + y).Err?
    case Ok((st1, out1)) =>
      match c.update(st1, y)
      case Err(_) => c.update(st, x + y).Err?
      case Ok((st2, out2)) => c.update(st, x + y) == Ok((st2, out1 + out2))
  }

  /** A streaming crypto layer: chunk boundaries do not matter. */
  ghost predicate Streaming<S(!new)>(c: Crypto<S>) {
    forall st, x, y :: Chains(c, st, x, y)
  }

  /** Equal up to the error code. */
  predicate SameOutcome<T(==)>(r: Result<T>, r': Result<T>) {
    r == r' || (r.Err? && r'.Err?)
  }

  lemma UpdateBodyJoin<S(!new)>(cfg: Config<S>, op: Operation<S>, x: Bytes, y: Bytes, presenceOk: bool)
    requires Streaming(cfg.crypto)
    ensures match UpdateBody(cfg, op, x, presenceOk)
            case Err(_) => UpdateBody(cfg, op, x + y, presenceOk).Err?
            case Ok((op1, out1)) =>
              match UpdateBody(cfg, op1, y, true)
              case Err(_) => UpdateBody(cfg, op, x + y, presenceOk).Err?
              case Ok((op2, out2)) => UpdateBody(cfg, op, x + y, presenceOk) == Ok((op2, out1 + out2))
  {
    assert Chains(cfg.crypto, op.crypto, x, y);
    var none: Bytes := [];
    assert none + none == none;
    if op.trustedConfData.Some? {
      assert op.trustedConfData.value + x + y == op.trustedConfData.value + (x + y);
    }
  }

  /** Once authorized, the same call is authorized again and changes nothing. */
  lemma AuthorizeAgain<S>(cfg: Config<S>, op: Operation<S>, op1: Operation<S>, a: OpArgs)
    requires Authorize(cfg, op, a).Ok?
    requires op1.handle == op.handle && op1.authInfo == Authorize(cfg, op, a).value.authInfo
    ensures Authorize(cfg, op1, a) == Ok(op1)
    ensures CheckSubsequentAuth(cfg.hasClock, a.env.hmac, op1.handle, op1.authInfo, a.token, a.timestamp).Ok?
  {
  }

  /** Two updates in a row are one update with the joined data; after a failed first one there is
      nothing left that the joined one would have done. */
  lemma UpdateJoin<S(!new)>(cfg: Config<S>, s: TaState<S>, a: OpArgs, x: Bytes, y: Bytes)
    requires Streaming(cfg.crypto)
    ensures var (s1, r1) := Update(cfg, s, a, x);
            var (s2, r2) := Update(cfg, s1, a, y);
            var (s3, r3) := Update(cfg, s, a, x + y);
            if r1.Err? then r3.Err? && s3 == s1
            else s3 == s2 && (r3.Ok? <==> r2.Ok?) && (r3.Ok? ==> r3.value == r1.value + r2.value)
  {
    if a.handle in s.ops && Authorize(cfg, s.ops[a.handle], a).Ok? {
      var presenceOk := s.presence != Some(a.handle) || a.env.tupAvailable;
      var op := Authorize(cfg, s.ops[a.handle], a).value;
      UpdateBodyJoin(cfg, op, x, y, presenceOk);
      if UpdateBody(cfg, op, x, presenceOk).Ok? {
        UpdateBodyShape(cfg, op, x, presenceOk);
        var op1 := UpdateBody(cfg, op, x, presenceOk).value.0;
        AuthorizeAgain(cfg, s.ops[a.handle], op1, a);
        UpdateTwiceInTable(cfg, s, a, op1, y);
      }
    }
  }

  /** The second update, seen from the table before the first. */
  lemma UpdateTwiceInTable<S>(cfg: Config<S>, s: TaState<S>, a: OpArgs, op1: Operation<S>, y: Bytes)
    requires a.handle in s.ops && Authorize(cfg, op1, a) == Ok(op1)
    ensures var s0 := s.(presence := ClearPresence(s.presence, a.handle));
            Update(cfg, s0.(ops := s.ops[a.handle := op1]), a, y) ==
            match UpdateBody(cfg, op1, y, true)
            case Err(e) => (s0.(ops := s.ops - {a.handle}), Err(e))
            case Ok((op2, out)) => (s0.(ops := s.ops[a.handle := op2]), Ok(out))
  {
    assert s.ops[a.handle := op1] - {a.handle} == s.ops - {a.handle};
    match UpdateBody(cfg, op1, y, true) {
      case Ok((op2, out)) => assert s.ops[a.handle := op1][a.handle := op2] == s.ops[a.handle := op2];
      case Err(_) =>
    }
  }

  /** The same for additional data. */
  predicate AadChains<S(==)>(c: Crypto<S>, st: S, x: Bytes, y: Bytes) {
    match c.updateAad(st, x)
    case Err(_) => c.updateAad(st, x + y).Err?
    case Ok(st1) => SameOutcome(c.updateAad(st1, y), c.updateAad(st, x + y))
  }

  ghost predicate AadStreaming<S(!new)>(c: Crypto<S>) {
    forall st, x, y :: AadChains(c, st, x, y)
  }

  lemma AadJoin<S(!new)>(cfg: Config<S>, s: TaState<S>, a: OpArgs, x: Bytes, y: Bytes)
    requires AadStreaming(cfg.crypto)
    ensures var (s1, r1) := UpdateAad(cfg, s, a, x);
            var (s2, r2) := UpdateAad(cfg, s1, a, y);
            var (s3, r3) := UpdateAad(cfg, s, a, x + y);
            if r1.Err? then r3.Err? && s3 == s1 else s3 == s2 && SameOutcome(r2, r3)
  {
    if a.handle in s.ops && Authorize(cfg, s.ops[a.handle], a).Ok? {
      var op := Authorize(cfg, s.ops[a.handle], a).value;
      assert AadChains(cfg.crypto, op.crypto, x, y);
      if AadBody(cfg, op, x).Ok? {
        var op1 := AadBody(cfg, op, x).value.0;
        AuthorizeAgain(cfg, s.ops[a.handle], op1, a);
        assert s.ops[a.handle := op1] - {a.handle} == s.ops - {a.handle};
        if AadBody(cfg, op1, y).Ok? {
          var op2 := AadBody(cfg, op1, y).value.0;
          assert s.ops[a.handle := op1][a.handle := op2] == s.ops[a.handle := op2];
        }
      }
    }
  }

  function WithData(f: FinishArgs, data: Bytes): FinishArgs { f.(data := Some(data)) }

  /** The size limits on confirmation data and on accumulated input. */
  predicate Fits<S>(op: Operation<S>, len: nat) {
    && (op.trustedConfData.Some? ==>
          |op.trustedConfData.value| + len <= |CONFIRMATION_DATA_PREFIX| + CONFIRMATION_MESSAGE_MAX_LEN)
    && (!op.kind.Emits() && op.maxInput.Some? ==> op.inputSize + len <= op.maxInput.value)
  }

  predicate Confirmed<S>(op: Operation<S>, env: Env, data: Bytes, token: Option<Bytes>) {
    op.trustedConfData.Some? ==> VerifyConfirmationToken(env.hmac, op.trustedConfData.value + data, token).Ok?
  }

  lemma FinishBodyExact<S>(cfg: Config<S>, op: Operation<S>, env: Env, presenceOk: bool, f: FinishArgs, data: Bytes)
    ensures var r, c := FinishBody(cfg, op, env, presenceOk, WithData(f, data)), Conclude(cfg, op, Some(data), f.signature);
            && (r.Ok? <==> presenceOk && Fits(op, |data|) && c.Ok? && Confirmed(op, env, data, f.confirmation))
            && (r.Ok? ==> r == c)
  {
  }

  lemma UpdateBodyExact<S>(cfg: Config<S>, op: Operation<S>, data: Bytes, presenceOk: bool)
    ensures var r, u := UpdateBody(cfg, op, data, presenceOk), cfg.crypto.update(op.crypto, data);
            && (r.Ok? <==> presenceOk && Fits(op, |data|) && u.Ok?)
            && (r.Ok? ==> r.value.0.crypto == u.value.0 && r.value.1 == if op.kind.Emits() then u.value.1 else [])
            && (r.Ok? ==> r.value.0.inputSize == op.inputSize + |data| &&
                          r.value.0.trustedConfData ==
                          if op.trustedConfData.Some? then Some(op.trustedConfData.value + data) else None)
  {
  }

  /** Ending with `y` after `x` was fed is ending with `x + y`. */
  lemma FinishBodyJoin<S(!new)>(cfg: Config<S>, op: Operation<S>, env: Env, x: Bytes, y: Bytes, f: FinishArgs, presenceOk: bool)
    requires Streaming(cfg.crypto)
    ensures match UpdateBody(cfg, op, x, presenceOk)
            case Err(_) => FinishBody(cfg, op, env, presenceOk, WithData(f, x + y)).Err?
            case Ok((op1, out1)) =>
              var last := FinishBody(cfg, op1, env, true, WithData(f, y));
              var whole := FinishBody(cfg, op, env, presenceOk, WithData(f, x + y));
              (whole.Ok? <==> last.Ok?) && (whole.Ok? ==> whole.value == out1 + last.value)
  {
    FinishBodyExact(cfg, op, env, presenceOk, f, x + y);
    UpdateBodyExact(cfg, op, x, presenceOk);
    var r := UpdateBody(cfg, op, x, presenceOk);
    if r.Ok? {
      var op1 := r.value.0;
      FinishBodyExact(cfg, op1, env, true, f, y);
      UpdateBodyShape(cfg, op, x, presenceOk);
      ConcludeJoin(cfg, op, op1, x, y, f.signature);
      ConfirmedJoin(op, op1, env, x, y, f.confirmation);
    } else {
      assert Chains(cfg.crypto, op.crypto, x, y);
    }
  }

  lemma ConfirmedJoin<S>(op: Operation<S>, op1: Operation<S>, env: Env, x: Bytes, y: Bytes, token: Option<Bytes>)
    requires op1.trustedConfData == if op.trustedConfData.Some? then Some(op.trustedConfData.value + x) else None
    ensures Confirmed(op1, env, y, token) == Confirmed(op, env, x + y, token)
  {
    if op.trustedConfData.Some? {
      assert op.trustedConfData.value + x + y == op.trustedConfData.value + (x + y);
    }
  }

  lemma ConcludeJoin<S(!new)>(cfg: Config<S>, op: Operation<S>, op1: Operation<S>, x: Bytes, y: Bytes, signature: Option<Bytes>)
    requires Streaming(cfg.crypto) && cfg.crypto.update(op.crypto, x).Ok?
    requires op1.kind == op.kind && op1.crypto == cfg.crypto.update(op.crypto, x).value.0
    ensures var out1 := if op.kind.Emits() then cfg.crypto.update(op.crypto, x).value.1 else [];
            var last, whole := Conclude(cfg, op1, Some(y), signature), Conclude(cfg, op, Some(x + y), signature);
            (whole.Ok? <==> last.Ok?) && (whole.Ok? ==> whole.value == out1 + last.value)
  {
    assert Chains(cfg.crypto, op.crypto, x, y);
    var out1 := cfg.crypto.update(op.crypto, x).value.1;
    if cfg.crypto.update(op1.crypto, y).Ok? {
      var (st2, out2) := cfg.crypto.update(op1.crypto, y).value;
      if cfg.crypto.finish(st2).Ok? {
        assert out1 + out2 + cfg.crypto.finish(st2).value == out1 + (out2 + cfg.crypto.finish(st2).value);
      }
    }
  }

  predicate Authorized<S>(cfg: Config<S>, s: TaState<S>, a: OpArgs) {
    a.handle in s.ops && Authorize(cfg, s.ops[a.handle], a).Ok?
  }

  /** An update followed by finish is one finish with the joined data: it succeeds exactly when that
      would, with the same output, and an authorized one leaves the same state either way. */
  lemma FinishJoin<S(!new)>(cfg: Config<S>, s: TaState<S>, a: OpArgs, x: Bytes, y: Bytes, f: FinishArgs)
    requires Streaming(cfg.crypto)
    ensures var (s1, r1) := Update(cfg, s, a, x);
            var (s2, r2) := Finish(cfg, s1, a, WithData(f, y));
            var (s3, r3) := Finish(cfg, s, a, WithData(f, x + y));
            && (r3.Ok? <==> r1.Ok? && r2.Ok?)
            && (r3.Ok? ==> r3.value == r1.value + r2.value)
            && (Authorized(cfg, s, a) ==> s3 == if r1.Err? then s1 else s2)
  {
    if a.handle in s.ops && Authorize(cfg, s.ops[a.handle], a).Ok? {
      var presenceOk := s.presence != Some(a.handle) || a.env.tupAvailable;
      var op0 := s.ops[a.handle];
      var op := Authorize(cfg, op0, a).value;
      FinishBodyJoin(cfg, op, a.env, x, y, f, presenceOk);
      FinishBodyIgnoresAuth(cfg, op0, op, a.env, presenceOk, WithData(f, x + y));
      if UpdateBody(cfg, op, x, presenceOk).Ok? {
        UpdateBodyShape(cfg, op, x, presenceOk);
        var op1 := UpdateBody(cfg, op, x, presenceOk).value.0;
        AuthorizeAgain(cfg, op0, op1, a);
        assert op1.slotToDelete == op0.slotToDelete;
        assert s.ops[a.handle := op1] - {a.handle} == s.ops - {a.handle};
      }
    }
  }

  /** What is left to authenticate plays no part in finishing. */
  lemma FinishBodyIgnoresAuth<S>(cfg: Config<S>, op: Operation<S>, op': Operation<S>, env: Env, presenceOk: bool, f: FinishArgs)
    requires op' == op.(authInfo := op'.authInfo)
    ensures FinishBody(cfg, op, env, presenceOk, f) == FinishBody(cfg, op', env, presenceOk, f)
  {
  }
}
