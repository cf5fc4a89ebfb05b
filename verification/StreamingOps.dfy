/** Crypto layers for which chunk boundaries do not matter, and what follows for them: operations
    that collect their input, and streaming AES-GCM decryption. */
module StreamingOps {
  import opened Base
  import opened Auth
  import opened OperationSpec
  import opened Chunking
  import opened HalRequests
  import opened HalSpec
  import opened HalRefinement
  import Gcm = GcmDecrypt
  import Runs = OperationRuns

  // ---- Collecting operations ----

  /** An operation on `key` that only collects its input until it finishes. */
  datatype Pending<K> = Pending(key: K, input: Bytes)

  function Collecting<K>(finish: (K, Bytes) -> Result<Bytes>): Crypto<Pending<K>> {
    Crypto((st: Pending<K>, data) => Ok((st.(input := st.input + data), [])),
           (st, data) => Err(InvalidOperation),
           (st: Pending<K>) => finish(st.key, st.input))
  }

  lemma CollectingStreams<K(!new)>(finish: (K, Bytes) -> Result<Bytes>)
    ensures Streaming(Collecting(finish))
  {
    forall st: Pending<K>, x: Bytes, y: Bytes
      ensures Chains(Collecting(finish), st, x, y)
    {
      assert st.input + x + y == st.input + (x + y);
      var none: Bytes := [];
      assert none + none == none;
    }
  }

  // ---- Undigested RSA signing without padding ----

  /** `zero_pad_left`; a length below that of the data underflows. */
  function ZeroPadLeft(data: Bytes, len: nat): Result<Bytes> {
    if |data| > len then Err(Panic) else Ok(Pad(data, len))
  }

  /** Padding keeps the big-endian value, so it is undone by reading the number back. */
  lemma PaddingKeepsValue(data: Bytes, len: nat)
    requires |data| <= len
    ensures |ZeroPadLeft(data, len).value| == len
    ensures FromBigEndian(ZeroPadLeft(data, len).value) == FromBigEndian(data)
  {
    LeadingZeros(len - |data|, data);
  }

  lemma {:induction false} LeadingZeros(n: nat, data: Bytes)
    ensures FromBigEndian(Zeros(n) + data) == FromBigEndian(data)
    decreases |data|
  {
    if data == [] {
      ZerosAreZero(n);
      assert Zeros(n) + data == Zeros(n);
    } else {
      var init := data[..|data| - 1];
      LeadingZeros(n, init);
      assert (Zeros(n) + data)[..n + |data| - 1] == Zeros(n) + init;
    }
  }

  lemma {:induction false} ZerosAreZero(n: nat)
    ensures FromBigEndian(Zeros(n)) == 0
  {
    if n > 0 {
      ZerosAreZero(n - 1);
      assert Zeros(n)[..n - 1] == Zeros(n - 1);
    }
  }

  /** Signing with a key of `len` bytes: pad, then the RSA primitive. */
  function RawSign(primitive: Bytes -> Bytes): (nat, Bytes) -> Result<Bytes> {
    (len: nat, pending) => match ZeroPadLeft(pending, len) { case Err(e) => Err(e) case Ok(padded) => Ok(primitive(padded)) }
  }

  predicate RawStep<S>(c: Crypto<S>, view: S -> Option<Pending<nat>>, primitive: Bytes -> Bytes, st: S, data: Bytes) {
    view(st).Some? ==>
      && c.finish(st) == RawSign(primitive)(view(st).value.key, view(st).value.input)
      && c.updateAad(st, data).Err? && c.update(st, data).Ok?
      && view(c.update(st, data).value.0) == Some(Pending(view(st).value.key, view(st).value.input + data))
  }

  /** On the states that `view` recognizes, the crypto layer collects input and signs with padding; on others it
      may do anything. */
  ghost predicate SignsRaw<S(!new)>(c: Crypto<S>, view: S -> Option<Pending<nat>>, primitive: Bytes -> Bytes) {
    forall st, data :: RawStep(c, view, primitive, st, data)
  }

  lemma CollectingSignsRaw(primitive: Bytes -> Bytes)
    ensures SignsRaw(Collecting(RawSign(primitive)), st => Some(st), primitive)
  {
  }

  /** Such an operation holds its life's data, all of it and in order. */
  lemma {:induction false} RawIsData<S(!new)>(cfg: Config<S>, view: S -> Option<Pending<nat>>, primitive: Bytes -> Bytes, st: S,
                                              calls: seq<Runs.OpCall>)
    requires SignsRaw(cfg.crypto, view, primitive) && view(st).Some? && Runs.Fed(cfg, st, calls).Ok?
    ensures view(Runs.Fed(cfg, st, calls).value) == Some(Pending(view(st).value.key, view(st).value.input + Runs.Data(calls)))
  {
    var p := view(st).value;
    if calls == [] {
      assert p.input + [] == p.input;
    } else {
      var init, last := calls[..|calls| - 1], calls[|calls| - 1];
      RawIsData(cfg, view, primitive, st, init);
      assert RawStep(cfg.crypto, view, primitive, Runs.Fed(cfg, st, init).value, last.data);
      assert p.input + Runs.Data(init) + last.data == p.input + (Runs.Data(init) + last.data);
    }
  }

  /** Over every run, whatever else the table holds: `check_size` keeps the collected input within the key size,
      so that padding never underflows when a signing operation finishes. */
  lemma PaddingNeverUnderflows<S(!new)>(cfg: Config<S>, view: S -> Option<Pending<nat>>, primitive: Bytes -> Bytes,
                                        calls: seq<Runs.Call<S>>, a: OpArgs, f: FinishArgs)
    requires SignsRaw(cfg.crypto, view, primitive)
    requires Runs.ValidRun(cfg, calls) && a.handle in Runs.After(cfg, calls).ops
    requires var b := Runs.LifeOf(cfg, calls, a.handle);
             b.Some? && b.value.begin.begun.Ok? ==>
               var c := b.value.begin.begun.value;
               c.kind == RsaSignOp && view(c.crypto).Some? && view(c.crypto).value.input == []
               && c.maxInput == Some(view(c.crypto).value.key)
    ensures Finish(cfg, Runs.After(cfg, calls), a, f).1 != Err(Panic)
  {
    var op, life := Runs.LiveEntry(cfg, calls, a.handle);
    RawIsData(cfg, view, primitive, life.begin.begun.value.crypto, life.calls);
    assert [] + Runs.Data(life.calls) == Runs.Data(life.calls);
    SubsequentAuthNeverPanics(cfg, op, a);
    FinishBodyNeverPanics(cfg, view, primitive, op, a.env, Runs.After(cfg, calls).presence != Some(a.handle) || a.env.tupAvailable, f);
  }

  lemma SubsequentAuthNeverPanics<S>(cfg: Config<S>, op: Operation<S>, a: OpArgs)
    ensures CheckSubsequentAuth(cfg.hasClock, a.env.hmac, op.handle, op.authInfo, a.token, a.timestamp) != Err(Panic)
  {
  }

  lemma FinishBodyNeverPanics<S(!new)>(cfg: Config<S>, view: S -> Option<Pending<nat>>, primitive: Bytes -> Bytes, op: Operation<S>,
                                       env: Env, presenceOk: bool, f: FinishArgs)
    requires SignsRaw(cfg.crypto, view, primitive) && view(op.crypto).Some?
    requires op.kind == RsaSignOp && op.maxInput == Some(view(op.crypto).value.key) && op.inputSize == |view(op.crypto).value.input|
    ensures FinishBody(cfg, op, env, presenceOk, f) != Err(Panic)
  {
    var op1 := if f.data.Some? then Confirmable(op, f.data.value) else Ok(op);
    if op1.Ok? {
      var op2 := CheckSize(op1.value, |DataOf(f)|);
      if op2.Ok? {
        ConcludeNeverPanics(cfg, view, primitive, op2.value, f.data, f.signature);
      }
    }
  }

  lemma ConcludeNeverPanics<S(!new)>(cfg: Config<S>, view: S -> Option<Pending<nat>>, primitive: Bytes -> Bytes, op: Operation<S>,
                                     data: Option<Bytes>, signature: Option<Bytes>)
    requires SignsRaw(cfg.crypto, view, primitive) && view(op.crypto).Some? && op.kind == RsaSignOp
    requires |view(op.crypto).value.input| + (if data.Some? then |data.value| else 0) <= view(op.crypto).value.key
    ensures Conclude(cfg, op, data, signature) != Err(Panic)
  {
    if data.Some? {
      assert RawStep(cfg.crypto, view, primitive, op.crypto, data.value);
    }
    var st := FeedLast(cfg, op.crypto, data).value.0;
    var p := view(st).value;
    assert RawStep(cfg.crypto, view, primitive, st, []);
    assert p.key == view(op.crypto).value.key && |p.input| <= p.key;
    assert cfg.crypto.finish(st) == Ok(primitive(ZeroPadLeft(p.input, p.key).value));
  }

  // ---- AES-GCM decryption ----

  /** Additional data and input so far. */
  datatype GcmState = GcmState(aad: Bytes, total: Bytes)

  function GcmFinish(c: Gcm.GcmCipher, n: nat, st: GcmState): Result<Bytes> {
    if |st.total| < n then Err(InvalidTag)
    else if Gcm.TagMatches(c, st.aad, Gcm.Fed(st.total, n), Gcm.Held(st.total, n)) then Ok([])
    else Err(VerificationFailed)
  }

  /** The decryption operation as its methods are specified. */
  function GcmDecryption(c: Gcm.GcmCipher, n: nat): Crypto<GcmState> {
    Crypto((st: GcmState, data) =>
             if |Gcm.Fed(st.total + data, n)| > c.limit then Err(UnknownError)
             else Ok((st.(total := st.total + data), Gcm.Emitted(c, n, st.total, data))),
           (st: GcmState, data) => Ok(st.(aad := st.aad + data)),
           (st: GcmState) => GcmFinish(c, n, st))
  }

  lemma GcmStreams(c: Gcm.GcmCipher, n: nat)
    ensures Streaming(GcmDecryption(c, n)) && AadStreaming(GcmDecryption(c, n))
  {
    forall st: GcmState, x: Bytes, y: Bytes
      ensures AadChains(GcmDecryption(c, n), st, x, y)
    {
      assert st.aad + x + y == st.aad + (x + y);
    }
    forall st: GcmState, x: Bytes, y: Bytes
      ensures Chains(GcmDecryption(c, n), st, x, y)
    {
      assert st.total + x + y == st.total + (x + y);
      Gcm.EmittedJoins(c, n, st.total, x, y);
    }
  }

  /** End to end: sending ciphertext and tag to a fresh decryption through `finish` of the HAL, in as
      many requests as the channel needs, gives what decrypting them in one go gives. */
  lemma HalDecryptsLikeOneShot(cfg: Config<GcmState>, c: Gcm.GcmCipher, n: nat, maxSize: nat, s: TaState<GcmState>, f: Request,
                               trips: nat -> Trip, env: Env)
    requires cfg.crypto == GcmDecryption(c, n)
    requires maxSize > MAX_CBOR_OVERHEAD && f.FinishRequest? && f.lastInput.Some?
    requires DocumentedSizes(f.token, f.timestamp, f.signature, f.confirmation) && Reliable(trips, env)
    requires Authorized(cfg, s, ArgsOf(f, env)) && s.presence != Some(f.handle)
    requires var op := s.ops[f.handle]; op.kind == AesGcmOp && op.trustedConfData.None? && op.crypto.total == []
    ensures SameOutcome(SendFinish(cfg, maxSize, s, f, trips, 0).1,
                        Gcm.OneShot(c, n, s.ops[f.handle].crypto.aad, f.lastInput.value))
  {
    GcmStreams(c, n);
    ChunkedFinish(cfg, maxSize, s, f, trips, 0, env);
    var op := s.ops[f.handle];
    var args := FinishArgs(f.lastInput, f.signature, f.confirmation);
    FinishBodyExact(cfg, op, env, true, args, f.lastInput.value);
    GcmConclude(cfg, c, n, op, f.lastInput.value, f.signature);
    assert WithData(args, f.lastInput.value) == args;
  }

  lemma GcmConclude(cfg: Config<GcmState>, c: Gcm.GcmCipher, n: nat, op: Operation<GcmState>, input: Bytes, signature: Option<Bytes>)
    requires cfg.crypto == GcmDecryption(c, n) && op.kind == AesGcmOp && op.crypto.total == []
    ensures SameOutcome(Conclude(cfg, op, Some(input), signature), Gcm.OneShot(c, n, op.crypto.aad, input))
  {
    assert [] + input == input;
    Gcm.ReleasedIs([], input, n, Gcm.Fed(input, n));
    assert Gcm.Plain(c, 0, Gcm.Fed(input, n)) + [] == Gcm.Plain(c, 0, Gcm.Fed(input, n));
  }
}
