/** HMAC verification (ta/src/operation.rs): the accepted signature lengths end at the digest length in bits, while
    the MAC they are compared with has that many bits, not bytes. */
module HmacVerify {
  import opened Base
  import opened KeyParams
  import opened Auth
  import opened OperationSpec
  import opened Chunking
  import StreamingOps
  import Tags

  /** The operation that `begin_operation` sets up: a minimum in bytes, and `digest_len` as maximum. */
  function VerifyKind(chars: seq<KeyParam>, digest: Digest): Result<OpKind> {
    var minMacLen :- Tags.GetTagValue(chars, Tags.MinMacLengthOf, MissingMinMacLength);
    var maxLen :- Tags.DigestLen(digest);
    Ok(HmacVerifyOp(minMacLen / 8, maxLen))
  }

  /** The number of bytes in a MAC. */
  function MacLen(digest: Digest): nat
    requires Tags.DigestLen(digest).Ok?
  {
    Tags.DigestLen(digest).value / 8
  }

  /** The comparison is out of bounds for signatures longer than the MAC and shorter than its length in bits. */
  predicate OutOfBounds(kind: OpKind, digest: Digest, signature: Bytes)
    requires kind.HmacVerifyOp? && Tags.DigestLen(digest).Ok?
  {
    kind.minLen <= |signature| && MacLen(digest) < |signature| < Tags.DigestLen(digest).value
  }

  /** The crypto layer takes the last input and yields a MAC of the digest's size. */
  predicate Yields<S(==)>(cfg: Config<S>, op: Operation<S>, data: Option<Bytes>, mac: Bytes) {
    FeedLast(cfg, op.crypto, data).Ok? && cfg.crypto.finish(FeedLast(cfg, op.crypto, data).value.0) == Ok(mac)
  }

  /** A verification succeeds exactly for a signature of at least the minimum length that the MAC starts with; the
      comparison fails in bounds for the others, except for the lengths that are out of bounds. */
  lemma HmacVerifyExact<S>(cfg: Config<S>, chars: seq<KeyParam>, digest: Digest, op: Operation<S>, data: Option<Bytes>,
                           signature: Bytes, mac: Bytes)
    requires VerifyKind(chars, digest) == Ok(op.kind) && Yields(cfg, op, data, mac) && |mac| == MacLen(digest)
    ensures var r := Conclude(cfg, op, data, Some(signature));
            && (r == Err(Panic) <==> OutOfBounds(op.kind, digest, signature))
            && (r.Ok? <==> op.kind.minLen <= |signature| && signature <= mac)
  {
  }

  /** What the code before the comparison demands: authorization, presence and size. */
  predicate GetsToCompare<S>(cfg: Config<S>, s: TaState<S>, a: OpArgs, f: FinishArgs)
    requires a.handle in s.ops
  {
    var op := s.ops[a.handle];
    && CheckSubsequentAuth(cfg.hasClock, a.env.hmac, op.handle, op.authInfo, a.token, a.timestamp).Ok?
    && (s.presence != Some(a.handle) || a.env.tupAvailable)
    && Fits(op, |DataOf(f)|)
  }

  /** `finish` of a verification panics exactly if it gets to compare a signature that is out of bounds. */
  lemma FinishPanicsExactly<S>(cfg: Config<S>, chars: seq<KeyParam>, digest: Digest, s: TaState<S>, a: OpArgs, f: FinishArgs, mac: Bytes)
    requires a.handle in s.ops && VerifyKind(chars, digest) == Ok(s.ops[a.handle].kind)
    requires s.ops[a.handle].trustedConfData.None? && Yields(cfg, s.ops[a.handle], f.data, mac) && |mac| == MacLen(digest)
    ensures Finish(cfg, s, a, f).1 == Err(Panic) <==>
            GetsToCompare(cfg, s, a, f) && f.signature.Some? && OutOfBounds(s.ops[a.handle].kind, digest, f.signature.value)
  {
    var op := s.ops[a.handle];
    var presenceOk := s.presence != Some(a.handle) || a.env.tupAvailable;
    StreamingOps.SubsequentAuthNeverPanics(cfg, op, a);
    BodyConcludes(cfg, op, a.env, presenceOk, f);
    if f.signature.Some? {
      HmacVerifyExact(cfg, chars, digest, op, f.data, f.signature.value, mac);
    }
  }

  lemma BodyConcludes<S>(cfg: Config<S>, op: Operation<S>, env: Env, presenceOk: bool, f: FinishArgs)
    requires op.trustedConfData.None?
    ensures var r := FinishBody(cfg, op, env, presenceOk, f);
            if presenceOk && Fits(op, |DataOf(f)|) then r == Conclude(cfg, op, f.data, f.signature) else r.Err? && r.error != Panic
  {
  }

  // ---- An input ----

  /** A layer whose MACs are 32 zero bytes. */
  function ZeroMac(): Config<()> {
    Config(Crypto((st, data) => Ok((st, [])), (st, data) => Err(InvalidOperation), st => Ok(Zeros(32))), false, 1)
  }

  function Sha256Verification(): Operation<()> { Operation(7, false, None, None, None, HmacVerifyOp(8, 256), None, (), 0) }

  /** A key with a minimum of 64 bits, SHA-256, and a signature of 33 bytes. */
  lemma ThirtyThreeBytesPanic()
    ensures VerifyKind([Uint(MinMacLength, 64)], Sha256) == Ok(Sha256Verification().kind)
    ensures Finish(ZeroMac(), TaState(map[7 := Sha256Verification()], None, []), OpArgs(7, None, None, Env(None, false)),
                   FinishArgs(None, Some(Zeros(33)), None)).1 == Err(Panic)
  {
    assert Tags.Select([Uint(MinMacLength, 64)], Tags.MinMacLengthOf) == [64];
    var s := TaState(map[7 := Sha256Verification()], None, []);
    var a, f := OpArgs(7, None, None, Env(None, false)), FinishArgs(None, Some(Zeros(33)), None);
    FinishPanicsExactly(ZeroMac(), [Uint(MinMacLength, 64)], Sha256, s, a, f, Zeros(32));
  }
}
