/** What a successful `finish` returns (ta/src/operation.rs): the output of the crypto layer, cut to the tag length for
    MACs. */
module FinishOutput {
  import opened Base
  import opened KeyParams
  import opened Auth
  import opened OperationSpec
  import opened HmacVerify
  import BeginChecks
  import Tags

  /** The crypto layer takes the last input with output `emitted`, and completes with output `final`. */
  predicate Produces<S(==)>(cfg: Config<S>, st: S, data: Option<Bytes>, emitted: Bytes, final: Bytes) {
    match data
    case None => emitted == [] && cfg.crypto.finish(st) == Ok(final)
    case Some(d) =>
      cfg.crypto.update(st, d).Ok? && cfg.crypto.update(st, d).value.1 == emitted
      && cfg.crypto.finish(cfg.crypto.update(st, d).value.0) == Ok(final)
  }

  /** Ciphers return what the last input and completion emit; a MAC is cut to its first bytes; a verification
      returns nothing, and the others only what completion yields. */
  ghost predicate IsOutput(kind: OpKind, signature: Option<Bytes>, emitted: Bytes, final: Bytes, out: Bytes) {
    match kind
    case AesOp | AesGcmOp | DesOp => out == emitted + final
    case HmacSignOp(tagLen) => out <= final && |out| == Min(tagLen, |final|)
    case HmacVerifyOp(minLen, maxLen) =>
      out == [] && signature.Some? && minLen <= |signature.value| < maxLen && signature.value <= final
    case RsaDecryptOp | RsaSignOp | EcAgreeOp | EcSignOp => out == final
  }

  lemma ConcludeReturns<S>(cfg: Config<S>, op: Operation<S>, data: Option<Bytes>, signature: Option<Bytes>, emitted: Bytes, final: Bytes,
                           out: Bytes)
    requires Produces(cfg, op.crypto, data, emitted, final)
    ensures Conclude(cfg, op, data, signature) == Ok(out) <==> IsOutput(op.kind, signature, emitted, final, out)
  {
    match op.kind {
      case HmacSignOp(tagLen) =>
        assert out <= final && |out| == Min(tagLen, |final|) ==> out == final[..Min(tagLen, |final|)];
        assert final[..|final|] == final;
      case HmacVerifyOp(_, _) =>
        assert signature.Some? && |signature.value| <= |final| ==>
                 (signature.value <= final <==> final[..|signature.value|] == signature.value);
      case _ =>
    }
  }

  /** Without such output there is none. */
  lemma ConcludeNeedsOutput<S>(cfg: Config<S>, op: Operation<S>, data: Option<Bytes>, signature: Option<Bytes>)
    returns (emitted: Bytes, final: Bytes)
    requires Conclude(cfg, op, data, signature).Ok?
    ensures Produces(cfg, op.crypto, data, emitted, final)
  {
    var step := FeedLast(cfg, op.crypto, data).value;
    emitted, final := step.1, cfg.crypto.finish(step.0).value;
  }

  /** What a successful `finish` returns, whatever was checked before and after. */
  lemma FinishReturns<S>(cfg: Config<S>, s: TaState<S>, a: OpArgs, f: FinishArgs) returns (emitted: Bytes, final: Bytes)
    requires Finish(cfg, s, a, f).1.Ok?
    ensures a.handle in s.ops && Produces(cfg, s.ops[a.handle].crypto, f.data, emitted, final)
    ensures IsOutput(s.ops[a.handle].kind, f.signature, emitted, final, Finish(cfg, s, a, f).1.value)
  {
    var op := s.ops[a.handle];
    var op2 := BodyConcludes(cfg, op, a.env, s.presence != Some(a.handle) || a.env.tupAvailable, f);
    emitted, final := ConcludeNeedsOutput(cfg, op2, f.data, f.signature);
    ConcludeReturns(cfg, op2, f.data, f.signature, emitted, final, Finish(cfg, s, a, f).1.value);
  }

  lemma BodyConcludes<S>(cfg: Config<S>, op: Operation<S>, env: Env, presenceOk: bool, f: FinishArgs) returns (op2: Operation<S>)
    requires FinishBody(cfg, op, env, presenceOk, f).Ok?
    ensures op2.crypto == op.crypto && op2.kind == op.kind
    ensures Conclude(cfg, op2, f.data, f.signature) == FinishBody(cfg, op, env, presenceOk, f)
  {
    var op1 := if f.data.Some? then Confirmable(op, f.data.value).value else op;
    op2 := CheckSize(op1, |DataOf(f)|).value;
  }

  /** A confirmation token must be given, have 32 bytes and be the device's MAC of the data; each failure has its
      own code. */
  lemma ConfirmationExact(hmac: DeviceHmac, data: Bytes, token: Option<Bytes>)
    ensures var r := VerifyConfirmationToken(hmac, data, token);
            && (r.Ok? <==> token.Some? && |token.value| == 32 && hmac.Some? && token.value == hmac.value(data))
            && (r == Err(InvalidArgument) <==> token.Some? && |token.value| != 32)
            && (r == Err(VerificationFailed) <==> token.Some? && |token.value| == 32 && hmac.None?)
            && (r.Err? ==> r.error in {InvalidArgument, VerificationFailed, NoUserConfirmation})
  {
  }

  // ---- Signatures verify ----

  /** The operation that `begin_operation` sets up for a MAC: the tag length in bytes. */
  function SignKind(params: seq<KeyParam>): Result<OpKind> {
    var macLen :- Tags.GetTagValue(params, Tags.MacLengthOf, MissingMacLength);
    Ok(HmacSignOp(macLen / 8))
  }

  /** With checked parameters, the tag has the length asked for, in bytes. */
  lemma TagHasAskedLength(chars: seq<KeyParam>, params: seq<KeyParam>, digest: Digest, macLen: U32, mac: Bytes, tag: Bytes)
    requires Tags.CheckBeginHmacParams(chars, Sign, params).Ok?
    requires Tags.Sole(params, KeyParam.Digest(digest)) && Tags.Sole(params, Uint(MacLength, macLen))
    requires Tags.DigestLen(digest).Ok? && |mac| == MacLen(digest)
    requires SignKind(params).Ok? && IsOutput(SignKind(params).value, None, [], mac, tag)
    ensures 8 * |tag| == macLen && tag <= mac
  {
    BeginChecks.MacLengthLookup(params, MissingMacLength);
    BeginChecks.DigestLookup(params, UnsupportedDigest);
    BeginChecks.HmacCheckExact(chars, Sign, params, digest);
    BeginChecks.MacLengthExact(chars, params, Tags.DigestLen(digest).value);
  }

  /** A verification with the same key and digest, under the same MAC, accepts what was signed with checked
      parameters. */
  lemma SignatureVerifies<S>(cfg: Config<S>, chars: seq<KeyParam>, params: seq<KeyParam>, digest: Digest, sign: Operation<S>,
                             verify: Operation<S>, data: Option<Bytes>, data': Option<Bytes>, mac: Bytes)
    requires Tags.CheckBeginHmacParams(chars, Sign, params).Ok? && Tags.Sole(params, KeyParam.Digest(digest))
    requires SignKind(params) == Ok(sign.kind) && VerifyKind(chars, digest) == Ok(verify.kind)
    requires Yields(cfg, sign, data, mac) && Yields(cfg, verify, data', mac) && |mac| == MacLen(digest)
    ensures var tag := Conclude(cfg, sign, data, None); tag.Ok? && Conclude(cfg, verify, data', Some(tag.value)) == Ok([])
  {
    BeginChecks.MacLengthLookup(params, MissingMacLength);
    BeginChecks.DigestLookup(params, UnsupportedDigest);
    BeginChecks.HmacCheckExact(chars, Sign, params, digest);
    BeginChecks.MacLengthExact(chars, params, Tags.DigestLen(digest).value);
    var tag := Conclude(cfg, sign, data, None);
    assert tag.Ok? && tag.value <= mac;
    assert mac[..|tag.value|] == tag.value;
  }
}
