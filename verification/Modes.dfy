/** Mode constructors of the crypto layer (common/src/crypto/{aes,des,rsa}.rs, boringssl/src/rsa.rs)
    and their agreement with the `begin()` checks: what the checks let through can be constructed. */
module Modes {
  import opened Base
  import opened KeyParams
  import opened Tags
  import BeginChecks

  datatype CipherMode =
    | EcbNoPadding | EcbPkcs7Padding
    | CbcNoPadding(nonce: Bytes) | CbcPkcs7Padding(nonce: Bytes) | CtrMode(nonce: Bytes)

  datatype AesMode = Cipher(mode: CipherMode) | Aead(tagLen: nat, nonce: Bytes)

  /** `crypto::nonce`: the caller's nonce if it has the right size, else `size` random bytes. */
  function NonceFor(size: nat, caller: Option<Bytes>, random: Bytes): Result<Bytes>
    requires |random| >= size
  {
    match caller
    case Some(n) => if |n| == size then Ok(n) else Err(InvalidNonce)
    case None => Ok(random[..size])
  }

  function NewAesMode(params: seq<KeyParam>, nonce: Option<Bytes>, random: Bytes): Result<AesMode>
    requires |random| >= 16
  {
    var mode :- GetTagValue(params, BlockModeOf, UnsupportedBlockMode);
    var padding :- GetTagValue(params, PaddingOf, UnsupportedPaddingMode);
    match mode
    case Ecb =>
      if nonce.Some? then Err(InvalidNonce)
      else if padding == NoPadding then Ok(Cipher(EcbNoPadding))
      else if padding == Pkcs7 then Ok(Cipher(EcbPkcs7Padding))
      else Err(IncompatiblePaddingMode)
    case Cbc =>
      var n :- NonceFor(16, nonce, random);
      if padding == NoPadding then Ok(Cipher(CbcNoPadding(n)))
      else if padding == Pkcs7 then Ok(Cipher(CbcPkcs7Padding(n)))
      else Err(IncompatiblePaddingMode)
    case Ctr =>
      if padding != NoPadding then Err(IncompatiblePaddingMode)
      else
        var n :- NonceFor(16, nonce, random);
        Ok(Cipher(CtrMode(n)))
    case Gcm =>
      if padding != NoPadding then Err(IncompatiblePaddingMode)
      else
        var n :- NonceFor(12, nonce, random);
        var tagLen :- GetTagValue(params, MacLengthOf, InvalidMacLength);
        if tagLen % 8 == 0 && 12 <= tagLen / 8 <= 16 then Ok(Aead(tagLen / 8, n)) else Err(InvalidMacLength)
  }

  function NewDesMode(params: seq<KeyParam>, nonce: Option<Bytes>, random: Bytes): Result<CipherMode>
    requires |random| >= 8
  {
    var mode :- GetTagValue(params, BlockModeOf, UnsupportedBlockMode);
    var padding :- GetTagValue(params, PaddingOf, UnsupportedPaddingMode);
    match mode
    case Ecb =>
      if nonce.Some? then Err(InvalidNonce)
      else if padding == NoPadding then Ok(EcbNoPadding)
      else if padding == Pkcs7 then Ok(EcbPkcs7Padding)
      else Err(IncompatiblePaddingMode)
    case Cbc =>
      var n :- NonceFor(8, nonce, random);
      if padding == NoPadding then Ok(CbcNoPadding(n))
      else if padding == Pkcs7 then Ok(CbcPkcs7Padding(n))
      else Err(IncompatiblePaddingMode)
    case _ => Err(UnsupportedBlockMode)
  }

  datatype RsaDecryptionMode = RawDecrypt | OaepDecrypt(msgDigest: Digest, mgf: Digest) | Pkcs1Decrypt
  datatype RsaSignMode = RawSign | PssSign(d: Digest) | Pkcs1Sign(d: Digest)

  function NewDecryptionMode(params: seq<KeyParam>): Result<RsaDecryptionMode> {
    var padding :- GetTagValue(params, PaddingOf, UnsupportedPaddingMode);
    match padding
    case NoPadding => Ok(RawDecrypt)
    case RsaOaep =>
      var msgDigest :- GetTagValue(params, DigestOf, UnsupportedDigest);
      var mgf :- GetMgfDigest(params);
      Ok(OaepDecrypt(msgDigest, mgf))
    case RsaPkcs115Encrypt => Ok(Pkcs1Decrypt)
    case _ => Err(UnsupportedPaddingMode)
  }

  function NewSignMode(params: seq<KeyParam>): Result<RsaSignMode> {
    var padding :- GetTagValue(params, PaddingOf, UnsupportedPaddingMode);
    match padding
    case NoPadding => Ok(RawSign)
    case RsaPss =>
      var d :- GetTagValue(params, DigestOf, UnsupportedDigest);
      Ok(PssSign(d))
    case RsaPkcs115Sign =>
      var d :- GetTagValue(params, DigestOf, UnsupportedDigest);
      Ok(Pkcs1Sign(d))
    case _ => Err(UnsupportedPaddingMode)
  }

  /** Which signing operation `begin_sign` builds; only a digest-less PSS has none. */
  datatype SignOperation = Undigested(leftPad: bool) | Digested(d: Digest)

  function BeginSign(mode: RsaSignMode): Result<SignOperation> {
    match mode
    case RawSign => Ok(Undigested(true))
    case Pkcs1Sign(NoDigest) => Ok(Undigested(false))
    case Pkcs1Sign(d) => Ok(Digested(d))
    case PssSign(d) => if d == NoDigest then Err(InvalidArgument) else Ok(Digested(d))
  }

  // ---- Which mode results ----

  /** The caller's nonce, or as many random bytes. */
  predicate NonceIs(n: Bytes, size: nat, caller: Option<Bytes>, random: Bytes) {
    |n| == size && (if caller.Some? then n == caller.value else n <= random)
  }

  ghost predicate Asked(params: seq<KeyParam>, m: BlockMode, pad: PaddingMode) {
    Sole(params, KeyParam.BlockMode(m)) && Sole(params, KeyParam.Padding(pad))
  }

  ghost predicate CipherModeFor(params: seq<KeyParam>, nonce: Option<Bytes>, random: Bytes, size: nat, mode: CipherMode) {
    match mode
    case EcbNoPadding => Asked(params, Ecb, NoPadding) && nonce.None?
    case EcbPkcs7Padding => Asked(params, Ecb, Pkcs7) && nonce.None?
    case CbcNoPadding(n) => Asked(params, Cbc, NoPadding) && NonceIs(n, size, nonce, random)
    case CbcPkcs7Padding(n) => Asked(params, Cbc, Pkcs7) && NonceIs(n, size, nonce, random)
    case CtrMode(n) => Asked(params, Ctr, NoPadding) && NonceIs(n, size, nonce, random)
  }

  ghost predicate AesModeFor(params: seq<KeyParam>, nonce: Option<Bytes>, random: Bytes, mode: AesMode) {
    match mode
    case Cipher(m) => CipherModeFor(params, nonce, random, 16, m)
    case Aead(tagLen, n) =>
      && Asked(params, Gcm, NoPadding) && NonceIs(n, 12, nonce, random)
      && 12 <= tagLen <= 16 && Sole(params, Uint(MacLength, 8 * tagLen))
  }

  lemma NonceForExact(size: nat, caller: Option<Bytes>, random: Bytes, n: Bytes)
    requires |random| >= size
    ensures NonceFor(size, caller, random) == Ok(n) <==> NonceIs(n, size, caller, random)
  {
    assert n <= random && |n| == size ==> n == random[..size];
  }

  /** The constructor gives exactly the mode, nonce and tag length that were asked for. */
  lemma NewAesModeExact(params: seq<KeyParam>, nonce: Option<Bytes>, random: Bytes, mode: AesMode)
    requires |random| >= 16
    ensures NewAesMode(params, nonce, random) == Ok(mode) <==> AesModeFor(params, nonce, random, mode)
  {
    BeginChecks.BlockModeLookup(params, UnsupportedBlockMode);
    BeginChecks.PaddingLookup(params, UnsupportedPaddingMode);
    BeginChecks.MacLengthLookup(params, InvalidMacLength);
    match mode {
      case Cipher(CbcNoPadding(n)) => NonceForExact(16, nonce, random, n);
      case Cipher(CbcPkcs7Padding(n)) => NonceForExact(16, nonce, random, n);
      case Cipher(CtrMode(n)) => NonceForExact(16, nonce, random, n);
      case Aead(_, n) => NonceForExact(12, nonce, random, n);
      case _ =>
    }
  }

  lemma NewDesModeExact(params: seq<KeyParam>, nonce: Option<Bytes>, random: Bytes, mode: CipherMode)
    requires |random| >= 8
    ensures NewDesMode(params, nonce, random) == Ok(mode) <==> !mode.CtrMode? && CipherModeFor(params, nonce, random, 8, mode)
  {
    BeginChecks.BlockModeLookup(params, UnsupportedBlockMode);
    BeginChecks.PaddingLookup(params, UnsupportedPaddingMode);
    match mode {
      case CbcNoPadding(n) => NonceForExact(8, nonce, random, n);
      case CbcPkcs7Padding(n) => NonceForExact(8, nonce, random, n);
      case _ =>
    }
  }

  ghost predicate DecryptionModeFor(params: seq<KeyParam>, mode: RsaDecryptionMode) {
    match mode
    case RawDecrypt => Sole(params, KeyParam.Padding(NoPadding))
    case OaepDecrypt(d, mgf) =>
      && Sole(params, KeyParam.Padding(RsaOaep)) && Sole(params, KeyParam.Digest(d))
      && (if Lacks(params, OfEnum(RsaOaepMgfDigestTag)) then mgf == Sha1 else Sole(params, KeyParam.RsaOaepMgfDigest(mgf)))
    case Pkcs1Decrypt => Sole(params, KeyParam.Padding(RsaPkcs115Encrypt))
  }

  lemma NewDecryptionModeExact(params: seq<KeyParam>, mode: RsaDecryptionMode)
    ensures NewDecryptionMode(params) == Ok(mode) <==> DecryptionModeFor(params, mode)
  {
    BeginChecks.PaddingLookup(params, UnsupportedPaddingMode);
    BeginChecks.DigestLookup(params, UnsupportedDigest);
    BeginChecks.MgfDigestLookup(params, InvalidTag);
    if mode.OaepDecrypt? && Sole(params, KeyParam.RsaOaepMgfDigest(mode.mgf)) {
      BeginChecks.SoleIsIn(params, KeyParam.RsaOaepMgfDigest(mode.mgf));
    }
  }

  ghost predicate SignModeFor(params: seq<KeyParam>, mode: RsaSignMode) {
    match mode
    case RawSign => Sole(params, KeyParam.Padding(NoPadding))
    case PssSign(d) => Sole(params, KeyParam.Padding(RsaPss)) && Sole(params, KeyParam.Digest(d))
    case Pkcs1Sign(d) => Sole(params, KeyParam.Padding(RsaPkcs115Sign)) && Sole(params, KeyParam.Digest(d))
  }

  lemma NewSignModeExact(params: seq<KeyParam>, mode: RsaSignMode)
    ensures NewSignMode(params) == Ok(mode) <==> SignModeFor(params, mode)
  {
    BeginChecks.PaddingLookup(params, UnsupportedPaddingMode);
    BeginChecks.DigestLookup(params, UnsupportedDigest);
  }

  /** Which operation signs: padded on the left exactly without a padding mode, and with the digest asked for. */
  lemma BeginSignExact(params: seq<KeyParam>, op: SignOperation)
    ensures NewSignMode(params).Ok? && BeginSign(NewSignMode(params).value) == Ok(op) <==>
            match op
            case Undigested(leftPad) =>
              if leftPad then Sole(params, KeyParam.Padding(NoPadding))
              else Sole(params, KeyParam.Padding(RsaPkcs115Sign)) && Sole(params, KeyParam.Digest(NoDigest))
            case Digested(d) =>
              && d != NoDigest && Sole(params, KeyParam.Digest(d))
              && (Sole(params, KeyParam.Padding(RsaPss)) || Sole(params, KeyParam.Padding(RsaPkcs115Sign)))
  {
    BeginChecks.PaddingLookup(params, UnsupportedPaddingMode);
    BeginChecks.DigestLookup(params, UnsupportedDigest);
  }

  /** The nonce that `begin_operation` passes on after the checks. */
  function BeginNonce(params: seq<KeyParam>): Option<Bytes> {
    match GetOptTagValue(params, NonceOf, InvalidTag)
    case Ok(n) => n
    case Err(_) => None
  }

  lemma BeginNonceExact(params: seq<KeyParam>, b: Bytes)
    ensures BeginNonce(params) == Some(b) <==> Sole(params, Octets(Nonce, b))
  {
    BeginChecks.NonceLookup(params, InvalidTag);
  }

  predicate IsKeyFor(chars: seq<KeyParam>, algo: Algorithm) {
    GetTagValue(chars, AlgorithmOf, UnsupportedAlgorithm) == Ok(algo)
  }

  // ---- Agreement of checks and constructors ----

  lemma BlockModeListed(chars: seq<KeyParam>, params: seq<KeyParam>, check: BeginParamsToCheck, m: BlockMode)
    requires check.blockMode && CheckAgainstChars(check, chars, params).Ok?
    requires GetTagValue(params, BlockModeOf, UnsupportedBlockMode) == Ok(m)
    ensures KeyParam.BlockMode(m) in chars
  {
    assert CheckListed(chars, params, BlockModeOf, v => KeyParam.BlockMode(v), UnsupportedBlockMode,
                       IncompatibleBlockMode).Ok?;
  }

  /** After a passing `begin()` check the AES mode constructor fails in exactly one case: a GCM
      tag shorter than 96 bits, which only the key's own `MinMacLength` can have allowed. */
  lemma AesModeExact(chars: seq<KeyParam>, purpose: KeyPurpose, params: seq<KeyParam>, random: Bytes)
    requires |random| >= 16 && IsKeyFor(chars, Aes)
    requires CheckBeginParams(chars, purpose, params).Ok?
    ensures NewAesMode(params, BeginNonce(params), random).Err? <==>
            && GetTagValue(params, BlockModeOf, UnsupportedBlockMode) == Ok(Gcm)
            && GetTagValue(params, MacLengthOf, MissingMacLength).Ok?
            && GetTagValue(params, MacLengthOf, MissingMacLength).value < 96
  {
    assert CheckBeginAesParams(chars, params, BeginNonce(params)).Ok?;
  }

  /** Keys whose characteristics pass the key generation check never hit that case. */
  lemma CheckedAesKeyHasMode(chars: seq<KeyParam>, purpose: KeyPurpose, params: seq<KeyParam>, random: Bytes)
    requires |random| >= 16 && IsKeyFor(chars, Aes) && CheckAesParams(chars).Ok?
    requires CheckBeginParams(chars, purpose, params).Ok?
    ensures NewAesMode(params, BeginNonce(params), random).Ok?
  {
    AesModeExact(chars, purpose, params, random);
    var check := CheckBeginAesParams(chars, params, BeginNonce(params));
    assert check.Ok?;
    if GetTagValue(params, BlockModeOf, UnsupportedBlockMode) == Ok(Gcm) {
      BlockModeListed(chars, params, check.value, Gcm);
    }
  }

  const SHORT_TAG_KEY: seq<KeyParam> :=
    [KeyParam.Algorithm(Aes), KeyParam.Purpose(Encrypt), KeyParam.BlockMode(Gcm), KeyParam.Padding(NoPadding),
     Uint(MinMacLength, 64)]

  const SHORT_TAG_BEGIN: seq<KeyParam> := [KeyParam.BlockMode(Gcm), KeyParam.Padding(NoPadding), Uint(MacLength, 64)]

  lemma ShortGcmTagPassesAesCheck()
    ensures CheckBeginAesParams(SHORT_TAG_KEY, SHORT_TAG_BEGIN, None) == Ok(BeginParamsToCheck(true, true, false, false))
  {
  }

  lemma ShortGcmTagLookups()
    ensures GetTagValue(SHORT_TAG_KEY, AlgorithmOf, UnsupportedAlgorithm) == Ok(Aes)
    ensures GetBoolTagValue(SHORT_TAG_KEY, StorageKey) == Ok(false) && GetBoolTagValue(SHORT_TAG_KEY, CallerNonce) == Ok(false)
    ensures GetOptTagValue(SHORT_TAG_BEGIN, NonceOf, InvalidTag) == Ok(None)
  {
  }

  lemma ShortGcmTagSuitsKey()
    ensures CheckAgainstChars(BeginParamsToCheck(true, true, false, false), SHORT_TAG_KEY, SHORT_TAG_BEGIN).Ok?
  {
  }

  lemma AesBeginPasses(chars: seq<KeyParam>, params: seq<KeyParam>, check: BeginParamsToCheck)
    requires GetTagValue(chars, AlgorithmOf, UnsupportedAlgorithm) == Ok(Aes) && KeyParam.Purpose(Encrypt) in chars
    requires GetBoolTagValue(chars, StorageKey) == Ok(false) && GetBoolTagValue(chars, CallerNonce) == Ok(false)
    requires GetOptTagValue(params, NonceOf, InvalidTag) == Ok(None)
    requires CheckBeginAesParams(chars, params, None) == Ok(check) && CheckAgainstChars(check, chars, params).Ok?
    ensures CheckBeginParams(chars, Encrypt, params).Ok?
  {
  }

  /** Without that key generation check a GCM key can pass `begin()` ... */
  lemma ShortGcmTagPassesBegin()
    ensures CheckBeginParams(SHORT_TAG_KEY, Encrypt, SHORT_TAG_BEGIN).Ok?
  {
    ShortGcmTagPassesAesCheck();
    ShortGcmTagLookups();
    ShortGcmTagSuitsKey();
    AesBeginPasses(SHORT_TAG_KEY, SHORT_TAG_BEGIN, BeginParamsToCheck(true, true, false, false));
  }

  /** ... and have no mode. */
  lemma ShortGcmTagHasNoMode()
    ensures NewAesMode(SHORT_TAG_BEGIN, None, Zeros(16)).Err?
  {
  }

  /** For triple DES the checks leave the padding open, so the constructor decides. */
  lemma DesModeExact(chars: seq<KeyParam>, purpose: KeyPurpose, params: seq<KeyParam>, random: Bytes)
    requires |random| >= 8 && IsKeyFor(chars, TripleDes)
    requires CheckBeginParams(chars, purpose, params).Ok?
    ensures NewDesMode(params, BeginNonce(params), random).Ok? <==>
            || GetTagValue(params, PaddingOf, UnsupportedPaddingMode) == Ok(NoPadding)
            || GetTagValue(params, PaddingOf, UnsupportedPaddingMode) == Ok(Pkcs7)
  {
    assert CheckBegin3DesParams(params, BeginNonce(params)).Ok?;
  }

  const ODD_PADDING_KEY: seq<KeyParam> :=
    [KeyParam.Algorithm(TripleDes), KeyParam.Purpose(Encrypt), KeyParam.BlockMode(Ecb), KeyParam.Padding(RsaPss)]

  const ODD_PADDING_BEGIN: seq<KeyParam> := [KeyParam.BlockMode(Ecb), KeyParam.Padding(RsaPss)]

  lemma OddPaddingPassesDesCheck()
    ensures CheckBegin3DesParams(ODD_PADDING_BEGIN, None) == Ok(BeginParamsToCheck(true, true, false, false))
  {
  }

  lemma OddPaddingLookups()
    ensures GetTagValue(ODD_PADDING_KEY, AlgorithmOf, UnsupportedAlgorithm) == Ok(TripleDes)
    ensures GetBoolTagValue(ODD_PADDING_KEY, StorageKey) == Ok(false) && GetBoolTagValue(ODD_PADDING_KEY, CallerNonce) == Ok(false)
    ensures GetOptTagValue(ODD_PADDING_BEGIN, NonceOf, InvalidTag) == Ok(None)
  {
  }

  lemma OddPaddingSuitsKey()
    ensures CheckAgainstChars(BeginParamsToCheck(true, true, false, false), ODD_PADDING_KEY, ODD_PADDING_BEGIN).Ok?
  {
  }

  lemma DesBeginPasses(chars: seq<KeyParam>, params: seq<KeyParam>, check: BeginParamsToCheck)
    requires GetTagValue(chars, AlgorithmOf, UnsupportedAlgorithm) == Ok(TripleDes) && KeyParam.Purpose(Encrypt) in chars
    requires GetBoolTagValue(chars, StorageKey) == Ok(false) && GetBoolTagValue(chars, CallerNonce) == Ok(false)
    requires GetOptTagValue(params, NonceOf, InvalidTag) == Ok(None)
    requires CheckBegin3DesParams(params, None) == Ok(check) && CheckAgainstChars(check, chars, params).Ok?
    ensures CheckBeginParams(chars, Encrypt, params).Ok?
  {
  }

  /** A triple DES key with another padding passes `begin()` ... */
  lemma OddPaddingPassesBegin()
    ensures CheckBeginParams(ODD_PADDING_KEY, Encrypt, ODD_PADDING_BEGIN).Ok?
  {
    OddPaddingPassesDesCheck();
    OddPaddingLookups();
    OddPaddingSuitsKey();
    DesBeginPasses(ODD_PADDING_KEY, ODD_PADDING_BEGIN, BeginParamsToCheck(true, true, false, false));
  }

  /** ... and has no mode. */
  lemma OddPaddingHasNoMode()
    ensures NewDesMode(ODD_PADDING_BEGIN, None, Zeros(8)).Err?
  {
  }

  /** RSA decryption: a mode exists, and OAEP never runs without its two digests. */
  lemma RsaDecryptHasMode(chars: seq<KeyParam>, params: seq<KeyParam>)
    requires IsKeyFor(chars, Rsa) && CheckBeginParams(chars, Decrypt, params).Ok?
    ensures var m := NewDecryptionMode(params);
            m.Ok? && (m.value.OaepDecrypt? ==> m.value.msgDigest != NoDigest && m.value.mgf != NoDigest)
  {
    assert CheckBeginRsaParams(chars, Decrypt, params).Ok?;
  }

  /** RSA signing: a mode and a signing operation exist, PSS has a digest that fits the key,
      and unpadded signing is undigested. */
  lemma RsaSignHasMode(chars: seq<KeyParam>, params: seq<KeyParam>)
    requires IsKeyFor(chars, Rsa) && CheckBeginParams(chars, Sign, params).Ok?
    ensures var m := NewSignMode(params);
            && m.Ok? && BeginSign(m.value).Ok?
            && (m.value.PssSign? ==> m.value.d != NoDigest)
            && (m.value.RawSign? ==> GetTagValue(params, DigestOf, UnsupportedDigest) == Ok(NoDigest))
  {
    assert CheckBeginRsaParams(chars, Sign, params).Ok?;
  }
}
