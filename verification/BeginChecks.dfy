/** What the checks on `begin()` guarantee (common/src/tag.rs): exactly which keys, purposes and parameters pass,
    said by what is in the two lists. */
module BeginChecks {
  import opened Base
  import opened KeyParams
  import opened Tags

  // ---- What passes ----

  /** The purposes each kind of key can have. */
  predicate Suits(algo: Algorithm, purpose: KeyPurpose) {
    (algo, purpose) in {(Aes, Encrypt), (Aes, Decrypt), (TripleDes, Encrypt), (TripleDes, Decrypt), (Hmac, Sign), (Hmac, Verify),
                        (Ec, Sign), (Ec, AttestKey), (Ec, AgreeKey), (Rsa, Sign), (Rsa, Decrypt), (Rsa, AttestKey)}
  }

  predicate HasBits(d: Digest, bits: nat) {
    (d, bits) in {(Md5, 128), (Sha1, 160), (Sha224, 224), (Sha256, 256), (Sha384, 384), (Sha512, 512)}
  }

  /** The key is for this purpose and not for storage, and brings its own nonce to encryption only if it may. */
  ghost predicate Allowed(chars: seq<KeyParam>, purpose: KeyPurpose, params: seq<KeyParam>) {
    && KeyParam.Purpose(purpose) in chars && Lacks(chars, OfFlag(StorageKey))
    && (Lacks(chars, OfFlag(CallerNonce)) || Sole(chars, Flag(CallerNonce)))
    && (Lacks(params, OfOctets(Nonce)) || exists b :: Sole(params, Octets(Nonce, b)))
    && (purpose == Encrypt && !Lacks(params, OfOctets(Nonce)) ==> Flag(CallerNonce) in chars)
  }

  /** A MAC length in whole bytes, between the key's minimum and `most`. */
  ghost predicate MacLengthWithin(chars: seq<KeyParam>, params: seq<KeyParam>, most: nat) {
    exists n: U32, least: U32 :: MacLengthIs(chars, params, n, least) && least <= n <= most && n % 8 == 0
  }

  ghost predicate MacLengthIs(chars: seq<KeyParam>, params: seq<KeyParam>, n: U32, least: U32) {
    Sole(params, Uint(MacLength, n)) && Sole(chars, Uint(MinMacLength, least))
  }

  ghost predicate NoDigestGiven(params: seq<KeyParam>) {
    Lacks(params, OfEnum(DigestTag)) || Sole(params, KeyParam.Digest(NoDigest))
  }

  /** One block mode and one padding mode, both listed for the key. */
  ghost predicate ModeGiven(chars: seq<KeyParam>, params: seq<KeyParam>, m: BlockMode, pad: PaddingMode) {
    && Sole(params, KeyParam.BlockMode(m)) && KeyParam.BlockMode(m) in chars
    && Sole(params, KeyParam.Padding(pad)) && KeyParam.Padding(pad) in chars
  }

  ghost predicate AesMayBegin(chars: seq<KeyParam>, params: seq<KeyParam>) {
    && Lacks(params, OfEnum(RsaOaepMgfDigestTag)) && NoDigestGiven(params)
    && exists m, pad ::
         && ModeGiven(chars, params, m, pad)
         && (pad == NoPadding || (pad == Pkcs7 && (m == Ecb || m == Cbc)))
         && (m == Gcm ==> MacLengthWithin(chars, params, 128))
         && (forall b :: Sole(params, Octets(Nonce, b)) ==> ((m == Cbc || m == Ctr) && |b| == 16) || (m == Gcm && |b| == 12))
  }

  ghost predicate DesMayBegin(chars: seq<KeyParam>, params: seq<KeyParam>) {
    && Lacks(params, OfEnum(RsaOaepMgfDigestTag)) && NoDigestGiven(params)
    && exists m, pad ::
         && ModeGiven(chars, params, m, pad)
         && (m == Ecb || m == Cbc)
         && (forall b :: Sole(params, Octets(Nonce, b)) ==> m == Cbc && |b| == 8)
  }

  ghost predicate HmacMayBegin(chars: seq<KeyParam>, purpose: KeyPurpose, params: seq<KeyParam>) {
    && Lacks(params, OfEnum(BlockModeTag)) && Lacks(params, OfEnum(RsaOaepMgfDigestTag))
    && (Lacks(params, OfEnum(PaddingTag)) || Sole(params, KeyParam.Padding(NoPadding)))
    && exists d ::
         && Sole(params, KeyParam.Digest(d)) && KeyParam.Digest(d) in chars
         && (purpose == Sign ==> exists bits: nat :: HasBits(d, bits) && MacLengthWithin(chars, params, bits))
  }

  /** A digest, if there is one, is listed for the key. */
  ghost predicate DigestListed(chars: seq<KeyParam>, params: seq<KeyParam>) {
    || Lacks(params, OfEnum(DigestTag))
    || exists d :: Sole(params, KeyParam.Digest(d)) && KeyParam.Digest(d) in chars
  }

  ghost predicate EcMayBegin(chars: seq<KeyParam>, purpose: KeyPurpose, params: seq<KeyParam>) {
    && DigestListed(chars, params)
    && exists curve ::
         && Sole(chars, KeyParam.EcCurve(curve))
         && (purpose == Sign ==>
               exists d :: Sole(params, KeyParam.Digest(d)) && d != Md5 && (curve == Curve25519 ==> d == NoDigest))
  }

  /** The digest of the mask generation is listed for the key if the key lists any; SHA-1 is the default. */
  ghost predicate MgfDigestListed(chars: seq<KeyParam>, params: seq<KeyParam>) {
    if Lacks(params, OfEnum(RsaOaepMgfDigestTag)) then
      Lacks(chars, OfEnum(RsaOaepMgfDigestTag)) || KeyParam.RsaOaepMgfDigest(Sha1) in chars
    else
      exists d :: Sole(params, KeyParam.RsaOaepMgfDigest(d)) && KeyParam.RsaOaepMgfDigest(d) in chars
  }

  ghost predicate SignPaddingFits(chars: seq<KeyParam>, pad: PaddingMode, d: Digest) {
    match pad
    case NoPadding => d == NoDigest
    case RsaPkcs115Sign => true
    case RsaPss => exists k: U32, bits: nat :: Sole(chars, Uint(KeySize, k)) && HasBits(d, bits) && k >= 2 * bits + 9
    case _ => false
  }

  ghost predicate RsaMayBegin(chars: seq<KeyParam>, purpose: KeyPurpose, params: seq<KeyParam>) {
    && DigestListed(chars, params) && MgfDigestListed(chars, params)
    && exists pad ::
         && Sole(params, KeyParam.Padding(pad)) && KeyParam.Padding(pad) in chars
         && match purpose {
              case Sign => exists d :: Sole(params, KeyParam.Digest(d)) && SignPaddingFits(chars, pad, d)
              case Decrypt =>
                || pad == NoPadding || pad == RsaPkcs115Encrypt
                || (pad == RsaOaep && !Sole(params, KeyParam.RsaOaepMgfDigest(NoDigest))
                    && exists d :: Sole(params, KeyParam.Digest(d)) && d != NoDigest)
              case _ => pad == NoPadding
            }
  }

  ghost predicate AlgorithmMayBegin(algo: Algorithm, chars: seq<KeyParam>, purpose: KeyPurpose, params: seq<KeyParam>) {
    match algo
    case Aes => AesMayBegin(chars, params)
    case TripleDes => DesMayBegin(chars, params)
    case Hmac => HmacMayBegin(chars, purpose, params)
    case Ec => EcMayBegin(chars, purpose, params)
    case Rsa => RsaMayBegin(chars, purpose, params)
  }

  ghost predicate MayBegin(chars: seq<KeyParam>, purpose: KeyPurpose, params: seq<KeyParam>) {
    && Allowed(chars, purpose, params)
    && exists algo :: Sole(chars, KeyParam.Algorithm(algo)) && Suits(algo, purpose) && AlgorithmMayBegin(algo, chars, purpose, params)
  }

  // ---- Lookups ----

  lemma AlgorithmLookup(ps: seq<KeyParam>, err: Error)
    ensures forall v: Algorithm :: GetTagValue(ps, AlgorithmOf, err) == Ok(v) <==> Sole(ps, KeyParam.Algorithm(v))
    ensures forall v: Algorithm :: GetOptTagValue(ps, AlgorithmOf, err) == Ok(Some(v)) <==> Sole(ps, KeyParam.Algorithm(v))
    ensures GetOptTagValue(ps, AlgorithmOf, err) == Ok(None) <==> Lacks(ps, OfEnum(AlgorithmTag))
  {
    LookupExact(ps, AlgorithmOf, OfEnum(AlgorithmTag), (v: Algorithm) => KeyParam.Algorithm(v), err);
  }

  lemma BlockModeLookup(ps: seq<KeyParam>, err: Error)
    ensures forall v: BlockMode :: GetTagValue(ps, BlockModeOf, err) == Ok(v) <==> Sole(ps, KeyParam.BlockMode(v))
    ensures forall v: BlockMode :: GetOptTagValue(ps, BlockModeOf, err) == Ok(Some(v)) <==> Sole(ps, KeyParam.BlockMode(v))
    ensures GetOptTagValue(ps, BlockModeOf, err) == Ok(None) <==> Lacks(ps, OfEnum(BlockModeTag))
  {
    LookupExact(ps, BlockModeOf, OfEnum(BlockModeTag), (v: BlockMode) => KeyParam.BlockMode(v), err);
  }

  lemma PaddingLookup(ps: seq<KeyParam>, err: Error)
    ensures forall v: PaddingMode :: GetTagValue(ps, PaddingOf, err) == Ok(v) <==> Sole(ps, KeyParam.Padding(v))
    ensures forall v: PaddingMode :: GetOptTagValue(ps, PaddingOf, err) == Ok(Some(v)) <==> Sole(ps, KeyParam.Padding(v))
    ensures GetOptTagValue(ps, PaddingOf, err) == Ok(None) <==> Lacks(ps, OfEnum(PaddingTag))
  {
    LookupExact(ps, PaddingOf, OfEnum(PaddingTag), (v: PaddingMode) => KeyParam.Padding(v), err);
  }

  lemma DigestLookup(ps: seq<KeyParam>, err: Error)
    ensures forall v: Digest :: GetTagValue(ps, DigestOf, err) == Ok(v) <==> Sole(ps, KeyParam.Digest(v))
    ensures forall v: Digest :: GetOptTagValue(ps, DigestOf, err) == Ok(Some(v)) <==> Sole(ps, KeyParam.Digest(v))
    ensures GetOptTagValue(ps, DigestOf, err) == Ok(None) <==> Lacks(ps, OfEnum(DigestTag))
  {
    LookupExact(ps, DigestOf, OfEnum(DigestTag), (v: Digest) => KeyParam.Digest(v), err);
  }

  lemma EcCurveLookup(ps: seq<KeyParam>, err: Error)
    ensures forall v: EcCurve :: GetTagValue(ps, EcCurveOf, err) == Ok(v) <==> Sole(ps, KeyParam.EcCurve(v))
    ensures forall v: EcCurve :: GetOptTagValue(ps, EcCurveOf, err) == Ok(Some(v)) <==> Sole(ps, KeyParam.EcCurve(v))
    ensures GetOptTagValue(ps, EcCurveOf, err) == Ok(None) <==> Lacks(ps, OfEnum(EcCurveTag))
  {
    LookupExact(ps, EcCurveOf, OfEnum(EcCurveTag), (v: EcCurve) => KeyParam.EcCurve(v), err);
  }

  lemma MgfDigestLookup(ps: seq<KeyParam>, err: Error)
    ensures forall v: Digest :: GetTagValue(ps, MgfDigestOf, err) == Ok(v) <==> Sole(ps, KeyParam.RsaOaepMgfDigest(v))
    ensures forall v: Digest :: GetOptTagValue(ps, MgfDigestOf, err) == Ok(Some(v)) <==> Sole(ps, KeyParam.RsaOaepMgfDigest(v))
    ensures GetOptTagValue(ps, MgfDigestOf, err) == Ok(None) <==> Lacks(ps, OfEnum(RsaOaepMgfDigestTag))
  {
    LookupExact(ps, MgfDigestOf, OfEnum(RsaOaepMgfDigestTag), (v: Digest) => KeyParam.RsaOaepMgfDigest(v), err);
  }

  lemma KeySizeLookup(ps: seq<KeyParam>, err: Error)
    ensures forall v: U32 :: GetTagValue(ps, KeySizeOf, err) == Ok(v) <==> Sole(ps, Uint(KeySize, v))
    ensures forall v: U32 :: GetOptTagValue(ps, KeySizeOf, err) == Ok(Some(v)) <==> Sole(ps, Uint(KeySize, v))
    ensures GetOptTagValue(ps, KeySizeOf, err) == Ok(None) <==> Lacks(ps, OfUint(KeySize))
  {
    LookupExact(ps, KeySizeOf, OfUint(KeySize), (v: U32) => Uint(KeySize, v), err);
  }

  lemma MacLengthLookup(ps: seq<KeyParam>, err: Error)
    ensures forall v: U32 :: GetTagValue(ps, MacLengthOf, err) == Ok(v) <==> Sole(ps, Uint(MacLength, v))
    ensures forall v: U32 :: GetOptTagValue(ps, MacLengthOf, err) == Ok(Some(v)) <==> Sole(ps, Uint(MacLength, v))
    ensures GetOptTagValue(ps, MacLengthOf, err) == Ok(None) <==> Lacks(ps, OfUint(MacLength))
  {
    LookupExact(ps, MacLengthOf, OfUint(MacLength), (v: U32) => Uint(MacLength, v), err);
  }

  lemma MinMacLengthLookup(ps: seq<KeyParam>, err: Error)
    ensures forall v: U32 :: GetTagValue(ps, MinMacLengthOf, err) == Ok(v) <==> Sole(ps, Uint(MinMacLength, v))
    ensures forall v: U32 :: GetOptTagValue(ps, MinMacLengthOf, err) == Ok(Some(v)) <==> Sole(ps, Uint(MinMacLength, v))
    ensures GetOptTagValue(ps, MinMacLengthOf, err) == Ok(None) <==> Lacks(ps, OfUint(MinMacLength))
  {
    LookupExact(ps, MinMacLengthOf, OfUint(MinMacLength), (v: U32) => Uint(MinMacLength, v), err);
  }

  lemma NonceLookup(ps: seq<KeyParam>, err: Error)
    ensures forall v: Bytes :: GetTagValue(ps, NonceOf, err) == Ok(v) <==> Sole(ps, Octets(Nonce, v))
    ensures forall v: Bytes :: GetOptTagValue(ps, NonceOf, err) == Ok(Some(v)) <==> Sole(ps, Octets(Nonce, v))
    ensures GetOptTagValue(ps, NonceOf, err) == Ok(None) <==> Lacks(ps, OfOctets(Nonce))
  {
    LookupExact(ps, NonceOf, OfOctets(Nonce), (v: Bytes) => Octets(Nonce, v), err);
  }

  lemma SoleUnique(ps: seq<KeyParam>, p: KeyParam, q: KeyParam)
    requires Sole(ps, p) && Sole(ps, q) && ParamTag(p) == ParamTag(q)
    ensures p == q
  {
    var i :| SoleAt(ps, p, i);
    var j :| SoleAt(ps, q, j);
    assert i == j;
  }

  lemma SoleIsIn(ps: seq<KeyParam>, p: KeyParam)
    requires Sole(ps, p)
    ensures p in ps && !Lacks(ps, ParamTag(p))
  {
    var i :| SoleAt(ps, p, i);
  }

  lemma BitsExact(d: Digest, bits: nat)
    ensures DigestLen(d) == Ok(bits) <==> HasBits(d, bits)
  {
  }

  // ---- The checks, one by one ----

  lemma NoDigestExact(params: seq<KeyParam>)
    ensures RejectSome(params, DigestOf, NoDigest).Ok? <==> NoDigestGiven(params)
  {
    DigestLookup(params, InvalidTag);
  }

  lemma BlockModeListedExact(chars: seq<KeyParam>, params: seq<KeyParam>, m: BlockMode)
    requires Sole(params, KeyParam.BlockMode(m))
    ensures CheckListed(chars, params, BlockModeOf, v => KeyParam.BlockMode(v), UnsupportedBlockMode, IncompatibleBlockMode).Ok? <==>
            KeyParam.BlockMode(m) in chars
  {
    BlockModeLookup(params, UnsupportedBlockMode);
  }

  lemma PaddingListedExact(chars: seq<KeyParam>, params: seq<KeyParam>, pad: PaddingMode)
    requires Sole(params, KeyParam.Padding(pad))
    ensures CheckListed(chars, params, PaddingOf, v => KeyParam.Padding(v), UnsupportedPaddingMode, IncompatiblePaddingMode).Ok? <==>
            KeyParam.Padding(pad) in chars
  {
    PaddingLookup(params, UnsupportedPaddingMode);
  }

  lemma DigestListedExact(chars: seq<KeyParam>, params: seq<KeyParam>)
    ensures CheckListed(chars, params, DigestOf, v => KeyParam.Digest(v), UnsupportedDigest, IncompatibleDigest).Ok? <==>
            DigestListed(chars, params)
  {
    DigestLookup(params, UnsupportedDigest);
    var d := GetOptTagValue(params, DigestOf, UnsupportedDigest);
    if d.Ok? && d.value.Some? {
      assert Sole(params, KeyParam.Digest(d.value.value));
    }
  }

  lemma MgfDigestListedExact(chars: seq<KeyParam>, params: seq<KeyParam>)
    ensures CheckMgfDigest(chars, params).Ok? <==> MgfDigestListed(chars, params)
  {
    MgfDigestLookup(params, UnsupportedMgfDigest);
    assert HasMgfDigest(chars) <==> !Lacks(chars, OfEnum(RsaOaepMgfDigestTag));
    var d := GetOptTagValue(params, MgfDigestOf, UnsupportedMgfDigest);
    if d.Ok? && d.value.Some? {
      assert Sole(params, KeyParam.RsaOaepMgfDigest(d.value.value));
      SoleIsIn(params, KeyParam.RsaOaepMgfDigest(d.value.value));
    }
  }

  // ---- Each algorithm ----

  predicate LengthPasses(n: Result<U32>, least: Result<U32>, most: nat) {
    n.Ok? && least.Ok? && n.value % 8 == 0 && least.value <= n.value <= most
  }

  lemma MacLengthExact(chars: seq<KeyParam>, params: seq<KeyParam>, most: nat)
    ensures MacLengthWithin(chars, params, most) <==>
            LengthPasses(GetTagValue(params, MacLengthOf, MissingMacLength), GetTagValue(chars, MinMacLengthOf, MissingMinMacLength), most)
  {
    MacLengthLookup(params, MissingMacLength);
    MinMacLengthLookup(chars, MissingMinMacLength);
    var n, least := GetTagValue(params, MacLengthOf, MissingMacLength), GetTagValue(chars, MinMacLengthOf, MissingMinMacLength);
    if n.Ok? && least.Ok? {
      assert MacLengthIs(chars, params, n.value, least.value);
    }
    if MacLengthWithin(chars, params, most) {
      var n': U32, least': U32 :| MacLengthIs(chars, params, n', least') && least' <= n' <= most && n' % 8 == 0;
      assert n == Ok(n') && least == Ok(least');
    }
  }

  /** A nonce that was looked up fits exactly if every one that is given does. */
  lemma NonceFits(params: seq<KeyParam>, nonce: Option<Bytes>, fits: Bytes -> bool)
    requires GetOptTagValue(params, NonceOf, InvalidTag) == Ok(nonce)
    ensures (nonce.Some? ==> fits(nonce.value)) <==> forall b :: Sole(params, Octets(Nonce, b)) ==> fits(b)
  {
    NonceLookup(params, InvalidTag);
    if nonce.Some? {
      assert Sole(params, Octets(Nonce, nonce.value));
    }
  }

  predicate AesNonceFits(m: BlockMode, b: Bytes) { ((m == Cbc || m == Ctr) && |b| == 16) || (m == Gcm && |b| == 12) }

  /** With the modes that were looked up. */
  lemma AesCheckExact(chars: seq<KeyParam>, params: seq<KeyParam>, nonce: Option<Bytes>, m: BlockMode, pad: PaddingMode)
    requires GetOptTagValue(params, NonceOf, InvalidTag) == Ok(nonce)
    requires Sole(params, KeyParam.BlockMode(m)) && Sole(params, KeyParam.Padding(pad))
    ensures CheckBeginAesParams(chars, params, nonce).Ok? <==>
            && Lacks(params, OfEnum(RsaOaepMgfDigestTag)) && NoDigestGiven(params)
            && (pad == NoPadding || (pad == Pkcs7 && (m == Ecb || m == Cbc)))
            && (m == Gcm ==> MacLengthWithin(chars, params, 128))
            && (nonce.Some? ==> AesNonceFits(m, nonce.value))
    ensures CheckBeginAesParams(chars, params, nonce).Ok? ==>
              CheckBeginAesParams(chars, params, nonce).value == BeginParamsToCheck(true, true, false, false)
  {
    BlockModeLookup(params, UnsupportedBlockMode);
    PaddingLookup(params, UnsupportedPaddingMode);
    NoDigestExact(params);
    MacLengthExact(chars, params, 128);
    assert HasMgfDigest(params) <==> !Lacks(params, OfEnum(RsaOaepMgfDigestTag));
  }

  lemma ModesListedExact(chars: seq<KeyParam>, params: seq<KeyParam>, m: BlockMode, pad: PaddingMode)
    requires Sole(params, KeyParam.BlockMode(m)) && Sole(params, KeyParam.Padding(pad))
    ensures CheckAgainstChars(BeginParamsToCheck(true, true, false, false), chars, params).Ok? <==> ModeGiven(chars, params, m, pad)
  {
    BlockModeListedExact(chars, params, m);
    PaddingListedExact(chars, params, pad);
  }

  /** Both modes are found, or there is no such mode to be given. */
  lemma ModesFound(chars: seq<KeyParam>, params: seq<KeyParam>, m: BlockMode, pad: PaddingMode)
    requires ModeGiven(chars, params, m, pad)
    ensures GetTagValue(params, BlockModeOf, UnsupportedBlockMode) == Ok(m)
    ensures GetTagValue(params, PaddingOf, UnsupportedPaddingMode) == Ok(pad)
  {
    BlockModeLookup(params, UnsupportedBlockMode);
    PaddingLookup(params, UnsupportedPaddingMode);
  }

  ghost predicate Passes(check: Result<BeginParamsToCheck>, chars: seq<KeyParam>, params: seq<KeyParam>) {
    check.Ok? && CheckAgainstChars(check.value, chars, params).Ok?
  }

  lemma AesExact(chars: seq<KeyParam>, params: seq<KeyParam>, nonce: Option<Bytes>)
    requires GetOptTagValue(params, NonceOf, InvalidTag) == Ok(nonce)
    ensures Passes(CheckBeginAesParams(chars, params, nonce), chars, params) <==> AesMayBegin(chars, params)
  {
    var bm, bp := GetTagValue(params, BlockModeOf, UnsupportedBlockMode), GetTagValue(params, PaddingOf, UnsupportedPaddingMode);
    if bm.Ok? && bp.Ok? {
      var m, pad := bm.value, bp.value;
      BlockModeLookup(params, UnsupportedBlockMode);
      PaddingLookup(params, UnsupportedPaddingMode);
      assert Sole(params, KeyParam.BlockMode(m)) && Sole(params, KeyParam.Padding(pad));
      AesCheckExact(chars, params, nonce, m, pad);
      ModesListedExact(chars, params, m, pad);
      NonceFits(params, nonce, b => AesNonceFits(m, b));
      forall m', pad' | ModeGiven(chars, params, m', pad') ensures m' == m && pad' == pad {
        ModesFound(chars, params, m', pad');
      }
    } else {
      forall m', pad' ensures !ModeGiven(chars, params, m', pad') {
        if ModeGiven(chars, params, m', pad') {
          ModesFound(chars, params, m', pad');
        }
      }
    }
  }

  lemma DesCheckExact(params: seq<KeyParam>, nonce: Option<Bytes>, m: BlockMode, pad: PaddingMode)
    requires Sole(params, KeyParam.BlockMode(m)) && Sole(params, KeyParam.Padding(pad))
    ensures CheckBegin3DesParams(params, nonce).Ok? <==>
            && Lacks(params, OfEnum(RsaOaepMgfDigestTag)) && NoDigestGiven(params)
            && (m == Ecb || m == Cbc)
            && (nonce.Some? ==> m == Cbc && |nonce.value| == 8)
    ensures CheckBegin3DesParams(params, nonce).Ok? ==>
              CheckBegin3DesParams(params, nonce).value == BeginParamsToCheck(true, true, false, false)
  {
    BlockModeLookup(params, UnsupportedBlockMode);
    PaddingLookup(params, UnsupportedPaddingMode);
    NoDigestExact(params);
    assert HasMgfDigest(params) <==> !Lacks(params, OfEnum(RsaOaepMgfDigestTag));
  }

  lemma DesExact(chars: seq<KeyParam>, params: seq<KeyParam>, nonce: Option<Bytes>)
    requires GetOptTagValue(params, NonceOf, InvalidTag) == Ok(nonce)
    ensures Passes(CheckBegin3DesParams(params, nonce), chars, params) <==> DesMayBegin(chars, params)
  {
    var bm, bp := GetTagValue(params, BlockModeOf, UnsupportedBlockMode), GetTagValue(params, PaddingOf, UnsupportedPaddingMode);
    if bm.Ok? && bp.Ok? {
      var m, pad := bm.value, bp.value;
      BlockModeLookup(params, UnsupportedBlockMode);
      PaddingLookup(params, UnsupportedPaddingMode);
      assert Sole(params, KeyParam.BlockMode(m)) && Sole(params, KeyParam.Padding(pad));
      DesCheckExact(params, nonce, m, pad);
      ModesListedExact(chars, params, m, pad);
      NonceFits(params, nonce, b => m == Cbc && |b| == 8);
      forall m', pad' | ModeGiven(chars, params, m', pad') ensures m' == m && pad' == pad {
        ModesFound(chars, params, m', pad');
      }
    } else {
      forall m', pad' ensures !ModeGiven(chars, params, m', pad') {
        if ModeGiven(chars, params, m', pad') {
          ModesFound(chars, params, m', pad');
        }
      }
    }
  }

  lemma HmacCheckExact(chars: seq<KeyParam>, purpose: KeyPurpose, params: seq<KeyParam>, d: Digest)
    requires Sole(params, KeyParam.Digest(d))
    ensures CheckBeginHmacParams(chars, purpose, params).Ok? <==>
            && Lacks(params, OfEnum(BlockModeTag)) && Lacks(params, OfEnum(RsaOaepMgfDigestTag))
            && (Lacks(params, OfEnum(PaddingTag)) || Sole(params, KeyParam.Padding(NoPadding)))
            && (purpose == Sign ==> DigestLen(d).Ok? && MacLengthWithin(chars, params, DigestLen(d).value))
    ensures CheckBeginHmacParams(chars, purpose, params).Ok? ==>
              CheckBeginHmacParams(chars, purpose, params).value == BeginParamsToCheck(false, false, true, false)
  {
    DigestLookup(params, UnsupportedDigest);
    PaddingLookup(params, InvalidTag);
    if DigestLen(d).Ok? {
      MacLengthExact(chars, params, DigestLen(d).value);
    }
    assert (exists p :: p in params && (p.BlockMode? || p.RsaOaepMgfDigest?)) <==>
           !(Lacks(params, OfEnum(BlockModeTag)) && Lacks(params, OfEnum(RsaOaepMgfDigestTag)));
  }

  lemma HmacExact(chars: seq<KeyParam>, purpose: KeyPurpose, params: seq<KeyParam>)
    ensures Passes(CheckBeginHmacParams(chars, purpose, params), chars, params) <==> HmacMayBegin(chars, purpose, params)
  {
    DigestLookup(params, UnsupportedDigest);
    DigestListedExact(chars, params);
    var found := GetTagValue(params, DigestOf, UnsupportedDigest);
    if found.Ok? {
      var d := found.value;
      assert Sole(params, KeyParam.Digest(d));
      SoleIsIn(params, KeyParam.Digest(d));
      HmacCheckExact(chars, purpose, params, d);
      forall bits: nat ensures DigestLen(d) == Ok(bits) <==> HasBits(d, bits) {
        BitsExact(d, bits);
      }
    }
  }

  lemma EcExact(chars: seq<KeyParam>, purpose: KeyPurpose, params: seq<KeyParam>)
    ensures Passes(CheckBeginEcParams(chars, purpose, params), chars, params) <==> EcMayBegin(chars, purpose, params)
  {
    EcCurveLookup(chars, UnsupportedKeySize);
    DigestLookup(params, UnsupportedDigest);
    DigestListedExact(chars, params);
    var curve, d := GetTagValue(chars, EcCurveOf, UnsupportedKeySize), GetTagValue(params, DigestOf, UnsupportedDigest);
    if curve.Ok? {
      assert Sole(chars, KeyParam.EcCurve(curve.value));
    }
    if d.Ok? {
      assert Sole(params, KeyParam.Digest(d.value));
    }
  }

  predicate PssPasses(size: Result<U32>, d: Digest) {
    size.Ok? && DigestLen(d).Ok? && size.value >= 2 * DigestLen(d).value + 9
  }

  lemma PssExact(chars: seq<KeyParam>, d: Digest)
    ensures SignPaddingFits(chars, RsaPss, d) <==> PssPasses(GetTagValue(chars, KeySizeOf, InvalidArgument), d)
  {
    KeySizeLookup(chars, InvalidArgument);
    var size := GetTagValue(chars, KeySizeOf, InvalidArgument);
    if size.Ok? {
      assert Sole(chars, Uint(KeySize, size.value));
    }
    forall bits: nat ensures DigestLen(d) == Ok(bits) <==> HasBits(d, bits) {
      BitsExact(d, bits);
    }
  }

  lemma RsaSignExact(chars: seq<KeyParam>, params: seq<KeyParam>, pad: PaddingMode)
    requires Sole(params, KeyParam.Padding(pad))
    ensures CheckBeginRsaParams(chars, Sign, params).Ok? <==>
            exists d :: Sole(params, KeyParam.Digest(d)) && SignPaddingFits(chars, pad, d)
  {
    PaddingLookup(params, UnsupportedPaddingMode);
    DigestLookup(params, UnsupportedDigest);
    var found := GetTagValue(params, DigestOf, UnsupportedDigest);
    if found.Ok? {
      assert Sole(params, KeyParam.Digest(found.value));
      PssExact(chars, found.value);
    }
  }

  lemma RsaDecryptExact(chars: seq<KeyParam>, params: seq<KeyParam>, pad: PaddingMode)
    requires Sole(params, KeyParam.Padding(pad)) && GetOptTagValue(params, MgfDigestOf, InvalidTag).Ok?
    ensures CheckBeginRsaParams(chars, Decrypt, params).Ok? <==>
            || pad == NoPadding || pad == RsaPkcs115Encrypt
            || (pad == RsaOaep && !Sole(params, KeyParam.RsaOaepMgfDigest(NoDigest))
                && exists d :: Sole(params, KeyParam.Digest(d)) && d != NoDigest)
  {
    PaddingLookup(params, UnsupportedPaddingMode);
    DigestLookup(params, UnsupportedDigest);
    MgfDigestLookup(params, InvalidTag);
    var found := GetTagValue(params, DigestOf, UnsupportedDigest);
    if found.Ok? {
      assert Sole(params, KeyParam.Digest(found.value));
    }
  }

  lemma RsaAttestExact(chars: seq<KeyParam>, params: seq<KeyParam>, pad: PaddingMode)
    requires Sole(params, KeyParam.Padding(pad))
    ensures CheckBeginRsaParams(chars, AttestKey, params).Ok? <==> pad == NoPadding
  {
    PaddingLookup(params, UnsupportedPaddingMode);
  }

  lemma RsaListedExact(chars: seq<KeyParam>, params: seq<KeyParam>, pad: PaddingMode)
    requires Sole(params, KeyParam.Padding(pad))
    ensures CheckAgainstChars(BeginParamsToCheck(false, true, true, true), chars, params).Ok? <==>
            KeyParam.Padding(pad) in chars && DigestListed(chars, params) && MgfDigestListed(chars, params)
    ensures MgfDigestListed(chars, params) ==> GetOptTagValue(params, MgfDigestOf, InvalidTag).Ok?
  {
    PaddingListedExact(chars, params, pad);
    DigestListedExact(chars, params);
    MgfDigestListedExact(chars, params);
    MgfDigestLookup(params, InvalidTag);
  }

  lemma RsaExact(chars: seq<KeyParam>, purpose: KeyPurpose, params: seq<KeyParam>)
    requires Suits(Rsa, purpose)
    ensures Passes(CheckBeginRsaParams(chars, purpose, params), chars, params) <==> RsaMayBegin(chars, purpose, params)
  {
    PaddingLookup(params, UnsupportedPaddingMode);
    var found := GetTagValue(params, PaddingOf, UnsupportedPaddingMode);
    if found.Ok? {
      var pad := found.value;
      assert Sole(params, KeyParam.Padding(pad));
      assert forall pad' :: Sole(params, KeyParam.Padding(pad')) ==> pad' == pad;
      RsaListedExact(chars, params, pad);
      if MgfDigestListed(chars, params) {
        match purpose {
          case Sign => RsaSignExact(chars, params, pad);
          case Decrypt => RsaDecryptExact(chars, params, pad);
          case AttestKey => RsaAttestExact(chars, params, pad);
        }
      }
      assert CheckBeginRsaParams(chars, purpose, params).Ok? ==>
               CheckBeginRsaParams(chars, purpose, params).value == BeginParamsToCheck(false, true, true, true);
    }
  }

  // ---- All together ----

  lemma AlgorithmExact(algo: Algorithm, chars: seq<KeyParam>, purpose: KeyPurpose, params: seq<KeyParam>, nonce: Option<Bytes>)
    requires Suits(algo, purpose) && GetOptTagValue(params, NonceOf, InvalidTag) == Ok(nonce)
    ensures Passes(CheckAlgorithmParams(algo, chars, purpose, params, nonce), chars, params) <==>
            AlgorithmMayBegin(algo, chars, purpose, params)
  {
    match algo {
      case Aes => AesExact(chars, params, nonce);
      case TripleDes => DesExact(chars, params, nonce);
      case Hmac => HmacExact(chars, purpose, params);
      case Ec => EcExact(chars, purpose, params);
      case Rsa => RsaExact(chars, purpose, params);
    }
  }

  /** The checks that do not depend on the algorithm, as the code makes them. */
  predicate GeneralPasses(chars: seq<KeyParam>, purpose: KeyPurpose, params: seq<KeyParam>) {
    && KeyParam.Purpose(purpose) in chars && GetBoolTagValue(chars, StorageKey) == Ok(false)
    && GetOptTagValue(params, NonceOf, InvalidTag).Ok? && GetBoolTagValue(chars, CallerNonce).Ok?
    && (GetBoolTagValue(chars, CallerNonce).value || GetOptTagValue(params, NonceOf, InvalidTag).value.None? || purpose != Encrypt)
  }

  lemma AllowedExact(chars: seq<KeyParam>, purpose: KeyPurpose, params: seq<KeyParam>)
    ensures GeneralPasses(chars, purpose, params) <==> Allowed(chars, purpose, params)
  {
    FlagExact(chars, StorageKey);
    FlagExact(chars, CallerNonce);
    NonceLookup(params, InvalidTag);
    var nonce := GetOptTagValue(params, NonceOf, InvalidTag);
    if nonce.Ok? && nonce.value.Some? {
      assert Sole(params, Octets(Nonce, nonce.value.value));
    }
    if Sole(chars, Flag(CallerNonce)) {
      SoleIsIn(chars, Flag(CallerNonce));
    }
  }

  lemma CheckShape(chars: seq<KeyParam>, purpose: KeyPurpose, params: seq<KeyParam>)
    ensures CheckBeginParams(chars, purpose, params).Ok? <==>
            && GetTagValue(chars, AlgorithmOf, UnsupportedAlgorithm).Ok?
            && Suits(GetTagValue(chars, AlgorithmOf, UnsupportedAlgorithm).value, purpose)
            && GeneralPasses(chars, purpose, params)
            && Passes(CheckAlgorithmParams(GetTagValue(chars, AlgorithmOf, UnsupportedAlgorithm).value, chars, purpose, params,
                                           GetOptTagValue(params, NonceOf, InvalidTag).value), chars, params)
  {
  }

  /** The checks pass exactly what may begin. */
  lemma CheckBeginExact(chars: seq<KeyParam>, purpose: KeyPurpose, params: seq<KeyParam>)
    ensures CheckBeginParams(chars, purpose, params).Ok? <==> MayBegin(chars, purpose, params)
  {
    CheckShape(chars, purpose, params);
    AllowedExact(chars, purpose, params);
    AlgorithmLookup(chars, UnsupportedAlgorithm);
    var algo := GetTagValue(chars, AlgorithmOf, UnsupportedAlgorithm);
    if algo.Ok? {
      assert Sole(chars, KeyParam.Algorithm(algo.value));
      if Suits(algo.value, purpose) && GeneralPasses(chars, purpose, params) {
        AlgorithmExact(algo.value, chars, purpose, params, GetOptTagValue(params, NonceOf, InvalidTag).value);
      }
    }
  }

  ghost predicate ProhibitedNonce(chars: seq<KeyParam>, purpose: KeyPurpose, params: seq<KeyParam>) {
    purpose == Encrypt && Lacks(chars, OfFlag(CallerNonce)) && exists b :: Sole(params, Octets(Nonce, b))
  }

  lemma PurposeRefused(chars: seq<KeyParam>, purpose: KeyPurpose, params: seq<KeyParam>, algo: Algorithm)
    requires Sole(chars, KeyParam.Algorithm(algo))
    ensures !Suits(algo, purpose) ==> CheckBeginParams(chars, purpose, params) == Err(UnsupportedPurpose)
    ensures Suits(algo, purpose) && KeyParam.Purpose(purpose) !in chars ==>
              CheckBeginParams(chars, purpose, params) == Err(IncompatiblePurpose)
  {
    AlgorithmLookup(chars, UnsupportedAlgorithm);
  }

  lemma StorageRefused(chars: seq<KeyParam>, purpose: KeyPurpose, params: seq<KeyParam>, algo: Algorithm)
    requires Sole(chars, KeyParam.Algorithm(algo)) && Suits(algo, purpose) && KeyParam.Purpose(purpose) in chars
    ensures Sole(chars, Flag(StorageKey)) ==> CheckBeginParams(chars, purpose, params) == Err(StorageKeyUnsupported)
  {
    AlgorithmLookup(chars, UnsupportedAlgorithm);
    FlagExact(chars, StorageKey);
  }

  lemma NonceRefused(chars: seq<KeyParam>, purpose: KeyPurpose, params: seq<KeyParam>, algo: Algorithm)
    requires Sole(chars, KeyParam.Algorithm(algo)) && Suits(algo, purpose) && KeyParam.Purpose(purpose) in chars
    requires Lacks(chars, OfFlag(StorageKey)) && ProhibitedNonce(chars, purpose, params)
    ensures CheckBeginParams(chars, purpose, params) == Err(CallerNonceProhibited)
  {
    AlgorithmLookup(chars, UnsupportedAlgorithm);
    FlagExact(chars, StorageKey);
    FlagExact(chars, CallerNonce);
    NonceLookup(params, InvalidTag);
  }

  /** Which refusal the general checks give, in this order. */
  lemma RefusalsInOrder(chars: seq<KeyParam>, purpose: KeyPurpose, params: seq<KeyParam>, algo: Algorithm)
    requires Sole(chars, KeyParam.Algorithm(algo))
    ensures var r := CheckBeginParams(chars, purpose, params);
            && (!Suits(algo, purpose) ==> r == Err(UnsupportedPurpose))
            && (Suits(algo, purpose) && KeyParam.Purpose(purpose) !in chars ==> r == Err(IncompatiblePurpose))
            && (Suits(algo, purpose) && KeyParam.Purpose(purpose) in chars ==>
                  && (Sole(chars, Flag(StorageKey)) ==> r == Err(StorageKeyUnsupported))
                  && (Lacks(chars, OfFlag(StorageKey)) && ProhibitedNonce(chars, purpose, params) ==> r == Err(CallerNonceProhibited)))
  {
    PurposeRefused(chars, purpose, params, algo);
    if Suits(algo, purpose) && KeyParam.Purpose(purpose) in chars {
      StorageRefused(chars, purpose, params, algo);
      if Lacks(chars, OfFlag(StorageKey)) && ProhibitedNonce(chars, purpose, params) {
        NonceRefused(chars, purpose, params, algo);
      }
    }
  }

  /** The key generation check for GCM: a minimum of 96 to 128 bits in whole bytes, given once. */
  lemma CheckAesParamsExact(params: seq<KeyParam>)
    ensures CheckAesParams(params).Ok? <==>
            (KeyParam.BlockMode(Gcm) in params ==>
               exists n: U32 :: Sole(params, Uint(MinMacLength, n)) && n in {96, 104, 112, 120, 128})
  {
    MinMacLengthLookup(params, MissingMinMacLength);
    var found := GetTagValue(params, MinMacLengthOf, MissingMinMacLength);
    if found.Ok? {
      assert Sole(params, Uint(MinMacLength, found.value));
    }
  }
}
