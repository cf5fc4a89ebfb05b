/** Parameter lookups and the checks on key generation and `begin()` (common/src/tag.rs). */
module Tags {
  import opened Base
  import opened KeyParams

  // ---- Lookups ----

  /** The values that `pick` finds, in order. */
  function Select<T>(params: seq<KeyParam>, pick: KeyParam -> Option<T>): seq<T> {
    if params == [] then []
    else
      var rest := Select(params[1..], pick);
      match pick(params[0])
      case Some(v) => [v] + rest
      case None => rest
  }

  lemma {:induction false} SelectAppend<T>(a: seq<KeyParam>, p: KeyParam, pick: KeyParam -> Option<T>)
    ensures Select(a + [p], pick) == Select(a, pick) + (if pick(p).Some? then [pick(p).value] else [])
  {
    if a == [] {
      assert a + [p] == [p];
    } else {
      assert (a + [p])[1..] == a[1..] + [p];
      SelectAppend(a[1..], p, pick);
    }
  }

  /** `get_tag_value!`: the value of a tag that must occur exactly once. */
  function GetTagValue<T>(params: seq<KeyParam>, pick: KeyParam -> Option<T>, err: Error): Result<T> {
    var found := Select(params, pick);
    if |found| == 1 then Ok(found[0]) else Err(err)
  }

  /** `get_opt_tag_value!`: the value of a tag that may occur at most once. */
  function GetOptTagValue<T>(params: seq<KeyParam>, pick: KeyParam -> Option<T>, dup: Error): Result<Option<T>> {
    var found := Select(params, pick);
    if |found| == 0 then Ok(None) else if |found| == 1 then Ok(Some(found[0])) else Err(dup)
  }

  /** `get_bool_tag_value!`: whether a flag is present; repeating it is an error. */
  function GetBoolTagValue(params: seq<KeyParam>, flag: FlagTag): Result<bool> {
    var found := Select(params, p => if p == Flag(flag) then Some(true) else None);
    if |found| == 0 then Ok(false) else if |found| == 1 then Ok(true) else Err(InvalidTag)
  }

  /** The counting loop behind the single-value macros: one scan yields both lookups. */
  method ScanForTag<T>(params: seq<KeyParam>, pick: KeyParam -> Option<T>, err: Error)
    returns (single: Result<T>, optional: Result<Option<T>>)
    ensures single == GetTagValue(params, pick, err)
    ensures optional == GetOptTagValue(params, pick, err)
  {
    var last: Option<T> := None;
    var count := 0;
    for i := 0 to |params|
      invariant count == |Select(params[..i], pick)|
      invariant count > 0 ==> last == Some(Select(params[..i], pick)[count - 1])
    {
      assert params[..i + 1] == params[..i] + [params[i]];
      SelectAppend(params[..i], params[i], pick);
      match pick(params[i]) {
        case Some(v) =>
          count := count + 1;
          last := Some(v);
        case None =>
      }
    }
    assert params[..|params|] == params;
    single := if count == 1 then Ok(last.value) else Err(err);
    optional := if count == 0 then Ok(None) else if count == 1 then Ok(last) else Err(err);
  }

  function AlgorithmOf(p: KeyParam): Option<Algorithm> { if p.Algorithm? then Some(p.algorithm) else None }
  function BlockModeOf(p: KeyParam): Option<BlockMode> { if p.BlockMode? then Some(p.blockMode) else None }
  function PaddingOf(p: KeyParam): Option<PaddingMode> { if p.Padding? then Some(p.padding) else None }
  function DigestOf(p: KeyParam): Option<Digest> { if p.Digest? then Some(p.digest) else None }
  function EcCurveOf(p: KeyParam): Option<EcCurve> { if p.EcCurve? then Some(p.curve) else None }
  function MgfDigestOf(p: KeyParam): Option<Digest> { if p.RsaOaepMgfDigest? then Some(p.mgfDigest) else None }
  function KeySizeOf(p: KeyParam): Option<U32> { if p.Uint? && p.uintTag == KeySize then Some(p.u32) else None }
  function MacLengthOf(p: KeyParam): Option<U32> { if p.Uint? && p.uintTag == MacLength then Some(p.u32) else None }
  function MinMacLengthOf(p: KeyParam): Option<U32> {
    if p.Uint? && p.uintTag == MinMacLength then Some(p.u32) else None
  }
  function NonceOf(p: KeyParam): Option<Bytes> { if p.Octets? && p.octetsTag == Nonce then Some(p.bytes) else None }

  // ---- What a lookup finds ----

  /** `p` is in the list, and nothing else there has its tag. */
  ghost predicate Sole(ps: seq<KeyParam>, p: KeyParam) {
    exists i :: SoleAt(ps, p, i)
  }

  predicate SoleAt(ps: seq<KeyParam>, p: KeyParam, i: int) {
    0 <= i < |ps| && ps[i] == p && forall j :: 0 <= j < |ps| && j != i ==> ParamTag(ps[j]) != ParamTag(p)
  }

  predicate Lacks(ps: seq<KeyParam>, t: Tag) { forall p :: p in ps ==> ParamTag(p) != t }

  ghost predicate AtMostOne(ps: seq<KeyParam>, t: Tag) { Lacks(ps, t) || exists p :: ParamTag(p) == t && Sole(ps, p) }

  /** `pick` takes the value out of the parameters with this tag. */
  ghost predicate Picks<T(!new)>(pick: KeyParam -> Option<T>, t: Tag, make: T -> KeyParam) {
    && (forall p :: pick(p).Some? <==> ParamTag(p) == t)
    && (forall p :: pick(p).Some? ==> make(pick(p).value) == p)
    && (forall v :: pick(make(v)) == Some(v))
  }

  lemma {:induction false} SelectNone<T(!new)>(ps: seq<KeyParam>, pick: KeyParam -> Option<T>, t: Tag, make: T -> KeyParam)
    requires Picks(pick, t, make)
    ensures Select(ps, pick) == [] <==> Lacks(ps, t)
  {
    if ps != [] {
      assert pick(ps[0]).Some? <==> ParamTag(ps[0]) == t;
      SelectNone(ps[1..], pick, t, make);
      assert Lacks(ps, t) <==> ParamTag(ps[0]) != t && Lacks(ps[1..], t);
    }
  }

  lemma SoleFirst(ps: seq<KeyParam>, p: KeyParam)
    requires ps != []
    ensures Sole(ps, p) <==>
            if ParamTag(ps[0]) == ParamTag(p) then ps[0] == p && Lacks(ps[1..], ParamTag(p)) else Sole(ps[1..], p)
  {
    if ParamTag(ps[0]) == ParamTag(p) {
      if Sole(ps, p) {
        var i :| SoleAt(ps, p, i);
        assert i == 0;
        assert forall q :: q in ps[1..] ==> exists j :: 1 <= j < |ps| && ps[j] == q;
      }
      if ps[0] == p && Lacks(ps[1..], ParamTag(p)) {
        assert forall j :: 1 <= j < |ps| ==> ps[j] in ps[1..];
        assert SoleAt(ps, p, 0);
      }
    } else {
      if Sole(ps, p) {
        var i :| SoleAt(ps, p, i);
        assert SoleAt(ps[1..], p, i - 1);
      }
      if Sole(ps[1..], p) {
        var i :| SoleAt(ps[1..], p, i);
        assert SoleAt(ps, p, i + 1);
      }
    }
  }

  lemma {:induction false} SelectOne<T(!new)>(ps: seq<KeyParam>, pick: KeyParam -> Option<T>, t: Tag, make: T -> KeyParam, v: T)
    requires Picks(pick, t, make)
    ensures Select(ps, pick) == [v] <==> Sole(ps, make(v))
  {
    assert pick(make(v)) == Some(v);
    if ps != [] {
      SoleFirst(ps, make(v));
      SelectNone(ps[1..], pick, t, make);
      SelectOne(ps[1..], pick, t, make, v);
      assert pick(ps[0]).Some? ==> make(pick(ps[0]).value) == ps[0];
    }
  }

  /** The lookups by what is in the list: a mandatory tag must occur exactly once, an optional one at most once. */
  lemma LookupExact<T(!new)>(ps: seq<KeyParam>, pick: KeyParam -> Option<T>, t: Tag, make: T -> KeyParam, err: Error)
    requires Picks(pick, t, make)
    ensures forall v :: GetTagValue(ps, pick, err) == Ok(v) <==> Sole(ps, make(v))
    ensures forall v :: GetOptTagValue(ps, pick, err) == Ok(Some(v)) <==> Sole(ps, make(v))
    ensures GetOptTagValue(ps, pick, err) == Ok(None) <==> Lacks(ps, t)
    ensures GetTagValue(ps, pick, err).Err? ==> GetTagValue(ps, pick, err) == Err(err)
    ensures GetOptTagValue(ps, pick, err).Err? ==> GetOptTagValue(ps, pick, err) == Err(err)
  {
    SelectNone(ps, pick, t, make);
    forall v
      ensures Select(ps, pick) == [v] <==> Sole(ps, make(v))
    {
      SelectOne(ps, pick, t, make, v);
    }
    var found := Select(ps, pick);
    if |found| == 1 {
      assert found == [found[0]];
    }
  }

  /** A flag may be given once. */
  lemma FlagExact(ps: seq<KeyParam>, flag: FlagTag)
    ensures GetBoolTagValue(ps, flag) == Ok(true) <==> Sole(ps, Flag(flag))
    ensures GetBoolTagValue(ps, flag) == Ok(false) <==> Lacks(ps, OfFlag(flag))
    ensures GetBoolTagValue(ps, flag).Err? ==> GetBoolTagValue(ps, flag) == Err(InvalidTag)
  {
    var pick: KeyParam -> Option<bool> := p => if p == Flag(flag) then Some(true) else None;
    FlagCount(ps, flag, pick);
  }

  lemma {:induction false} FlagCount(ps: seq<KeyParam>, flag: FlagTag, pick: KeyParam -> Option<bool>)
    requires forall p :: pick(p) == if p == Flag(flag) then Some(true) else None
    ensures |Select(ps, pick)| == 0 <==> Lacks(ps, OfFlag(flag))
    ensures |Select(ps, pick)| == 1 <==> Sole(ps, Flag(flag))
  {
    if ps != [] {
      FlagCount(ps[1..], flag, pick);
      SoleFirst(ps, Flag(flag));
      assert Lacks(ps, OfFlag(flag)) <==> ParamTag(ps[0]) != OfFlag(flag) && Lacks(ps[1..], OfFlag(flag));
    }
  }

  /** The authorizations at one security level; there must be exactly one such list. */
  function AtLevel(chars: seq<KeyCharacteristics>, level: SecurityLevel): seq<seq<KeyParam>> {
    if chars == [] then []
    else
      (if chars[0].securityLevel == level then [chars[0].authorizations] else []) + AtLevel(chars[1..], level)
  }

  function CharacteristicsAt(chars: seq<KeyCharacteristics>, level: SecurityLevel): Result<seq<KeyParam>> {
    var lists := AtLevel(chars, level);
    if |lists| == 1 then Ok(lists[0]) else Err(InvalidKeyBlob)
  }

  // ---- Key generation checks ----

  function CheckAesParams(params: seq<KeyParam>): Result<()> {
    if KeyParam.BlockMode(Gcm) in params then
      var minMacLen :- GetTagValue(params, MinMacLengthOf, MissingMinMacLength);
      if minMacLen % 8 != 0 || !(96 <= minMacLen <= 128) then Err(UnsupportedMinMacLength) else Ok(())
    else Ok(())
  }

  // ---- begin() checks ----

  datatype BeginParamsToCheck =
    BeginParamsToCheck(blockMode: bool, padding: bool, digest: bool, mgfDigest: bool)

  predicate ValidPurpose(algo: Algorithm, purpose: KeyPurpose) {
    match algo
    case Aes => purpose == Encrypt || purpose == Decrypt
    case TripleDes => purpose == Encrypt || purpose == Decrypt
    case Hmac => purpose == Sign || purpose == Verify
    case Ec => purpose == Sign || purpose == AttestKey || purpose == AgreeKey
    case Rsa => purpose == Sign || purpose == Decrypt || purpose == AttestKey
  }

  predicate ForEncryption(purpose: KeyPurpose) {
    purpose == Encrypt || purpose == Decrypt || purpose == WrapKey
  }

  /** Digest length in bits. */
  function DigestLen(d: Digest): Result<nat> {
    match d
    case NoDigest => Err(IncompatibleDigest)
    case Md5 => Ok(128)
    case Sha1 => Ok(160)
    case Sha224 => Ok(224)
    case Sha256 => Ok(256)
    case Sha384 => Ok(384)
    case Sha512 => Ok(512)
  }

  function GetMgfDigest(params: seq<KeyParam>): Result<Digest> {
    var d :- GetOptTagValue(params, MgfDigestOf, InvalidTag);
    Ok(if d.Some? then d.value else Sha1)
  }

  predicate HasMgfDigest(params: seq<KeyParam>) {
    exists p :: p in params && p.RsaOaepMgfDigest?
  }

  /** `reject_some_digest` for digests, `reject_some_padding` for padding modes. */
  function RejectSome<T(==)>(params: seq<KeyParam>, pick: KeyParam -> Option<T>, none: T): Result<()> {
    var v :- GetOptTagValue(params, pick, InvalidTag);
    if v.Some? && v.value != none then Err(InvalidTag) else Ok(())
  }

  function CheckBeginRsaParams(chars: seq<KeyParam>, purpose: KeyPurpose, params: seq<KeyParam>): Result<BeginParamsToCheck> {
    var padding :- GetTagValue(params, PaddingOf, UnsupportedPaddingMode);
    var digest :-
      if purpose == Sign || (ForEncryption(purpose) && padding == RsaOaep)
      then match GetTagValue(params, DigestOf, UnsupportedDigest) { case Ok(d) => Ok(Some(d)) case Err(e) => Err(e) }
      else Ok(None);
    var _ :-
      if purpose == Sign && padding == NoPadding && digest != Some(NoDigest)
      then Err(IncompatibleDigest) else Ok(());
    var _ :- match padding {
      case NoPadding => Ok(())
      case RsaOaep =>
        if !ForEncryption(purpose) then Err(UnsupportedPaddingMode)
        else if digest == None || digest == Some(NoDigest) then Err(IncompatibleDigest)
        else
          var mgf :- GetMgfDigest(params);
          if mgf == NoDigest then Err(UnsupportedMgfDigest) else Ok(())
      case RsaPss =>
        if purpose != Sign then Err(UnsupportedPaddingMode)
        else if digest == None then Err(IncompatibleDigest)
        else
          var keySize :- GetTagValue(chars, KeySizeOf, InvalidArgument);
          var d :- DigestLen(digest.value);
          if keySize < 2 * d + 9 then Err(IncompatibleDigest) else Ok(())
      case RsaPkcs115Encrypt => if !ForEncryption(purpose) then Err(UnsupportedPaddingMode) else Ok(())
      case RsaPkcs115Sign =>
        if purpose != Sign then Err(UnsupportedPaddingMode)
        else if digest == None then Err(IncompatibleDigest) else Ok(())
      case Pkcs7 => Err(UnsupportedPaddingMode)
    };
    Ok(BeginParamsToCheck(false, true, true, true))
  }

  function CheckBeginEcParams(chars: seq<KeyParam>, purpose: KeyPurpose, params: seq<KeyParam>): Result<BeginParamsToCheck> {
    var curve :- GetTagValue(chars, EcCurveOf, UnsupportedKeySize);
    var _ :-
      if purpose == Sign then
        var digest :- GetTagValue(params, DigestOf, UnsupportedDigest);
        if digest == Md5 || (curve == Curve25519 && digest != NoDigest) then Err(UnsupportedDigest) else Ok(())
      else Ok(());
    Ok(BeginParamsToCheck(false, false, true, false))
  }

  function CheckBeginAesParams(chars: seq<KeyParam>, params: seq<KeyParam>, nonce: Option<Bytes>): Result<BeginParamsToCheck> {
    var _ :- if HasMgfDigest(params) then Err(InvalidTag) else Ok(());
    var _ :- RejectSome(params, DigestOf, NoDigest);
    var bmode :- GetTagValue(params, BlockModeOf, UnsupportedBlockMode);
    var padding :- GetTagValue(params, PaddingOf, UnsupportedPaddingMode);
    var _ :-
      if bmode == Gcm then
        var macLen :- GetTagValue(params, MacLengthOf, MissingMacLength);
        if macLen % 8 != 0 || macLen > 128 then Err(UnsupportedMacLength)
        else
          var minMacLen :- GetTagValue(chars, MinMacLengthOf, MissingMinMacLength);
          if macLen < minMacLen then Err(InvalidMacLength) else Ok(())
      else Ok(());
    var _ :- match bmode {
      case Gcm | Ctr => if padding == NoPadding then Ok(()) else Err(IncompatiblePaddingMode)
      case Ecb | Cbc =>
        if padding == NoPadding || padding == Pkcs7 then Ok(()) else Err(IncompatiblePaddingMode)
    };
    var _ :-
      if nonce == None || (bmode == Cbc && |nonce.value| == 16) || (bmode == Ctr && |nonce.value| == 16)
         || (bmode == Gcm && |nonce.value| == 12)
      then Ok(()) else Err(InvalidNonce);
    Ok(BeginParamsToCheck(true, true, false, false))
  }

  function CheckBegin3DesParams(params: seq<KeyParam>, nonce: Option<Bytes>): Result<BeginParamsToCheck> {
    var _ :- if HasMgfDigest(params) then Err(InvalidTag) else Ok(());
    var _ :- RejectSome(params, DigestOf, NoDigest);
    var bmode :- GetTagValue(params, BlockModeOf, UnsupportedBlockMode);
    var padding :- GetTagValue(params, PaddingOf, UnsupportedPaddingMode);
    var _ :- if bmode == Cbc || bmode == Ecb then Ok(()) else Err(UnsupportedBlockMode);
    var _ :- if nonce == None || (bmode == Cbc && |nonce.value| == 8) then Ok(()) else Err(InvalidNonce);
    Ok(BeginParamsToCheck(true, true, false, false))
  }

  function CheckBeginHmacParams(chars: seq<KeyParam>, purpose: KeyPurpose, params: seq<KeyParam>): Result<BeginParamsToCheck> {
    var _ :-
      if (exists p :: p in params && (p.BlockMode? || p.RsaOaepMgfDigest?)) then Err(InvalidTag) else Ok(());
    var _ :- RejectSome(params, PaddingOf, NoPadding);
    var digest :- GetTagValue(params, DigestOf, UnsupportedDigest);
    var _ :-
      if purpose == Sign then
        var macLen :- GetTagValue(params, MacLengthOf, MissingMacLength);
        if macLen % 8 != 0 then Err(UnsupportedMacLength)
        else
          var d :- DigestLen(digest);
          if macLen > d then Err(UnsupportedMacLength)
          else
            var minMacLen :- GetTagValue(chars, MinMacLengthOf, MissingMinMacLength);
            if macLen < minMacLen then Err(InvalidMacLength) else Ok(())
      else Ok(());
    Ok(BeginParamsToCheck(false, false, true, false))
  }

  /** If a value is given on `begin()`, the key characteristics must list it. */
  function CheckListed<T>(chars: seq<KeyParam>, params: seq<KeyParam>, pick: KeyParam -> Option<T>,
                          make: T -> KeyParam, dup: Error, missing: Error): Result<()> {
    var v :- GetOptTagValue(params, pick, dup);
    if v.Some? && make(v.value) !in chars then Err(missing) else Ok(())
  }

  function CheckMgfDigest(chars: seq<KeyParam>, params: seq<KeyParam>): Result<()> {
    var given :- GetOptTagValue(params, MgfDigestOf, UnsupportedMgfDigest);
    var toFind := if HasMgfDigest(chars) && given == None then Some(Sha1) else given;
    if toFind.Some? && KeyParam.RsaOaepMgfDigest(toFind.value) !in chars
    then Err(IncompatibleMgfDigest) else Ok(())
  }

  function CheckAlgorithmParams(algo: Algorithm, chars: seq<KeyParam>, purpose: KeyPurpose, params: seq<KeyParam>,
                                nonce: Option<Bytes>): Result<BeginParamsToCheck> {
    match algo
    case Rsa => CheckBeginRsaParams(chars, purpose, params)
    case Ec => CheckBeginEcParams(chars, purpose, params)
    case Aes => CheckBeginAesParams(chars, params, nonce)
    case TripleDes => CheckBegin3DesParams(params, nonce)
    case Hmac => CheckBeginHmacParams(chars, purpose, params)
  }

  function CheckAgainstChars(check: BeginParamsToCheck, chars: seq<KeyParam>, params: seq<KeyParam>): Result<()> {
    var _ :-
      if check.blockMode
      then CheckListed(chars, params, BlockModeOf, v => KeyParam.BlockMode(v), UnsupportedBlockMode, IncompatibleBlockMode)
      else Ok(());
    var _ :-
      if check.padding
      then CheckListed(chars, params, PaddingOf, v => KeyParam.Padding(v), UnsupportedPaddingMode, IncompatiblePaddingMode)
      else Ok(());
    var _ :-
      if check.digest
      then CheckListed(chars, params, DigestOf, v => KeyParam.Digest(v), UnsupportedDigest, IncompatibleDigest)
      else Ok(());
    if check.mgfDigest then CheckMgfDigest(chars, params) else Ok(())
  }

  function CheckBeginParams(chars: seq<KeyParam>, purpose: KeyPurpose, params: seq<KeyParam>): Result<()> {
    var algo :- GetTagValue(chars, AlgorithmOf, UnsupportedAlgorithm);
    var _ :- if ValidPurpose(algo, purpose) then Ok(()) else Err(UnsupportedPurpose);
    var _ :- if KeyParam.Purpose(purpose) in chars then Ok(()) else Err(IncompatiblePurpose);
    var storage :- GetBoolTagValue(chars, StorageKey);
    var _ :- if storage then Err(StorageKeyUnsupported) else Ok(());
    var nonce :- GetOptTagValue(params, NonceOf, InvalidTag);
    var callerNonce :- GetBoolTagValue(chars, CallerNonce);
    var _ :- if !callerNonce && nonce.Some? && purpose == Encrypt then Err(CallerNonceProhibited) else Ok(());
    var check :- CheckAlgorithmParams(algo, chars, purpose, params, nonce);
    CheckAgainstChars(check, chars, params)
  }
}
