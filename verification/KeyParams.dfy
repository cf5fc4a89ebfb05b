/** Key parameters, their tags and the numeric codes they travel under (wire/src/keymint.rs).

    A `KeyParam` groups the variants of the wire enum by payload type, which is also how the
    top four bits of a tag code group the tags; every wire variant is one value here. */
module KeyParams {
  import opened Base

  datatype KeyPurpose =
    | Encrypt | Decrypt | Sign | Verify | WrapKey | AgreeKey | AttestKey
  {
    function Code(): (c: I32) {
      match this
      case Encrypt => 0
      case Decrypt => 1
      case Sign => 2
      case Verify => 3
      case WrapKey => 5
      case AgreeKey => 6
      case AttestKey => 7
    }

    static function FromCode(c: int): (r: Option<KeyPurpose>)
      ensures r.Some? ==> r.value.Code() == c
    {
      if c == 0 then Some(Encrypt)
      else if c == 1 then Some(Decrypt)
      else if c == 2 then Some(Sign)
      else if c == 3 then Some(Verify)
      else if c == 5 then Some(WrapKey)
      else if c == 6 then Some(AgreeKey)
      else if c == 7 then Some(AttestKey)
      else None
    }
  }

  datatype Algorithm =
    | Rsa | Ec | Aes | TripleDes | Hmac
  {
    function Code(): (c: I32) {
      match this
      case Rsa => 1
      case Ec => 3
      case Aes => 32
      case TripleDes => 33
      case Hmac => 128
    }

    static function FromCode(c: int): (r: Option<Algorithm>)
      ensures r.Some? ==> r.value.Code() == c
    {
      if c == 1 then Some(Rsa)
      else if c == 3 then Some(Ec)
      else if c == 32 then Some(Aes)
      else if c == 33 then Some(TripleDes)
      else if c == 128 then Some(Hmac)
      else None
    }
  }

  datatype BlockMode =
    | Ecb | Cbc | Ctr | Gcm
  {
    function Code(): (c: I32) {
      match this
      case Ecb => 1
      case Cbc => 2
      case Ctr => 3
      case Gcm => 32
    }

    static function FromCode(c: int): (r: Option<BlockMode>)
      ensures r.Some? ==> r.value.Code() == c
    {
      if c == 1 then Some(Ecb)
      else if c == 2 then Some(Cbc)
      else if c == 3 then Some(Ctr)
      else if c == 32 then Some(Gcm)
      else None
    }
  }

  datatype Digest =
    | NoDigest | Md5 | Sha1 | Sha224 | Sha256 | Sha384 | Sha512
  {
    function Code(): (c: I32) {
      match this
      case NoDigest => 0
      case Md5 => 1
      case Sha1 => 2
      case Sha224 => 3
      case Sha256 => 4
      case Sha384 => 5
      case Sha512 => 6
    }

    static function FromCode(c: int): (r: Option<Digest>)
      ensures r.Some? ==> r.value.Code() == c
    {
      if c == 0 then Some(NoDigest)
      else if c == 1 then Some(Md5)
      else if c == 2 then Some(Sha1)
      else if c == 3 then Some(Sha224)
      else if c == 4 then Some(Sha256)
      else if c == 5 then Some(Sha384)
      else if c == 6 then Some(Sha512)
      else None
    }
  }

  datatype PaddingMode =
    | NoPadding | RsaOaep | RsaPss | RsaPkcs115Encrypt | RsaPkcs115Sign | Pkcs7
  {
    function Code(): (c: I32) {
      match this
      case NoPadding => 1
      case RsaOaep => 2
      case RsaPss => 3
      case RsaPkcs115Encrypt => 4
      case RsaPkcs115Sign => 5
      case Pkcs7 => 64
    }

    static function FromCode(c: int): (r: Option<PaddingMode>)
      ensures r.Some? ==> r.value.Code() == c
    {
      if c == 1 then Some(NoPadding)
      else if c == 2 then Some(RsaOaep)
      else if c == 3 then Some(RsaPss)
      else if c == 4 then Some(RsaPkcs115Encrypt)
      else if c == 5 then Some(RsaPkcs115Sign)
      else if c == 64 then Some(Pkcs7)
      else None
    }
  }

  datatype EcCurve =
    | P224 | P256 | P384 | P521 | Curve25519
  {
    function Code(): (c: I32) {
      match this
      case P224 => 0
      case P256 => 1
      case P384 => 2
      case P521 => 3
      case Curve25519 => 4
    }

    static function FromCode(c: int): (r: Option<EcCurve>)
      ensures r.Some? ==> r.value.Code() == c
    {
      if c == 0 then Some(P224)
      else if c == 1 then Some(P256)
      else if c == 2 then Some(P384)
      else if c == 3 then Some(P521)
      else if c == 4 then Some(Curve25519)
      else None
    }
  }

  datatype KeyOrigin =
    | Generated | Derived | Imported | Reserved | SecurelyImported
  {
    function Code(): (c: I32) {
      match this
      case Generated => 0
      case Derived => 1
      case Imported => 2
      case Reserved => 3
      case SecurelyImported => 4
    }

    static function FromCode(c: int): (r: Option<KeyOrigin>)
      ensures r.Some? ==> r.value.Code() == c
    {
      if c == 0 then Some(Generated)
      else if c == 1 then Some(Derived)
      else if c == 2 then Some(Imported)
      else if c == 3 then Some(Reserved)
      else if c == 4 then Some(SecurelyImported)
      else None
    }
  }

  datatype SecurityLevel =
    | Software | TrustedEnvironment | Strongbox | Keystore
  {
    function Code(): (c: I32) {
      match this
      case Software => 0
      case TrustedEnvironment => 1
      case Strongbox => 2
      case Keystore => 100
    }

    static function FromCode(c: int): (r: Option<SecurityLevel>)
      ensures r.Some? ==> r.value.Code() == c
    {
      if c == 0 then Some(Software)
      else if c == 1 then Some(TrustedEnvironment)
      else if c == 2 then Some(Strongbox)
      else if c == 100 then Some(Keystore)
      else None
    }
  }

  datatype EnumTag =
    | PurposeTag | AlgorithmTag | BlockModeTag | DigestTag | PaddingTag | EcCurveTag
    | RsaOaepMgfDigestTag | OriginTag
  {
    function Code(): (c: I32) {
      match this
      case PurposeTag => 536870913
      case AlgorithmTag => 268435458
      case BlockModeTag => 536870916
      case DigestTag => 536870917
      case PaddingTag => 536870918
      case EcCurveTag => 268435466
      case RsaOaepMgfDigestTag => 536871115
      case OriginTag => 268436158
    }

    static function FromCode(c: int): (r: Option<EnumTag>)
      ensures r.Some? ==> r.value.Code() == c
    {
      if c == 536870913 then Some(PurposeTag)
      else if c == 268435458 then Some(AlgorithmTag)
      else if c == 536870916 then Some(BlockModeTag)
      else if c == 536870917 then Some(DigestTag)
      else if c == 536870918 then Some(PaddingTag)
      else if c == 268435466 then Some(EcCurveTag)
      else if c == 536871115 then Some(RsaOaepMgfDigestTag)
      else if c == 268436158 then Some(OriginTag)
      else None
    }
  }

  datatype UintTag =
    | KeySize | MinMacLength | MaxUsesPerBoot | UsageCountLimit | UserId | UserAuthType
    | AuthTimeout | OsVersion | OsPatchlevel | VendorPatchlevel | BootPatchlevel | MacLength
    | MaxBootLevel
  {
    function Code(): (c: I32) {
      match this
      case KeySize => 805306371
      case MinMacLength => 805306376
      case MaxUsesPerBoot => 805306772
      case UsageCountLimit => 805306773
      case UserId => 805306869
      case UserAuthType => 268435960
      case AuthTimeout => 805306873
      case OsVersion => 805307073
      case OsPatchlevel => 805307074
      case VendorPatchlevel => 805307086
      case BootPatchlevel => 805307087
      case MacLength => 805307371
      case MaxBootLevel => 805307378
    }

    static function FromCode(c: int): (r: Option<UintTag>)
      ensures r.Some? ==> r.value.Code() == c
    {
      if c == 805306371 then Some(KeySize)
      else if c == 805306376 then Some(MinMacLength)
      else if c == 805306772 then Some(MaxUsesPerBoot)
      else if c == 805306773 then Some(UsageCountLimit)
      else if c == 805306869 then Some(UserId)
      else if c == 268435960 then Some(UserAuthType)
      else if c == 805306873 then Some(AuthTimeout)
      else if c == 805307073 then Some(OsVersion)
      else if c == 805307074 then Some(OsPatchlevel)
      else if c == 805307086 then Some(VendorPatchlevel)
      else if c == 805307087 then Some(BootPatchlevel)
      else if c == 805307371 then Some(MacLength)
      else if c == 805307378 then Some(MaxBootLevel)
      else None
    }
  }

  datatype UlongTag =
    | RsaPublicExponent | UserSecureId
  {
    function Code(): (c: I32) {
      match this
      case RsaPublicExponent => 1342177480
      case UserSecureId => -1610612234
    }

    static function FromCode(c: int): (r: Option<UlongTag>)
      ensures r.Some? ==> r.value.Code() == c
    {
      if c == 1342177480 then Some(RsaPublicExponent)
      else if c == -1610612234 then Some(UserSecureId)
      else None
    }
  }

  datatype DateTag =
    | ActiveDatetime | OriginationExpireDatetime | UsageExpireDatetime | CreationDatetime
    | CertificateNotBefore | CertificateNotAfter
  {
    function Code(): (c: I32) {
      match this
      case ActiveDatetime => 1610613136
      case OriginationExpireDatetime => 1610613137
      case UsageExpireDatetime => 1610613138
      case CreationDatetime => 1610613437
      case CertificateNotBefore => 1610613744
      case CertificateNotAfter => 1610613745
    }

    static function FromCode(c: int): (r: Option<DateTag>)
      ensures r.Some? ==> r.value.Code() == c
    {
      if c == 1610613136 then Some(ActiveDatetime)
      else if c == 1610613137 then Some(OriginationExpireDatetime)
      else if c == 1610613138 then Some(UsageExpireDatetime)
      else if c == 1610613437 then Some(CreationDatetime)
      else if c == 1610613744 then Some(CertificateNotBefore)
      else if c == 1610613745 then Some(CertificateNotAfter)
      else None
    }
  }

  datatype FlagTag =
    | CallerNonce | IncludeUniqueId | BootloaderOnly | RollbackResistance | EarlyBootOnly
    | NoAuthRequired | AllowWhileOnBody | TrustedUserPresenceRequired | TrustedConfirmationRequired
    | UnlockedDeviceRequired | DeviceUniqueAttestation | StorageKey | ResetSinceIdRotation
  {
    function Code(): (c: I32) {
      match this
      case CallerNonce => 1879048199
      case IncludeUniqueId => 1879048394
      case BootloaderOnly => 1879048494
      case RollbackResistance => 1879048495
      case EarlyBootOnly => 1879048497
      case NoAuthRequired => 1879048695
      case AllowWhileOnBody => 1879048698
      case TrustedUserPresenceRequired => 1879048699
      case TrustedConfirmationRequired => 1879048700
      case UnlockedDeviceRequired => 1879048701
      case DeviceUniqueAttestation => 1879048912
      case StorageKey => 1879048914
      case ResetSinceIdRotation => 1879049196
    }

    static function FromCode(c: int): (r: Option<FlagTag>)
      ensures r.Some? ==> r.value.Code() == c
    {
      if c == 1879048199 then Some(CallerNonce)
      else if c == 1879048394 then Some(IncludeUniqueId)
      else if c == 1879048494 then Some(BootloaderOnly)
      else if c == 1879048495 then Some(RollbackResistance)
      else if c == 1879048497 then Some(EarlyBootOnly)
      else if c == 1879048695 then Some(NoAuthRequired)
      else if c == 1879048698 then Some(AllowWhileOnBody)
      else if c == 1879048699 then Some(TrustedUserPresenceRequired)
      else if c == 1879048700 then Some(TrustedConfirmationRequired)
      else if c == 1879048701 then Some(UnlockedDeviceRequired)
      else if c == 1879048912 then Some(DeviceUniqueAttestation)
      else if c == 1879048914 then Some(StorageKey)
      else if c == 1879049196 then Some(ResetSinceIdRotation)
      else None
    }
  }

  datatype OctetsTag =
    | ApplicationId | ApplicationData | RootOfTrust | AttestationChallenge
    | AttestationApplicationId | AttestationIdBrand | AttestationIdDevice | AttestationIdProduct
    | AttestationIdSerial | AttestationIdImei | AttestationIdSecondImei | AttestationIdMeid
    | AttestationIdManufacturer | AttestationIdModel | Nonce | CertificateSerial
    | CertificateSubject | ModuleHash
  {
    function Code(): (c: I32) {
      match this
      case ApplicationId => -1879047591
      case ApplicationData => -1879047492
      case RootOfTrust => -1879047488
      case AttestationChallenge => -1879047484
      case AttestationApplicationId => -1879047483
      case AttestationIdBrand => -1879047482
      case AttestationIdDevice => -1879047481
      case AttestationIdProduct => -1879047480
      case AttestationIdSerial => -1879047479
      case AttestationIdImei => -1879047478
      case AttestationIdSecondImei => -1879047469
      case AttestationIdMeid => -1879047477
      case AttestationIdManufacturer => -1879047476
      case AttestationIdModel => -1879047475
      case Nonce => -1879047191
      case CertificateSerial => -2147482642
      case CertificateSubject => -1879047185
      case ModuleHash => -1879047468
    }

    static function FromCode(c: int): (r: Option<OctetsTag>)
      ensures r.Some? ==> r.value.Code() == c
    {
      if c == -1879047591 then Some(ApplicationId)
      else if c == -1879047492 then Some(ApplicationData)
      else if c == -1879047488 then Some(RootOfTrust)
      else if c == -1879047484 then Some(AttestationChallenge)
      else if c == -1879047483 then Some(AttestationApplicationId)
      else if c == -1879047482 then Some(AttestationIdBrand)
      else if c == -1879047481 then Some(AttestationIdDevice)
      else if c == -1879047480 then Some(AttestationIdProduct)
      else if c == -1879047479 then Some(AttestationIdSerial)
      else if c == -1879047478 then Some(AttestationIdImei)
      else if c == -1879047469 then Some(AttestationIdSecondImei)
      else if c == -1879047477 then Some(AttestationIdMeid)
      else if c == -1879047476 then Some(AttestationIdManufacturer)
      else if c == -1879047475 then Some(AttestationIdModel)
      else if c == -1879047191 then Some(Nonce)
      else if c == -2147482642 then Some(CertificateSerial)
      else if c == -1879047185 then Some(CertificateSubject)
      else if c == -1879047468 then Some(ModuleHash)
      else None
    }
  }

  /** A tag that some `KeyParam` can carry. */
  datatype Tag =
    | OfEnum(e: EnumTag) | OfUint(u: UintTag) | OfUlong(l: UlongTag)
    | OfDate(d: DateTag) | OfFlag(f: FlagTag) | OfOctets(o: OctetsTag)
  {
    /** The 32-bit code: type bits above the raw tag number. */
    function Code(): (c: I32) {
      match this
      case OfEnum(e) => e.Code()
      case OfUint(u) => u.Code()
      case OfUlong(l) => l.Code()
      case OfDate(d) => d.Code()
      case OfFlag(f) => f.Code()
      case OfOctets(o) => o.Code()
    }

    /** `raw_tag_value`: the code without its type bits. */
    function Raw(): (r: nat)
      ensures r < 0x1000_0000
    {
      AsU32(Code()) % 0x1000_0000
    }

    static function FromCode(c: int): (r: Option<Tag>)
      ensures r.Some? ==> r.value.Code() == c
    {
      if EnumTag.FromCode(c).Some? then Some(OfEnum(EnumTag.FromCode(c).value))
      else if UintTag.FromCode(c).Some? then Some(OfUint(UintTag.FromCode(c).value))
      else if UlongTag.FromCode(c).Some? then Some(OfUlong(UlongTag.FromCode(c).value))
      else if DateTag.FromCode(c).Some? then Some(OfDate(DateTag.FromCode(c).value))
      else if FlagTag.FromCode(c).Some? then Some(OfFlag(FlagTag.FromCode(c).value))
      else if OctetsTag.FromCode(c).Some? then Some(OfOctets(OctetsTag.FromCode(c).value))
      else None
    }
  }

  /** Tag codes are pairwise distinct. */
  lemma TagCodeInverse(t: Tag)
    ensures Tag.FromCode(t.Code()) == Some(t)
  {
    match t
    case OfEnum(_) =>
    case OfUint(_) =>
    case OfUlong(_) =>
    case OfDate(_) =>
    case OfFlag(_) =>
    case OfOctets(_) =>
  }

  datatype KeyParam =
    | Purpose(purpose: KeyPurpose)
    | Algorithm(algorithm: Algorithm)
    | BlockMode(blockMode: BlockMode)
    | Digest(digest: Digest)
    | Padding(padding: PaddingMode)
    | EcCurve(curve: EcCurve)
    | RsaOaepMgfDigest(mgfDigest: Digest)
    | Origin(origin: KeyOrigin)
    | Uint(uintTag: UintTag, u32: U32)
    | Ulong(ulongTag: UlongTag, u64: U64)
    | Date(dateTag: DateTag, msSinceEpoch: I64)
    | Flag(flagTag: FlagTag)
    | Octets(octetsTag: OctetsTag, bytes: Bytes)

  /** What a parameter carries besides its tag. */
  datatype Payload = Num(n: int) | Data(b: Bytes) | Present

  function ParamTag(p: KeyParam): (t: Tag) {
    match p
    case Purpose(_) => OfEnum(PurposeTag)
    case Algorithm(_) => OfEnum(AlgorithmTag)
    case BlockMode(_) => OfEnum(BlockModeTag)
    case Digest(_) => OfEnum(DigestTag)
    case Padding(_) => OfEnum(PaddingTag)
    case EcCurve(_) => OfEnum(EcCurveTag)
    case RsaOaepMgfDigest(_) => OfEnum(RsaOaepMgfDigestTag)
    case Origin(_) => OfEnum(OriginTag)
    case Uint(t, _) => OfUint(t)
    case Ulong(t, _) => OfUlong(t)
    case Date(t, _) => OfDate(t)
    case Flag(t) => OfFlag(t)
    case Octets(t, _) => OfOctets(t)
  }

  function ParamPayload(p: KeyParam): (v: Payload) {
    match p
    case Purpose(v) => Num(v.Code())
    case Algorithm(v) => Num(v.Code())
    case BlockMode(v) => Num(v.Code())
    case Digest(v) => Num(v.Code())
    case Padding(v) => Num(v.Code())
    case EcCurve(v) => Num(v.Code())
    case RsaOaepMgfDigest(v) => Num(v.Code())
    case Origin(v) => Num(v.Code())
    case Uint(_, n) => Num(n)
    case Ulong(_, n) => Num(n)
    case Date(_, n) => Num(n)
    case Flag(_) => Present
    case Octets(_, b) => Data(b)
  }

  function MakeEnum(e: EnumTag, n: int): (r: Option<KeyParam>)
    ensures r.Some? ==> ParamTag(r.value) == OfEnum(e) && ParamPayload(r.value) == Num(n)
  {
    match e
    case PurposeTag =>
      if KeyPurpose.FromCode(n).Some? then Some(KeyParam.Purpose(KeyPurpose.FromCode(n).value)) else None
    case AlgorithmTag =>
      if Algorithm.FromCode(n).Some? then Some(KeyParam.Algorithm(Algorithm.FromCode(n).value)) else None
    case BlockModeTag =>
      if BlockMode.FromCode(n).Some? then Some(KeyParam.BlockMode(BlockMode.FromCode(n).value)) else None
    case DigestTag =>
      if Digest.FromCode(n).Some? then Some(KeyParam.Digest(Digest.FromCode(n).value)) else None
    case PaddingTag =>
      if PaddingMode.FromCode(n).Some? then Some(KeyParam.Padding(PaddingMode.FromCode(n).value)) else None
    case EcCurveTag =>
      if EcCurve.FromCode(n).Some? then Some(KeyParam.EcCurve(EcCurve.FromCode(n).value)) else None
    case RsaOaepMgfDigestTag =>
      if Digest.FromCode(n).Some? then Some(KeyParam.RsaOaepMgfDigest(Digest.FromCode(n).value)) else None
    case OriginTag =>
      if KeyOrigin.FromCode(n).Some? then Some(KeyParam.Origin(KeyOrigin.FromCode(n).value)) else None
  }

  /** Rebuild a parameter from tag and payload; `None` when the payload does not suit the tag. */
  function MakeParam(t: Tag, v: Payload): (r: Option<KeyParam>)
    ensures r.Some? ==> ParamTag(r.value) == t && ParamPayload(r.value) == v
  {
    match (t, v)
    case (OfEnum(e), Num(n)) => MakeEnum(e, n)
    case (OfUint(u), Num(n)) => if 0 <= n < 0x1_0000_0000 then Some(Uint(u, n)) else None
    case (OfUlong(l), Num(n)) => if 0 <= n < 0x1_0000_0000_0000_0000 then Some(Ulong(l, n)) else None
    case (OfDate(d), Num(n)) =>
      if -0x8000_0000_0000_0000 <= n < 0x8000_0000_0000_0000 then Some(Date(d, n)) else None
    case (OfFlag(f), Present) => Some(Flag(f))
    case (OfOctets(o), Data(b)) => Some(Octets(o, b))
    case _ => None
  }

  /** Tag and payload determine the parameter. */
  lemma MakeParamInverse(p: KeyParam)
    ensures MakeParam(ParamTag(p), ParamPayload(p)) == Some(p)
  {
  }

  datatype KeyCharacteristics =
    KeyCharacteristics(securityLevel: SecurityLevel, authorizations: seq<KeyParam>)
}
