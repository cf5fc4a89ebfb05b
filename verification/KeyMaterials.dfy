/** Key material and its CBOR form, the plaintext of a keyblob (common/src/crypto.rs). */
module KeyMaterials {
  import opened Base
  import opened KeyParams
  import opened Cbor

  /** Key bytes held in the clear, or an opaque blob only the crypto layer understands. */
  datatype KeyBytes = Explicit(k: Bytes) | Opaque(k: Bytes)

  datatype CurveType = Nist | EdDsa | Xdh {
    function Code(): int {
      match this
      case Nist => 0
      case EdDsa => 1
      case Xdh => 2
    }

    static function FromCode(c: int): Option<CurveType> {
      if c == 0 then Some(Nist) else if c == 1 then Some(EdDsa) else if c == 2 then Some(Xdh) else None
    }
  }

  datatype KeyMaterial =
    | AesKey(key: KeyBytes) | TripleDesKey(key: KeyBytes) | HmacKey(key: KeyBytes) | RsaKey(key: KeyBytes)
    | EcKey(curve: EcCurve, curveType: CurveType, key: KeyBytes)

  predicate AesKeyLen(n: nat) { n == 16 || n == 24 || n == 32 }

  /** An explicit EC key is a NIST key on a NIST curve or a 32-byte Curve25519 key. */
  predicate ValidEcKey(curve: EcCurve, ct: CurveType, k: Bytes) {
    if curve == Curve25519 then ct != Nist && |k| == 32 else ct == Nist
  }

  /** What the key types themselves guarantee: array sizes and matching curve types. */
  predicate WellFormed(m: KeyMaterial) {
    && |m.key.k| < UINT_LIMIT
    && (m.key.Explicit? ==>
          match m
          case AesKey(key) => AesKeyLen(|key.k|)
          case TripleDesKey(key) => |key.k| == 24
          case EcKey(curve, ct, key) => ValidEcKey(curve, ct, key.k)
          case _ => true)
  }

  function KeyAlgorithm(m: KeyMaterial): Algorithm {
    match m
    case AesKey(_) => Aes
    case TripleDesKey(_) => TripleDes
    case HmacKey(_) => Hmac
    case RsaKey(_) => Rsa
    case EcKey(_, _, _) => Ec
  }

  function ToCbor(m: KeyMaterial): Value {
    Array([Integer(KeyAlgorithm(m).Code()), Bool(m.key.Opaque?),
           if m.EcKey? then Array([Integer(m.curve.Code()), Integer(m.curveType.Code()), ByteString(m.key.k)])
           else ByteString(m.key.k)])
  }

  function EcFromCbor(opaqueKey: bool, v: Value): Result<KeyMaterial> {
    if !v.Array? || |v.a| != 3 || !v.a[0].Integer? || !v.a[1].Integer? || !v.a[2].ByteString? then Err(Error.Cbor)
    else
      match (EcCurve.FromCode(v.a[0].i), CurveType.FromCode(v.a[1].i))
      case (Some(curve), Some(ct)) =>
        if opaqueKey then Ok(EcKey(curve, ct, Opaque(v.a[2].b)))
        else if ValidEcKey(curve, ct, v.a[2].b) then Ok(EcKey(curve, ct, Explicit(v.a[2].b)))
        else Err(Error.Cbor)
      case _ => Err(Error.Cbor)
  }

  function SimpleFromCbor(algo: Algorithm, opaqueKey: bool, b: Bytes): Result<KeyMaterial> {
    var key := if opaqueKey then Opaque(b) else Explicit(b);
    match algo
    case Aes => if opaqueKey || AesKeyLen(|b|) then Ok(AesKey(key)) else Err(Error.Cbor)
    case TripleDes => if opaqueKey || |b| == 24 then Ok(TripleDesKey(key)) else Err(Error.Cbor)
    case Hmac => Ok(HmacKey(key))
    case Rsa => Ok(RsaKey(key))
    case Ec => Err(Error.Cbor)
  }

  function FromCbor(v: Value): Result<KeyMaterial> {
    if !v.Array? || |v.a| != 3 || !v.a[1].Bool? || !v.a[0].Integer? then Err(Error.Cbor)
    else
      match Algorithm.FromCode(v.a[0].i)
      case None => Err(Error.Cbor)
      case Some(algo) =>
        if algo == Ec then EcFromCbor(v.a[1].v, v.a[2])
        else if !v.a[2].ByteString? then Err(Error.Cbor)
        else SimpleFromCbor(algo, v.a[1].v, v.a[2].b)
  }

  function IntoVec(m: KeyMaterial): Bytes { Encode(ToCbor(m)) }

  /** `from_slice`: one CBOR value and nothing after it. */
  function FromSlice(data: Bytes): Result<KeyMaterial> {
    match Decode(data)
    case Some((v, rest)) => if rest == [] then FromCbor(v) else Err(Error.Cbor)
    case None => Err(Error.Cbor)
  }

  lemma ToCborEncodable(m: KeyMaterial)
    requires |m.key.k| < UINT_LIMIT
    ensures Encodable(ToCbor(m))
  {
    var v := ToCbor(m);
    if m.EcKey? {
      AllEncodableIf(v.a[2].a);
    }
    AllEncodableIf(v.a);
  }

  lemma FromCborInverse(m: KeyMaterial)
    requires WellFormed(m)
    ensures FromCbor(ToCbor(m)) == Ok(m)
  {
    assert Algorithm.FromCode(KeyAlgorithm(m).Code()) == Some(KeyAlgorithm(m));
    if m.EcKey? {
      assert EcCurve.FromCode(m.curve.Code()) == Some(m.curve);
      assert CurveType.FromCode(m.curveType.Code()) == Some(m.curveType);
    }
  }

  /** Serialized key material reads back as the same key. */
  lemma KeyMaterialRoundTrip(m: KeyMaterial)
    requires WellFormed(m)
    ensures FromSlice(IntoVec(m)) == Ok(m)
  {
    ToCborEncodable(m);
    EncodeRoundTrip(ToCbor(m), []);
    assert IntoVec(m) + [] == IntoVec(m);
    FromCborInverse(m);
  }

  /** Which serialized keys are read at all: opaque ones, AES keys of 128, 192 or 256 bits, triple DES keys of 192 bits,
      HMAC and RSA keys of any length, EC keys on NIST curves as such, and Curve25519 keys of 256 bits with a use. */
  lemma ReadsExactly(m: KeyMaterial)
    requires |m.key.k| < UINT_LIMIT
    ensures FromSlice(IntoVec(m)).Ok? <==>
            || m.key.Opaque?
            || (m.AesKey? && 8 * |m.key.k| in {128, 192, 256})
            || (m.TripleDesKey? && 8 * |m.key.k| == 192)
            || m.HmacKey? || m.RsaKey?
            || (m.EcKey? && m.curve in {P224, P256, P384, P521} && m.curveType == Nist)
            || (m.EcKey? && m.curve == Curve25519 && m.curveType in {EdDsa, Xdh} && 8 * |m.key.k| == 256)
  {
    ToCborEncodable(m);
    EncodeRoundTrip(ToCbor(m), []);
    assert IntoVec(m) + [] == IntoVec(m);
    assert Algorithm.FromCode(KeyAlgorithm(m).Code()) == Some(KeyAlgorithm(m));
    if m.EcKey? {
      assert EcCurve.FromCode(m.curve.Code()) == Some(m.curve);
      assert CurveType.FromCode(m.curveType.Code()) == Some(m.curveType);
    }
  }

  lemma EncodableThird(a: seq<Value>)
    requires |a| == 3 && AllEncodable(a)
    ensures Encodable(a[2])
  {
    assert AllEncodable(a[1..]) && AllEncodable(a[1..][1..]);
    assert a[1..][1..][0] == a[2];
  }

  /** Key material read from bytes satisfies what the key types promise. */
  lemma FromSliceWellFormed(data: Bytes)
    requires FromSlice(data).Ok?
    ensures WellFormed(FromSlice(data).value)
  {
    DecodedIsEncodable(data);
    var v := Decode(data).value.0;
    EncodableThird(v.a);
    if v.a[2].Array? {
      EncodableThird(v.a[2].a);
    }
  }
}
