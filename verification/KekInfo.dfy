/** The context that is bound into a key encryption key: CBOR forms of key parameters and
    deletion secrets (wire/src/keymint.rs, wire/src/lib.rs) and the `info` string that
    `derive_kek` concatenates from them (common/src/keyblob.rs). */
module KekInfo {
  import opened Base
  import opened KeyParams
  import opened Cbor

  /** Secret data mixed into the derivation; the per-key part is all zeroes when unused. */
  datatype SecureDeletionData = SecureDeletionData(factoryResetSecret: Bytes, secureDeletionSecret: Bytes)

  predicate ValidSdd(sdd: SecureDeletionData) {
    |sdd.factoryResetSecret| == 32 && |sdd.secureDeletionSecret| == 16
  }

  // ---- AsCborValue ----

  function PayloadValue(v: Payload): Value {
    match v
    case Num(n) => Integer(n)
    case Data(b) => ByteString(b)
    case Present => Bool(true)
  }

  function ParamToCbor(p: KeyParam): Value {
    Array([Integer(ParamTag(p).Code()), PayloadValue(ParamPayload(p))])
  }

  /** Flags whose value the decoder does not look at. */
  predicate UncheckedFlag(f: FlagTag) {
    f == CallerNonce || f == AllowWhileOnBody || f == StorageKey
  }

  function PayloadFrom(t: Tag, v: Value): Option<Payload> {
    if t.OfFlag? && UncheckedFlag(t.f) then Some(Present)
    else
      match v
      case Integer(i) => Some(Num(i))
      case ByteString(b) => Some(Data(b))
      case Bool(b) => if b then Some(Present) else None
      case Array(_) => None
  }

  function ParamFromCbor(v: Value): Result<KeyParam> {
    if !v.Array? || |v.a| != 2 || !v.a[0].Integer? then Err(Error.Cbor)
    else
      match Tag.FromCode(v.a[0].i)
      case None => Err(Error.Cbor)
      case Some(t) =>
        match PayloadFrom(t, v.a[1])
        case None => Err(Error.Cbor)
        case Some(payload) =>
          match MakeParam(t, payload)
          case Some(p) => Ok(p)
          case None => Err(Error.Cbor)
  }

  /** A flag is read from `true`, and three of them from any value. */
  lemma FlagDecodesExactly(f: FlagTag, v: Value)
    ensures ParamFromCbor(Array([Integer(OfFlag(f).Code()), v])) == Ok(Flag(f)) <==>
            v == Bool(true) || f == CallerNonce || f == AllowWhileOnBody || f == StorageKey
  {
    TagCodeInverse(OfFlag(f));
  }

  function ParamsToCbor(ps: seq<KeyParam>): (vs: seq<Value>)
    ensures |vs| == |ps|
    ensures forall k :: 0 <= k < |ps| ==> vs[k] == ParamToCbor(ps[k])
  {
    if ps == [] then [] else [ParamToCbor(ps[0])] + ParamsToCbor(ps[1..])
  }

  function CharsToCbor(c: KeyCharacteristics): Value {
    Array([Integer(c.securityLevel.Code()), Array(ParamsToCbor(c.authorizations))])
  }

  function AllCharsToCbor(cs: seq<KeyCharacteristics>): (vs: seq<Value>)
    ensures |vs| == |cs|
    ensures forall k :: 0 <= k < |cs| ==> vs[k] == CharsToCbor(cs[k])
  {
    if cs == [] then [] else [CharsToCbor(cs[0])] + AllCharsToCbor(cs[1..])
  }

  function SddToCbor(sdd: SecureDeletionData): Value {
    Array([ByteString(sdd.factoryResetSecret), ByteString(sdd.secureDeletionSecret)])
  }

  /** Every length fits a `usize`. */
  predicate SizedParams(ps: seq<KeyParam>) {
    |ps| < UINT_LIMIT && forall k :: 0 <= k < |ps| ==> ps[k].Octets? ==> |ps[k].bytes| < UINT_LIMIT
  }

  predicate SizedChars(cs: seq<KeyCharacteristics>) {
    |cs| < UINT_LIMIT && forall k :: 0 <= k < |cs| ==> SizedParams(cs[k].authorizations)
  }

  lemma ParamEncodable(p: KeyParam)
    requires p.Octets? ==> |p.bytes| < UINT_LIMIT
    ensures Encodable(ParamToCbor(p))
  {
    AllEncodableIf(ParamToCbor(p).a);
  }

  lemma ParamsEncodable(ps: seq<KeyParam>)
    requires SizedParams(ps)
    ensures Encodable(Array(ParamsToCbor(ps)))
  {
    forall k | 0 <= k < |ps| ensures Encodable(ParamsToCbor(ps)[k]) { ParamEncodable(ps[k]); }
    AllEncodableIf(ParamsToCbor(ps));
  }

  lemma CharsEncodable(cs: seq<KeyCharacteristics>)
    requires SizedChars(cs)
    ensures Encodable(Array(AllCharsToCbor(cs)))
  {
    forall k | 0 <= k < |cs| ensures Encodable(AllCharsToCbor(cs)[k]) {
      ParamsEncodable(cs[k].authorizations);
      AllEncodableIf(CharsToCbor(cs[k]).a);
    }
    AllEncodableIf(AllCharsToCbor(cs));
  }

  /** A parameter survives the trip through CBOR. */
  lemma ParamCborRoundTrip(p: KeyParam)
    ensures ParamFromCbor(ParamToCbor(p)) == Ok(p)
  {
    TagCodeInverse(ParamTag(p));
    MakeParamInverse(p);
  }

  lemma ParamsInjective(ps: seq<KeyParam>, ps': seq<KeyParam>)
    requires ParamsToCbor(ps) == ParamsToCbor(ps')
    ensures ps == ps'
  {
    assert |ps| == |ps'|;
    forall k | 0 <= k < |ps| ensures ps[k] == ps'[k] {
      ParamCborRoundTrip(ps[k]);
      ParamCborRoundTrip(ps'[k]);
      assert ParamsToCbor(ps)[k] == ParamsToCbor(ps')[k];
    }
  }

  lemma LevelCodeInverse(l: SecurityLevel)
    ensures SecurityLevel.FromCode(l.Code()) == Some(l)
  {
  }

  lemma CharsInjective(cs: seq<KeyCharacteristics>, cs': seq<KeyCharacteristics>)
    requires AllCharsToCbor(cs) == AllCharsToCbor(cs')
    ensures cs == cs'
  {
    assert |cs| == |cs'|;
    forall k | 0 <= k < |cs| ensures cs[k] == cs'[k] {
      assert AllCharsToCbor(cs)[k] == AllCharsToCbor(cs')[k];
      var v, v' := CharsToCbor(cs[k]), CharsToCbor(cs'[k]);
      assert v.a[0] == v'.a[0] && v.a[1] == v'.a[1];
      LevelCodeInverse(cs[k].securityLevel);
      LevelCodeInverse(cs'[k].securityLevel);
      ParamsInjective(cs[k].authorizations, cs'[k].authorizations);
    }
  }

  // ---- The derivation context ----

  datatype KekContext = KekContext(
    derivationInput: Bytes, characteristics: seq<KeyCharacteristics>, hidden: seq<KeyParam>,
    sdd: Option<SecureDeletionData>)

  ghost predicate ValidContext(c: KekContext) {
    && |c.derivationInput| == 32
    && SizedChars(c.characteristics) && SizedParams(c.hidden)
    && (c.sdd.Some? ==> ValidSdd(c.sdd.value))
  }

  function InfoTail(sdd: Option<SecureDeletionData>): Bytes {
    if sdd.Some? then Encode(SddToCbor(sdd.value)) else []
  }

  function Info(c: KekContext): Bytes {
    c.derivationInput + Encode(Array(AllCharsToCbor(c.characteristics)))
    + Encode(Array(ParamsToCbor(c.hidden))) + InfoTail(c.sdd)
  }

  /** `derive_kek` builds the context in a buffer that it extends piece by piece. */
  method BuildInfo(c: KekContext) returns (info: Bytes)
    ensures info == Info(c)
  {
    info := c.derivationInput;
    info := info + Encode(Array(AllCharsToCbor(c.characteristics)));
    info := info + Encode(Array(ParamsToCbor(c.hidden)));
    if c.sdd.Some? {
      info := info + Encode(SddToCbor(c.sdd.value));
    }
  }

  lemma InfoTailInjective(s: Option<SecureDeletionData>, s': Option<SecureDeletionData>)
    requires s.Some? ==> ValidSdd(s.value)
    requires s'.Some? ==> ValidSdd(s'.value)
    requires InfoTail(s) == InfoTail(s')
    ensures s == s'
  {
    if s.Some? && s'.Some? {
      var v, v' := SddToCbor(s.value), SddToCbor(s'.value);
      AllEncodableIf(v.a);
      AllEncodableIf(v'.a);
      assert Encode(v) + [] == Encode(v') + [];
      EncodePrefixFree(v, v', [], []);
      assert v.a[0] == v'.a[0] && v.a[1] == v'.a[1];
    }
  }

  lemma InfoSplit(c: KekContext)
    requires |c.derivationInput| == 32
    ensures |Info(c)| >= 32 && Info(c)[..32] == c.derivationInput
    ensures Info(c)[32..] == Encode(Array(AllCharsToCbor(c.characteristics)))
                             + (Encode(Array(ParamsToCbor(c.hidden))) + InfoTail(c.sdd))
  {
    var a, b, t := Encode(Array(AllCharsToCbor(c.characteristics))), Encode(Array(ParamsToCbor(c.hidden))), InfoTail(c.sdd);
    assert Info(c) == c.derivationInput + (a + (b + t));
  }

  /** The context string binds everything it was built from: no two contexts share one, whatever
      the lengths of their parts and whether or not deletion data is present. */
  lemma InfoInjective(c: KekContext, c': KekContext)
    requires ValidContext(c) && ValidContext(c')
    requires Info(c) == Info(c')
    ensures c == c'
  {
    InfoSplit(c);
    InfoSplit(c');
    CharsEncodable(c.characteristics);
    CharsEncodable(c'.characteristics);
    var hid, hid' := Array(ParamsToCbor(c.hidden)), Array(ParamsToCbor(c'.hidden));
    EncodePrefixFree(Array(AllCharsToCbor(c.characteristics)), Array(AllCharsToCbor(c'.characteristics)),
                     Encode(hid) + InfoTail(c.sdd), Encode(hid') + InfoTail(c'.sdd));
    CharsInjective(c.characteristics, c'.characteristics);
    ParamsEncodable(c.hidden);
    ParamsEncodable(c'.hidden);
    EncodePrefixFree(hid, hid', InfoTail(c.sdd), InfoTail(c'.sdd));
    ParamsInjective(c.hidden, c'.hidden);
    InfoTailInjective(c.sdd, c'.sdd);
  }
}
