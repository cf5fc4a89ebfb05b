/** The fields of an authorization list and their order (ta/src/cert.rs). */
module AuthzFields {
  import opened Base
  import opened KeyParams

  /** A place for a field in the list: which parameters it holds, and its number in the encoding. */
  datatype Slot = Slot(tag: Tag, raw: nat)

  const FIRST_SLOTS: seq<Slot> := [
    Slot(OfEnum(PurposeTag), 1), Slot(OfEnum(AlgorithmTag), 2), Slot(OfUint(KeySize), 3),
    Slot(OfEnum(BlockModeTag), 4), Slot(OfEnum(DigestTag), 5), Slot(OfEnum(PaddingTag), 6),
    Slot(OfFlag(CallerNonce), 7), Slot(OfUint(MinMacLength), 8), Slot(OfEnum(EcCurveTag), 10),
    Slot(OfUlong(RsaPublicExponent), 200), Slot(OfEnum(RsaOaepMgfDigestTag), 203),
    Slot(OfFlag(RollbackResistance), 303), Slot(OfFlag(EarlyBootOnly), 305), Slot(OfDate(ActiveDatetime), 400),
    Slot(OfDate(OriginationExpireDatetime), 401), Slot(OfDate(UsageExpireDatetime), 402),
    Slot(OfUint(UsageCountLimit), 405)]

  const SECOND_SLOTS: seq<Slot> := [
    Slot(OfFlag(NoAuthRequired), 503), Slot(OfUint(UserAuthType), 504), Slot(OfUint(AuthTimeout), 505),
    Slot(OfFlag(AllowWhileOnBody), 506), Slot(OfFlag(TrustedUserPresenceRequired), 507),
    Slot(OfFlag(TrustedConfirmationRequired), 508), Slot(OfFlag(UnlockedDeviceRequired), 509),
    Slot(OfDate(CreationDatetime), 701)]

  const THIRD_SLOTS: seq<Slot> := [
    Slot(OfEnum(OriginTag), 702), Slot(OfOctets(RootOfTrust), 704), Slot(OfUint(OsVersion), 705),
    Slot(OfUint(OsPatchlevel), 706), Slot(OfOctets(AttestationApplicationId), 709),
    Slot(OfOctets(AttestationIdBrand), 710), Slot(OfOctets(AttestationIdDevice), 711),
    Slot(OfOctets(AttestationIdProduct), 712), Slot(OfOctets(AttestationIdSerial), 713)]

  const LAST_SLOTS: seq<Slot> := [
    Slot(OfOctets(AttestationIdImei), 714), Slot(OfOctets(AttestationIdMeid), 715),
    Slot(OfOctets(AttestationIdManufacturer), 716), Slot(OfOctets(AttestationIdModel), 717),
    Slot(OfUint(VendorPatchlevel), 718), Slot(OfUint(BootPatchlevel), 719),
    Slot(OfFlag(DeviceUniqueAttestation), 720), Slot(OfOctets(AttestationIdSecondImei), 723),
    Slot(OfOctets(ModuleHash), 724)]

  const SECURE_ID_SLOT := Slot(OfUlong(UserSecureId), 502)
  const CREATION_SLOT := Slot(OfDate(CreationDatetime), 701)
  const SERIAL_SLOT := Slot(OfOctets(AttestationIdSerial), 713)

  /** The order in which the encoder writes fields. */
  const ENCODE_ORDER: seq<Slot> := FIRST_SLOTS + SECOND_SLOTS + THIRD_SLOTS + LAST_SLOTS

  /** The fields whose lengths `value_len` adds up, in its own order and grouping. */
  const LENGTH_START: seq<Slot> := [
    Slot(OfEnum(PurposeTag), 1), Slot(OfEnum(AlgorithmTag), 2), Slot(OfUint(KeySize), 3),
    Slot(OfEnum(BlockModeTag), 4), Slot(OfEnum(DigestTag), 5), Slot(OfEnum(PaddingTag), 6),
    Slot(OfFlag(CallerNonce), 7), Slot(OfUint(MinMacLength), 8), Slot(OfEnum(EcCurveTag), 10),
    Slot(OfUlong(RsaPublicExponent), 200), Slot(OfEnum(RsaOaepMgfDigestTag), 203),
    Slot(OfFlag(RollbackResistance), 303), Slot(OfFlag(EarlyBootOnly), 305), Slot(OfDate(ActiveDatetime), 400),
    Slot(OfDate(OriginationExpireDatetime), 401), Slot(OfDate(UsageExpireDatetime), 402),
    Slot(OfUint(UsageCountLimit), 405), Slot(OfFlag(NoAuthRequired), 503), Slot(OfUint(UserAuthType), 504),
    Slot(OfUint(AuthTimeout), 505), Slot(OfFlag(AllowWhileOnBody), 506),
    Slot(OfFlag(TrustedUserPresenceRequired), 507), Slot(OfFlag(TrustedConfirmationRequired), 508),
    Slot(OfFlag(UnlockedDeviceRequired), 509), Slot(OfDate(CreationDatetime), 701), Slot(OfEnum(OriginTag), 702)]

  const LENGTH_OS: seq<Slot> := [
    Slot(OfUint(OsVersion), 705), Slot(OfUint(OsPatchlevel), 706)]

  const LENGTH_END: seq<Slot> := [
    Slot(OfOctets(AttestationIdBrand), 710), Slot(OfOctets(AttestationIdDevice), 711),
    Slot(OfOctets(AttestationIdProduct), 712), Slot(OfOctets(AttestationIdSerial), 713),
    Slot(OfOctets(AttestationIdImei), 714), Slot(OfOctets(AttestationIdMeid), 715),
    Slot(OfOctets(AttestationIdManufacturer), 716), Slot(OfOctets(AttestationIdModel), 717),
    Slot(OfUint(VendorPatchlevel), 718), Slot(OfUint(BootPatchlevel), 719),
    Slot(OfFlag(DeviceUniqueAttestation), 720), Slot(OfOctets(AttestationIdSecondImei), 723),
    Slot(OfOctets(ModuleHash), 724)]

  const LENGTH_ORDER: seq<Slot> :=
    LENGTH_START + [Slot(OfOctets(RootOfTrust), 704)] + LENGTH_OS + [Slot(OfOctets(AttestationApplicationId), 709)] + LENGTH_END

  /** The order in which the decoder looks for them: the secure user ID has a place here, and two fields
      are listed more than once. */
  const DECODE_ORDER: seq<Slot> :=
    FIRST_SLOTS + [SECURE_ID_SLOT] + SECOND_SLOTS + [CREATION_SLOT] + THIRD_SLOTS + [SERIAL_SLOT, SERIAL_SLOT] + LAST_SLOTS

  /** Numbers of the tags that exist, including those that no parameter carries. */
  predicate KnownRaw(raw: nat) {
    || 1 <= raw <= 8 || raw == 10 || raw == 200 || 202 <= raw <= 203 || 302 <= raw <= 305 || 400 <= raw <= 405
    || 501 <= raw <= 509 || raw == 601 || 700 <= raw <= 702 || 704 <= raw <= 724 || 1000 <= raw <= 1001
    || 1003 <= raw <= 1010
  }

  /** Slots carry the numbers of their tags. */
  predicate Numbered(order: seq<Slot>) { TagRaws(order) == Raws(order) }

  function TagRaws(order: seq<Slot>): seq<nat> { seq(|order|, i requires 0 <= i < |order| => order[i].tag.Raw()) }

  lemma FirstNumbered()
    ensures Numbered(FIRST_SLOTS)
  {
  }

  lemma SecondNumbered()
    ensures Numbered(SECOND_SLOTS)
  {
  }

  lemma ThirdNumbered()
    ensures Numbered(THIRD_SLOTS)
  {
  }

  lemma LastNumbered()
    ensures Numbered(LAST_SLOTS)
  {
  }

  function Raws(order: seq<Slot>): seq<nat> { seq(|order|, i requires 0 <= i < |order| => order[i].raw) }

  predicate Ascending(s: seq<int>) { forall i, j :: 0 <= i < j < |s| ==> s[i] < s[j] }

  predicate Within(s: seq<int>, low: int, high: int) { forall v :: v in s ==> low <= v <= high }

  predicate AllKnown(order: seq<Slot>) { forall i :: 0 <= i < |order| ==> KnownRaw(order[i].raw) }

  lemma FirstAscending()
    ensures Ascending(Raws(FIRST_SLOTS)) && AllKnown(FIRST_SLOTS) && Within(Raws(FIRST_SLOTS), 1, 405)
  {
  }

  lemma SecondAscending()
    ensures Ascending(Raws(SECOND_SLOTS)) && AllKnown(SECOND_SLOTS) && Within(Raws(SECOND_SLOTS), 503, 701)
  {
  }

  lemma ThirdAscending()
    ensures Ascending(Raws(THIRD_SLOTS)) && AllKnown(THIRD_SLOTS) && Within(Raws(THIRD_SLOTS), 702, 713)
  {
  }

  lemma LastAscending()
    ensures Ascending(Raws(LAST_SLOTS)) && AllKnown(LAST_SLOTS) && Within(Raws(LAST_SLOTS), 714, 724)
  {
  }

  lemma StartAgrees()
    ensures LENGTH_START == FIRST_SLOTS + SECOND_SLOTS + THIRD_SLOTS[..1]
  {
  }

  lemma EndAgrees()
    ensures LENGTH_END == THIRD_SLOTS[5..] + LAST_SLOTS
  {
  }

  lemma MiddleAgrees()
    ensures [Slot(OfOctets(RootOfTrust), 704)] + LENGTH_OS + [Slot(OfOctets(AttestationApplicationId), 709)] == THIRD_SLOTS[1..5]
  {
  }

  /** `value_len` and `encode_value` go over the same fields in the same order. */
  lemma LengthOrderAgrees()
    ensures LENGTH_ORDER == ENCODE_ORDER
  {
    StartAgrees();
    MiddleAgrees();
    EndAgrees();
    ThreeParts(FIRST_SLOTS + SECOND_SLOTS, THIRD_SLOTS, LAST_SLOTS, LENGTH_START, [Slot(OfOctets(RootOfTrust), 704)], LENGTH_OS,
               [Slot(OfOctets(AttestationApplicationId), 709)], LENGTH_END);
  }

  lemma ThreeParts(a: seq<Slot>, b: seq<Slot>, c: seq<Slot>, start: seq<Slot>, rot: seq<Slot>, os: seq<Slot>, app: seq<Slot>,
                   end: seq<Slot>)
    requires |b| >= 5 && start == a + b[..1] && rot + os + app == b[1..5] && end == b[5..] + c
    ensures start + rot + os + app + end == a + b + c
  {
    assert start + rot + os + app == start + (rot + os + app);
    assert b[..1] + b[1..5] + b[5..] == b;
    assert a + b[..1] + b[1..5] + (b[5..] + c) == a + (b[..1] + b[1..5] + b[5..]) + c;
  }
}
