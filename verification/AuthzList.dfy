/** Encoding an authorization list and reading it back (ta/src/cert.rs). */
module AuthzList {
  import opened Base
  import opened KeyParams
  import opened Der
  import opened AuthzFields
  import opened AuthzDecode

  datatype AuthorizationList = AuthorizationList(
    auths: seq<KeyParam>, keygenParams: seq<KeyParam>, rotInfo: Option<Bytes>, appId: Option<Bytes>,
    additional: seq<KeyParam>)

  // ---- Where a list keeps its parameters ----

  datatype Home = InAuths | InKeygen | InAdditional | RotHome | AppHome

  function HomeOf(t: Tag): Home {
    match t
    case OfOctets(RootOfTrust) => RotHome
    case OfOctets(AttestationApplicationId) => AppHome
    case OfOctets(ModuleHash) => InAdditional
    case OfOctets(AttestationIdBrand) => InKeygen
    case OfOctets(AttestationIdDevice) => InKeygen
    case OfOctets(AttestationIdProduct) => InKeygen
    case OfOctets(AttestationIdSerial) => InKeygen
    case OfOctets(AttestationIdImei) => InKeygen
    case OfOctets(AttestationIdSecondImei) => InKeygen
    case OfOctets(AttestationIdMeid) => InKeygen
    case OfOctets(AttestationIdManufacturer) => InKeygen
    case OfOctets(AttestationIdModel) => InKeygen
    case _ => InAuths
  }

  /** By tag number: the attestation IDs are key generation parameters, and three more have places of their own. */
  lemma HomesExact(t: Tag)
    ensures HomeOf(t) == InKeygen <==> 710 <= t.Raw() <= 717 || t.Raw() == 723
    ensures HomeOf(t) == InAdditional <==> t.Raw() == 724
    ensures HomeOf(t) == RotHome <==> t.Raw() == 704
    ensures HomeOf(t) == AppHome <==> t.Raw() == 709
  {
  }

  function Special(o: OctetsTag, b: Option<Bytes>): seq<KeyParam> { if b.Some? then [Octets(o, b.value)] else [] }

  function Kept(l: AuthorizationList, h: Home): seq<KeyParam> {
    match h
    case InAuths => l.auths
    case InKeygen => l.keygenParams
    case InAdditional => l.additional
    case RotHome => Special(RootOfTrust, l.rotInfo)
    case AppHome => Special(AttestationApplicationId, l.appId)
  }

  function Filter(ps: seq<KeyParam>, keep: KeyParam -> bool): seq<KeyParam> {
    if ps == [] then [] else (if keep(ps[0]) then [ps[0]] else []) + Filter(ps[1..], keep)
  }

  lemma {:induction false} FilterKeeps(ps: seq<KeyParam>, keep: KeyParam -> bool)
    ensures forall p :: p in Filter(ps, keep) ==> p in ps && keep(p)
  {
    if ps != [] {
      FilterKeeps(ps[1..], keep);
    }
  }

  lemma {:induction false} FilterJoins(ps: seq<KeyParam>, qs: seq<KeyParam>, keep: KeyParam -> bool)
    ensures Filter(ps + qs, keep) == Filter(ps, keep) + Filter(qs, keep)
  {
    if ps == [] {
      assert ps + qs == qs;
    } else {
      FilterJoins(ps[1..], qs, keep);
      assert (ps + qs)[1..] == ps[1..] + qs;
      var first := if keep(ps[0]) then [ps[0]] else [];
      assert Filter(ps + qs, keep) == first + Filter(ps[1..] + qs, keep);
      assert first + (Filter(ps[1..], keep) + Filter(qs, keep)) == first + Filter(ps[1..], keep) + Filter(qs, keep);
    }
  }

  function OfTag(ps: seq<KeyParam>, t: Tag): seq<KeyParam> { Filter(ps, p => ParamTag(p) == t) }

  function OfHome(ps: seq<KeyParam>, h: Home): seq<KeyParam> { Filter(ps, p => HomeOf(ParamTag(p)) == h) }

  function LastBytes(ps: seq<KeyParam>): Option<Bytes> {
    if ps != [] && ps[|ps| - 1].Octets? then Some(ps[|ps| - 1].bytes) else None
  }

  /** A list from what belongs to each home; of several special values the last one counts. */
  function Assembled(at: Home -> seq<KeyParam>): AuthorizationList {
    AuthorizationList(at(InAuths), at(InKeygen), LastBytes(at(RotHome)), LastBytes(at(AppHome)), at(InAdditional))
  }

  function Homes(ps: seq<KeyParam>): Home -> seq<KeyParam> { h => OfHome(ps, h) }

  function Divided(ps: seq<KeyParam>): AuthorizationList { Assembled(Homes(ps)) }

  /** One more parameter goes to its home. */
  function Placed(l: AuthorizationList, p: KeyParam): AuthorizationList {
    OnlySpecialsAreSpecial(p);
    PlacedAt(l, p, HomeOf(ParamTag(p)))
  }

  function PlacedAt(l: AuthorizationList, p: KeyParam, h: Home): AuthorizationList
    requires h.RotHome? || h.AppHome? ==> p.Octets?
  {
    match h
    case RotHome => l.(rotInfo := Some(p.bytes))
    case AppHome => l.(appId := Some(p.bytes))
    case InKeygen => l.(keygenParams := l.keygenParams + [p])
    case InAdditional => l.(additional := l.additional + [p])
    case InAuths => l.(auths := l.auths + [p])
  }

  lemma OnlySpecialsAreSpecial(p: KeyParam)
    ensures HomeOf(ParamTag(p)).RotHome? || HomeOf(ParamTag(p)).AppHome? ==> p.Octets?
  {
  }

  lemma OfHomeSnoc(ps: seq<KeyParam>, p: KeyParam, home: Home, h: Home)
    requires HomeOf(ParamTag(p)) == home
    ensures OfHome(ps + [p], h) == if home == h then OfHome(ps, h) + [p] else OfHome(ps, h)
  {
    FilterJoins(ps, [p], q => HomeOf(ParamTag(q)) == h);
  }

  lemma AssembledSnoc(at: Home -> seq<KeyParam>, at': Home -> seq<KeyParam>, p: KeyParam, home: Home)
    requires home.RotHome? || home.AppHome? ==> p.Octets?
    requires forall h :: at'(h) == if home == h then at(h) + [p] else at(h)
    ensures Assembled(at') == PlacedAt(Assembled(at), p, home)
  {
  }

  lemma DividedSnoc(ps: seq<KeyParam>, p: KeyParam)
    ensures Divided(ps + [p]) == Placed(Divided(ps), p)
  {
    var home := HomeOf(ParamTag(p));
    OnlySpecialsAreSpecial(p);
    forall h
      ensures OfHome(ps + [p], h) == if home == h then OfHome(ps, h) + [p] else OfHome(ps, h)
    {
      OfHomeSnoc(ps, p, home, h);
    }
    AssembledSnoc(Homes(ps), Homes(ps + [p]), p, home);
  }

  /** `new_from_key_params` divides parameters among their homes. */
  method NewFromKeyParams(ps: seq<KeyParam>) returns (l: AuthorizationList)
    ensures l == Divided(ps)
  {
    l := AuthorizationList([], [], None, None, []);
    for i := 0 to |ps|
      invariant l == Divided(ps[..i])
    {
      assert ps[..i + 1] == ps[..i] + [ps[i]];
      DividedSnoc(ps[..i], ps[i]);
      l := Placed(l, ps[i]);
    }
    assert ps[..|ps|] == ps;
  }

  // ---- Sets of integers ----

  predicate NonDecreasing(s: seq<int>) { forall i, j :: 0 <= i < j < |s| ==> s[i] <= s[j] }

  /** The set built from the values of a field: repeats are skipped, a value out of order is refused.
      Numeric order is the order of the encodings (section 11.6 of X.690), as every value takes one byte. */
  function SetOf(values: seq<int>): (r: Result<seq<int>>)
    ensures r.Ok? ==> forall v :: v in r.value ==> v in values
  {
    if values == [] then Ok([])
    else
      var v := values[|values| - 1];
      var s :- SetOf(values[..|values| - 1]);
      if s == [] || s[|s| - 1] < v then Ok(s + [v]) else if s[|s| - 1] == v then Ok(s) else Err(Error.Der)
  }

  method BuildSet(values: seq<int>) returns (r: Result<seq<int>>)
    ensures r == SetOf(values)
  {
    var set_, prev: Option<int> := [], None;
    for i := 0 to |values|
      invariant SetOf(values[..i]) == Ok(set_)
      invariant prev == if set_ == [] then None else Some(set_[|set_| - 1])
    {
      var v := values[i];
      assert values[..i + 1][..i] == values[..i];
      if prev == Some(v) {
        continue;
      }
      if prev.Some? && v < prev.value {
        SetOfFails(values, i + 1);
        return Err(Error.Der);
      }
      set_, prev := set_ + [v], Some(v);
    }
    assert values[..|values|] == values;
    r := Ok(set_);
  }

  lemma {:induction false} SetOfFails(values: seq<int>, i: nat)
    requires i <= |values| && SetOf(values[..i]).Err?
    ensures SetOf(values) == Err(Error.Der)
    decreases |values| - i
  {
    if i < |values| {
      assert values[..i + 1][..i] == values[..i];
      SetOfFails(values, i + 1);
    } else {
      assert values[..i] == values;
      SetOfError(values);
    }
  }

  lemma {:induction false} SetOfError(values: seq<int>)
    ensures SetOf(values).Err? ==> SetOf(values) == Err(Error.Der)
  {
    if values != [] {
      SetOfError(values[..|values| - 1]);
    }
  }

  /** The set is built exactly if the values never decrease, and then it is their set in ascending order. */
  lemma {:induction false} SetOfExact(values: seq<int>)
    ensures SetOf(values).Ok? <==> NonDecreasing(values)
    ensures SetOf(values).Ok? ==>
              var s := SetOf(values).value;
              && Ascending(s) && (forall v :: v in s <==> v in values)
              && (values != [] ==> s != [] && s[|s| - 1] == values[|values| - 1])
  {
    if values != [] {
      var init, v := values[..|values| - 1], values[|values| - 1];
      SetOfExact(init);
      assert values == init + [v];
    }
  }

  lemma {:induction false} SetOfAscending(values: seq<int>)
    requires Ascending(values)
    ensures SetOf(values) == Ok(values)
  {
    if values != [] {
      SetOfAscending(values[..|values| - 1]);
      assert values[..|values| - 1] + [values[|values| - 1]] == values;
    }
  }

  // ---- Encoding ----

  function Number(p: KeyParam): int {
    match ParamPayload(p)
    case Num(n) => n
    case _ => 0
  }

  function Numbers(ps: seq<KeyParam>): seq<int> { seq(|ps|, i requires 0 <= i < |ps| => Number(ps[i])) }

  /** Every value that goes into a set takes one byte. */
  predicate OneByte(v: int) { 0 <= v < 0x80 }

  lemma SetValuesAreSmall(p: KeyParam)
    requires IsSet(ParamTag(p))
    ensures OneByte(Number(p)) && ParamPayload(p) == Num(Number(p))
  {
  }

  function IntsContent(vs: seq<int>): (b: Bytes)
    requires forall i :: 0 <= i < |vs| ==> OneByte(vs[i])
    ensures |b| == 3 * |vs|
  {
    if vs == [] then []
    else
      assert OneByte(vs[0]);
      assert IntContent(vs[0]) == [vs[0]];
      TlvBytes(IntTlv(vs[0])) + IntsContent(vs[1..])
  }

  /** A single parameter; 64-bit numbers are written as if they were signed. */
  function ValueOf(p: KeyParam): Tlv {
    match p
    case Flag(_) => Tlv(NULL, [])
    case Octets(_, b) => Tlv(OCTET_STRING, b)
    case Ulong(_, n) => IntTlv(AsI64(n))
    case _ => IntTlv(Number(p))
  }

  /** The root of trust is parsed and written again. */
  type RotFormat = Bytes -> Result<Tlv>

  function EncodeSet(ps: seq<KeyParam>): Result<Option<Tlv>>
    requires forall p :: p in ps ==> IsSet(ParamTag(p))
  {
    if ps == [] then Ok(None)
    else
      var s :- SetOf(Numbers(ps));
      SetIsSmall(ps);
      Ok(Some(Tlv(SET, IntsContent(s))))
  }

  lemma SetIsSmall(ps: seq<KeyParam>)
    requires forall p :: p in ps ==> IsSet(ParamTag(p))
    ensures SetOf(Numbers(ps)).Ok? ==> forall v :: v in SetOf(Numbers(ps)).value ==> OneByte(v)
  {
    forall i | 0 <= i < |ps|
      ensures OneByte(Numbers(ps)[i])
    {
      SetValuesAreSmall(ps[i]);
    }
  }

  function EncodeSingle(rot: RotFormat, ps: seq<KeyParam>): Result<Option<Tlv>> {
    if ps == [] then Ok(None)
    else if |ps| > 1 then Err(Error.Der)
    else if ps[0].Octets? && ps[0].octetsTag == RootOfTrust then
      var v :- rot(ps[0].bytes);
      Ok(Some(v))
    else Ok(Some(ValueOf(ps[0])))
  }

  /** What a list says for one slot. */
  function InSlot(l: AuthorizationList, s: Slot): (ps: seq<KeyParam>)
    ensures forall p :: p in ps ==> ParamTag(p) == s.tag
  {
    FilterKeeps(Kept(l, HomeOf(s.tag)), p => ParamTag(p) == s.tag);
    OfTag(Kept(l, HomeOf(s.tag)), s.tag)
  }

  function SlotValue(rot: RotFormat, l: AuthorizationList, s: Slot): Result<Option<Tlv>> {
    if IsSet(s.tag) then EncodeSet(InSlot(l, s)) else EncodeSingle(rot, InSlot(l, s))
  }

  /** `asn1_val` for the value of a slot */
  function EncodeSlot(raw: nat, value: Result<Option<Tlv>>): Result<Bytes> {
    var v :- value;
    if v.None? then Ok([]) else if Sized(raw, v.value) then Ok(Explicit(raw, v.value)) else Err(Error.Der)
  }

  /** `encode_value`, slot by slot */
  function EncodeSlots(value: Slot -> Result<Option<Tlv>>, order: seq<Slot>): Result<Bytes> {
    if order == [] then Ok([])
    else
      var first :- EncodeSlot(order[0].raw, value(order[0]));
      var rest :- EncodeSlots(value, order[1..]);
      Ok(first + rest)
  }

  function EncodeList(rot: RotFormat, l: AuthorizationList): Result<Bytes> {
    EncodeSlots(s => SlotValue(rot, l, s), ENCODE_ORDER)
  }

  /** `value_len`, from lengths alone */
  function ValueLen(value: Slot -> Result<Option<Tlv>>, order: seq<Slot>): Result<nat> {
    if order == [] then Ok(0)
    else
      var v :- value(order[0]);
      var rest :- ValueLen(value, order[1..]);
      Ok((if v.None? then 0 else ExplicitLen(order[0].raw, |v.value.content|)) + rest)
  }

  /** `value_len` announces exactly the bytes that `encode_value` writes. */
  lemma {:induction false} ValueLenExact(value: Slot -> Result<Option<Tlv>>, order: seq<Slot>)
    requires EncodeSlots(value, order).Ok?
    ensures ValueLen(value, order) == Ok(|EncodeSlots(value, order).value|)
  {
    if order != [] {
      ValueLenExact(value, order[1..]);
      if value(order[0]).value.Some? {
        ExplicitLenExact(order[0].raw, value(order[0]).value.value);
      }
    }
  }

  function ListLen(rot: RotFormat, l: AuthorizationList): Result<nat> {
    ValueLen(s => SlotValue(rot, l, s), LENGTH_ORDER)
  }

  /** The two hand-written field lists agree on what a list takes. */
  lemma ListLenExact(rot: RotFormat, l: AuthorizationList)
    requires EncodeList(rot, l).Ok?
    ensures ListLen(rot, l) == Ok(|EncodeList(rot, l).value|)
  {
    LengthOrderAgrees();
    LenOverSameOrder(s => SlotValue(rot, l, s), LENGTH_ORDER, ENCODE_ORDER);
  }

  lemma LenOverSameOrder(value: Slot -> Result<Option<Tlv>>, a: seq<Slot>, b: seq<Slot>)
    requires a == b && EncodeSlots(value, b).Ok?
    ensures ValueLen(value, a) == Ok(|EncodeSlots(value, b).value|)
  {
    ValueLenExact(value, b);
  }
}
