/** Canonical authorization lists come back from their encoding unchanged (ta/src/cert.rs). */
module AuthzCanonical {
  import opened Base
  import opened KeyParams
  import opened Der
  import opened AuthzFields
  import opened AuthzDecode
  import opened AuthzList
  import opened AuthzRoundTrip

  /** By ascending tag number; only sets may repeat a tag, with ascending values. */
  predicate Before(num: Tag -> nat, p: KeyParam, q: KeyParam) {
    || num(ParamTag(p)) < num(ParamTag(q))
    || (ParamTag(p) == ParamTag(q) && IsSet(ParamTag(p)) && Number(p) < Number(q))
  }

  predicate Sorted(num: Tag -> nat, ps: seq<KeyParam>) { forall i, j :: 0 <= i < j < |ps| ==> Before(num, ps[i], ps[j]) }

  predicate HasSlot(order: seq<Slot>, t: Tag) { exists s :: s in order && s.tag == t }

  predicate AtHome(order: seq<Slot>, ps: seq<KeyParam>, h: Home) {
    forall p :: p in ps ==> HomeOf(ParamTag(p)) == h && HasSlot(order, ParamTag(p))
  }

  predicate Canonical(rot: RotFormat, l: AuthorizationList) {
    && AtHome(ENCODE_ORDER, l.auths, InAuths) && Sorted(RawOf, l.auths) && ReadsBack(l.auths)
    && AtHome(ENCODE_ORDER, l.keygenParams, InKeygen) && Sorted(RawOf, l.keygenParams)
    && AtHome(ENCODE_ORDER, l.additional, InAdditional) && Sorted(RawOf, l.additional)
    && (l.rotInfo.Some? ==> RotIsCanonical(rot, l.rotInfo.value))
  }

  predicate RotIsCanonical(rot: RotFormat, b: Bytes) {
    rot(b).Ok? && |rot(b).value.content| < LENGTH_LIMIT && TlvBytes(rot(b).value) == b
  }

  function RawOf(t: Tag): nat { t.Raw() }

  // ---- Sorted parameters, gathered slot by slot ----

  function ByTag(ps: seq<KeyParam>, order: seq<Slot>): seq<KeyParam> {
    if order == [] then [] else OfTag(ps, order[0].tag) + ByTag(ps, order[1..])
  }

  lemma {:induction false} FilterNone(ps: seq<KeyParam>, keep: KeyParam -> bool)
    requires forall p :: p in ps ==> !keep(p)
    ensures Filter(ps, keep) == []
  {
    if ps != [] {
      FilterNone(ps[1..], keep);
    }
  }

  lemma {:induction false} FilterAll(ps: seq<KeyParam>, keep: KeyParam -> bool)
    requires forall p :: p in ps ==> keep(p)
    ensures Filter(ps, keep) == ps
  {
    if ps != [] {
      FilterAll(ps[1..], keep);
      assert [ps[0]] + ps[1..] == ps;
    }
  }

  lemma {:induction false} FilterSorted(num: Tag -> nat, ps: seq<KeyParam>, keep: KeyParam -> bool)
    requires Sorted(num, ps)
    ensures Sorted(num, Filter(ps, keep))
  {
    if ps != [] {
      FilterSorted(num, ps[1..], keep);
      FilterKeeps(ps[1..], keep);
      var rest, all := Filter(ps[1..], keep), Filter(ps, keep);
      if keep(ps[0]) {
        assert all == [ps[0]] + rest;
        forall j | 0 <= j < |rest|
          ensures Before(num, ps[0], rest[j])
        {
          assert rest[j] in ps[1..];
          var k :| 0 <= k < |ps[1..]| && ps[1..][k] == rest[j];
          assert ps[k + 1] == rest[j];
        }
      } else {
        assert all == rest;
      }
    }
  }

  lemma {:induction false} ByTagDrop(ps: seq<KeyParam>, order: seq<Slot>)
    requires ps != [] && !HasSlot(order, ParamTag(ps[0]))
    ensures ByTag(ps, order) == ByTag(ps[1..], order)
  {
    if order != [] {
      assert order[0] in order;
      forall s | s in order[1..] ensures s in order { }
      ByTagDrop(ps, order[1..]);
    }
  }

  /** Slots number their tags, in ascending order. */
  ghost predicate NumbersTags(num: Tag -> nat, order: seq<Slot>) {
    Ascending(Raws(order)) && forall s :: s in order ==> s.raw == num(s.tag)
  }

  lemma NumbersRest(num: Tag -> nat, order: seq<Slot>)
    requires order != [] && NumbersTags(num, order)
    ensures NumbersTags(num, order[1..])
    ensures forall s :: s in order[1..] ==> order[0].raw < s.raw
  {
    assert Raws(order)[1..] == Raws(order[1..]);
    forall s | s in order[1..]
      ensures s in order && order[0].raw < s.raw
    {
      var i :| 0 <= i < |order[1..]| && order[1..][i] == s;
      assert Raws(order)[0] < Raws(order)[i + 1];
    }
  }

  /** Picking the parameters of each slot in turn puts sorted parameters together again. */
  lemma {:induction false} ByTagSorted(num: Tag -> nat, ps: seq<KeyParam>, order: seq<Slot>)
    requires Sorted(num, ps) && NumbersTags(num, order)
    requires forall p :: p in ps ==> HasSlot(order, ParamTag(p))
    ensures ByTag(ps, order) == ps
    decreases |order| + |ps|
  {
    if ps == [] {
      ByTagEmpty(order);
    } else {
      assert ps[0] in ps;
      var s, rest := order[0], order[1..];
      NumbersRest(num, order);
      if ParamTag(ps[0]) == s.tag {
        assert !HasSlot(rest, s.tag);
        ByTagDrop(ps, rest);
        ByTagSorted(num, ps[1..], order);
        FirstOfTag(ps, s.tag, ByTag(ps, rest));
      } else {
        LaterSlots(num, ps, order);
        FilterNone(ps, p => ParamTag(p) == s.tag);
        ByTagSorted(num, ps, rest);
        assert [] + ps == ps;
      }
    }
  }

  lemma {:induction false} ByTagEmpty(order: seq<Slot>)
    ensures ByTag([], order) == []
  {
    if order != [] {
      ByTagEmpty(order[1..]);
    }
  }

  lemma FirstOfTag(ps: seq<KeyParam>, t: Tag, more: seq<KeyParam>)
    requires ps != [] && ParamTag(ps[0]) == t && OfTag(ps[1..], t) + more == ps[1..]
    ensures OfTag(ps, t) + more == ps
  {
    assert OfTag(ps, t) == [ps[0]] + OfTag(ps[1..], t);
    assert [ps[0]] + OfTag(ps[1..], t) + more == [ps[0]] + (OfTag(ps[1..], t) + more);
    assert [ps[0]] + ps[1..] == ps;
  }

  /** If the first parameter is not in the first slot, none is. */
  lemma LaterSlots(num: Tag -> nat, ps: seq<KeyParam>, order: seq<Slot>)
    requires order != [] && Sorted(num, ps) && NumbersTags(num, order) && ps != [] && ParamTag(ps[0]) != order[0].tag
    requires forall p :: p in ps ==> HasSlot(order, ParamTag(p))
    ensures forall p :: p in ps ==> ParamTag(p) != order[0].tag && HasSlot(order[1..], ParamTag(p))
  {
    NumbersRest(num, order);
    forall p | p in ps
      ensures ParamTag(p) != order[0].tag && HasSlot(order[1..], ParamTag(p))
    {
      var i :| 0 <= i < |ps| && ps[i] == p;
      assert ps[0] in ps;
      var first: Slot :| first in order && first.tag == ParamTag(ps[0]);
      assert first in order[1..];
      assert i > 0 ==> Before(num, ps[0], ps[i]);
      assert num(order[0].tag) < num(ParamTag(p));
      var s: Slot :| s in order && s.tag == ParamTag(p);
      assert s in order[1..];
    }
  }

  // ---- One home at a time ----

  lemma NumbersAscend(num: Tag -> nat, ps: seq<KeyParam>, t: Tag)
    requires Sorted(num, ps) && forall p :: p in ps ==> ParamTag(p) == t
    ensures Ascending(Numbers(ps))
  {
    forall i, j | 0 <= i < j < |ps|
      ensures Numbers(ps)[i] < Numbers(ps)[j]
    {
      assert Before(num, ps[i], ps[j]);
      assert ps[i] in ps && ps[j] in ps;
    }
  }

  /** In a canonical list every slot comes back as it is. */
  lemma NormalIsSame(rot: RotFormat, l: AuthorizationList, s: Slot)
    requires Sorted(RawOf, Kept(l, HomeOf(s.tag))) && (l.rotInfo.Some? ==> RotIsCanonical(rot, l.rotInfo.value))
    ensures Normal(rot, l, s) == InSlot(l, s)
  {
    var ps := InSlot(l, s);
    if IsSet(s.tag) {
      FilterSorted(RawOf, Kept(l, HomeOf(s.tag)), p => ParamTag(p) == s.tag);
      NumbersAscend(RawOf, ps, s.tag);
      SetOfAscending(Numbers(ps));
      NumbersOfParams(s.tag, ps);
    } else if s.tag == OfOctets(RootOfTrust) && |ps| == 1 {
      assert ps[0] in ps;
      FilterKeeps(Kept(l, RotHome), p => ParamTag(p) == s.tag);
    }
  }

  lemma SlotAtHome(l: AuthorizationList, s: Slot, h: Home)
    requires forall p :: p in Kept(l, h) ==> HomeOf(ParamTag(p)) == h
    ensures OfHome(InSlot(l, s), h) == OfTag(Kept(l, h), s.tag)
  {
    if HomeOf(s.tag) == h {
      FilterAll(InSlot(l, s), p => HomeOf(ParamTag(p)) == h);
    } else {
      FilterNone(InSlot(l, s), p => HomeOf(ParamTag(p)) == h);
      FilterNone(Kept(l, h), p => ParamTag(p) == s.tag);
    }
  }

  lemma {:induction false} GatheredAtHome(l: AuthorizationList, normal: Slot -> seq<KeyParam>, order: seq<Slot>, h: Home)
    requires forall p :: p in Kept(l, h) ==> HomeOf(ParamTag(p)) == h
    requires forall s :: s in order ==> normal(s) == InSlot(l, s)
    ensures OfHome(Gathered(normal, order), h) == ByTag(Kept(l, h), order)
  {
    if order != [] {
      assert order[0] in order;
      GatheredAtHome(l, normal, order[1..], h);
      FilterJoins(normal(order[0]), Gathered(normal, order[1..]), p => HomeOf(ParamTag(p)) == h);
      SlotAtHome(l, order[0], h);
    }
  }

  /** Each home gets back what it held. */
  lemma HomeRoundTrip(rot: RotFormat, l: AuthorizationList, order: seq<Slot>, h: Home)
    requires NumbersTags(RawOf, order) && AtHome(order, Kept(l, h), h) && Sorted(RawOf, Kept(l, h))
    requires forall s :: s in order ==> Normal(rot, l, s) == InSlot(l, s)
    ensures OfHome(Gathered(Normals(rot, l), order), h) == Kept(l, h)
  {
    GatheredAtHome(l, Normals(rot, l), order, h);
    ByTagSorted(RawOf, Kept(l, h), order);
  }

  // ---- The whole list ----

  lemma EncodeOrderAscends()
    ensures Ascending(Raws(ENCODE_ORDER))
  {
    var a, b, c, d := Raws(FIRST_SLOTS), Raws(SECOND_SLOTS), Raws(THIRD_SLOTS), Raws(LAST_SLOTS);
    FirstAscending();
    SecondAscending();
    ThirdAscending();
    LastAscending();
    AscendingJoins(a, b, 405);
    AscendingJoins(a + b, c, 701);
    AscendingJoins(a + b + c, d, 713);
    assert Raws(ENCODE_ORDER) == a + b + c + d;
  }

  lemma NumberedSlot(order: seq<Slot>, s: Slot)
    requires Numbered(order) && s in order
    ensures s.raw == s.tag.Raw()
  {
    var i :| 0 <= i < |order| && order[i] == s;
    assert TagRaws(order)[i] == Raws(order)[i];
  }

  lemma EncodeOrderNumbers(s: Slot)
    requires s in ENCODE_ORDER
    ensures s.raw == s.tag.Raw()
  {
    FirstNumbered();
    SecondNumbered();
    ThirdNumbered();
    LastNumbered();
    if s in FIRST_SLOTS {
      NumberedSlot(FIRST_SLOTS, s);
    } else if s in SECOND_SLOTS {
      NumberedSlot(SECOND_SLOTS, s);
    } else if s in THIRD_SLOTS {
      NumberedSlot(THIRD_SLOTS, s);
    } else {
      NumberedSlot(LAST_SLOTS, s);
    }
  }

  lemma SpecialsAtHome(l: AuthorizationList)
    ensures AtHome(ENCODE_ORDER, Kept(l, RotHome), RotHome) && AtHome(ENCODE_ORDER, Kept(l, AppHome), AppHome)
  {
    assert THIRD_SLOTS[1].tag == OfOctets(RootOfTrust) && THIRD_SLOTS[1] in ENCODE_ORDER;
    assert THIRD_SLOTS[4].tag == OfOctets(AttestationApplicationId) && THIRD_SLOTS[4] in ENCODE_ORDER;
  }

  lemma KeptIsCanonical(rot: RotFormat, l: AuthorizationList, h: Home)
    requires Canonical(rot, l)
    ensures AtHome(ENCODE_ORDER, Kept(l, h), h) && Sorted(RawOf, Kept(l, h))
  {
    SpecialsAtHome(l);
  }

  /** Encoding a canonical list and decoding the result gives the list again, with nothing left over. */
  lemma CanonicalRoundTrip(rot: RotFormat, l: AuthorizationList)
    requires Canonical(rot, l) && EncodeList(rot, l).Ok?
    ensures DecodeFields(DECODE_ORDER, None, EncodeList(rot, l).value).Ok?
    ensures var (ps, rest) := DecodeFields(DECODE_ORDER, None, EncodeList(rot, l).value).value; Divided(ps) == l && rest == []
  {
    DecodeUndoesEncode(rot, l);
    NormalFormIsSame(rot, l);
  }

  lemma NormalFormIsSame(rot: RotFormat, l: AuthorizationList)
    requires Canonical(rot, l)
    ensures Divided(Gathered(Normals(rot, l), ENCODE_ORDER)) == l
  {
    HomeComesBack(rot, l, InAuths);
    HomeComesBack(rot, l, InKeygen);
    HomeComesBack(rot, l, InAdditional);
    HomeComesBack(rot, l, RotHome);
    HomeComesBack(rot, l, AppHome);
    DividedFromHomes(Gathered(Normals(rot, l), ENCODE_ORDER), l);
  }

  lemma DividedFromHomes(ps: seq<KeyParam>, l: AuthorizationList)
    requires OfHome(ps, InAuths) == l.auths && OfHome(ps, InKeygen) == l.keygenParams && OfHome(ps, InAdditional) == l.additional
    requires OfHome(ps, RotHome) == Special(RootOfTrust, l.rotInfo)
    requires OfHome(ps, AppHome) == Special(AttestationApplicationId, l.appId)
    ensures Divided(ps) == l
  {
  }

  lemma HomeComesBack(rot: RotFormat, l: AuthorizationList, h: Home)
    requires Canonical(rot, l)
    ensures OfHome(Gathered(Normals(rot, l), ENCODE_ORDER), h) == Kept(l, h)
  {
    var order := ENCODE_ORDER;
    EncodeOrderAscends();
    forall s | s in order
      ensures s.raw == RawOf(s.tag) && Normal(rot, l, s) == InSlot(l, s)
    {
      EncodeOrderNumbers(s);
      KeptIsCanonical(rot, l, HomeOf(s.tag));
      NormalIsSame(rot, l, s);
    }
    KeptIsCanonical(rot, l, h);
    HomeRoundTrip(rot, l, order, h);
  }

  // ---- Encoding succeeds ----

  /** Far from the length limit of four bytes. */
  predicate Modest(l: AuthorizationList) {
    && |l.auths| < 0x100_0000
    && forall h, p :: p in Kept(l, h) && p.Octets? ==> |p.bytes| < 0x1000_0000
  }

  lemma {:induction false} SlotsEncode(value: Slot -> Result<Option<Tlv>>, order: seq<Slot>)
    requires forall s :: s in order ==> EncodeSlot(s.raw, value(s)).Ok?
    ensures EncodeSlots(value, order).Ok?
  {
    if order != [] {
      assert order[0] in order;
      SlotsEncode(value, order[1..]);
    }
  }

  lemma {:induction false} FilterIsNoLonger(ps: seq<KeyParam>, keep: KeyParam -> bool)
    ensures |Filter(ps, keep)| <= |ps|
  {
    if ps != [] {
      FilterIsNoLonger(ps[1..], keep);
    }
  }

  lemma TlvIsSized(raw: nat, v: Tlv)
    requires raw < TAG_LIMIT && |v.content| < 0x1000_0000
    ensures Sized(raw, v)
  {
  }

  lemma SetSlotEncodes(rot: RotFormat, l: AuthorizationList, s: Slot)
    requires IsSet(s.tag) && Sorted(RawOf, l.auths) && Modest(l) && s.raw < TAG_LIMIT
    ensures EncodeSlot(s.raw, SlotValue(rot, l, s)).Ok?
  {
    var ps := InSlot(l, s);
    FilterSorted(RawOf, l.auths, p => ParamTag(p) == s.tag);
    FilterIsNoLonger(l.auths, p => ParamTag(p) == s.tag);
    NumbersAscend(RawOf, ps, s.tag);
    SetOfAscending(Numbers(ps));
    SetIsSmall(ps);
    if ps != [] {
      TlvIsSized(s.raw, Tlv(SET, IntsContent(Numbers(ps))));
    }
  }

  lemma ValueIsModest(p: KeyParam)
    requires p.Octets? ==> |p.bytes| < 0x1000_0000
    ensures |ValueOf(p).content| < 0x1000_0000
  {
    match p {
      case Flag(_) =>
      case Octets(_, _) =>
      case Ulong(_, n) => SmallInt(AsI64(n));
      case _ => SmallInt(Number(p));
    }
  }

  lemma TwoOfAKindAreUnsorted(num: Tag -> nat, ps: seq<KeyParam>, t: Tag)
    requires |ps| > 1 && !IsSet(t) && forall p :: p in ps ==> ParamTag(p) == t
    ensures !Sorted(num, ps)
  {
    assert ps[0] in ps && ps[1] in ps;
    assert !Before(num, ps[0], ps[1]);
  }

  lemma ParamEncodes(rot: RotFormat, raw: nat, p: KeyParam)
    requires raw < TAG_LIMIT && (p.Octets? ==> |p.bytes| < 0x1000_0000)
    requires p.Octets? && p.octetsTag == RootOfTrust ==> RotIsCanonical(rot, p.bytes)
    ensures EncodeSlot(raw, EncodeSingle(rot, [p])).Ok?
  {
    if p.Octets? && p.octetsTag == RootOfTrust {
      TlvIsSized(raw, rot(p.bytes).value);
    } else {
      ValueIsModest(p);
      TlvIsSized(raw, ValueOf(p));
    }
  }

  predicate ParamIsModest(rot: RotFormat, p: KeyParam) {
    && (p.Octets? ==> |p.bytes| < 0x1000_0000)
    && (p.Octets? && p.octetsTag == RootOfTrust ==> RotIsCanonical(rot, p.bytes))
  }

  lemma AtMostOneEncodes(rot: RotFormat, raw: nat, ps: seq<KeyParam>, t: Tag)
    requires raw < TAG_LIMIT && Sorted(RawOf, ps) && !IsSet(t)
    requires forall p :: p in ps ==> ParamTag(p) == t && ParamIsModest(rot, p)
    ensures EncodeSlot(raw, EncodeSingle(rot, ps)).Ok?
  {
    if |ps| > 1 {
      TwoOfAKindAreUnsorted(RawOf, ps, t);
      assert false;
    } else if |ps| == 1 {
      assert ps[0] in ps;
      assert ps == [ps[0]];
      ParamEncodes(rot, raw, ps[0]);
    }
  }

  lemma KeptIsModest(rot: RotFormat, l: AuthorizationList, h: Home, p: KeyParam)
    requires Modest(l) && (l.rotInfo.Some? ==> RotIsCanonical(rot, l.rotInfo.value))
    requires p in Kept(l, h) && HomeOf(ParamTag(p)) == h
    ensures ParamIsModest(rot, p)
  {
  }

  lemma SingleSlotEncodes(rot: RotFormat, l: AuthorizationList, s: Slot)
    requires !IsSet(s.tag) && Sorted(RawOf, Kept(l, HomeOf(s.tag))) && Modest(l) && s.raw < TAG_LIMIT
    requires l.rotInfo.Some? ==> RotIsCanonical(rot, l.rotInfo.value)
    ensures EncodeSlot(s.raw, EncodeSingle(rot, InSlot(l, s))).Ok?
  {
    var ps, h := InSlot(l, s), HomeOf(s.tag);
    FilterSorted(RawOf, Kept(l, h), p => ParamTag(p) == s.tag);
    FilterKeeps(Kept(l, h), p => ParamTag(p) == s.tag);
    forall p | p in ps
      ensures ParamTag(p) == s.tag && ParamIsModest(rot, p)
    {
      KeptIsModest(rot, l, h, p);
    }
    AtMostOneEncodes(rot, s.raw, ps, s.tag);
  }

  /** A canonical list of sensible size can be encoded. */
  lemma CanonicalEncodes(rot: RotFormat, l: AuthorizationList)
    requires Canonical(rot, l) && Modest(l)
    ensures EncodeList(rot, l).Ok?
  {
    var value, order := Values(rot, l), ENCODE_ORDER;
    forall s | s in order
      ensures EncodeSlot(s.raw, value(s)).Ok?
    {
      EncodedSlotsAreKnown(s);
      KeptIsCanonical(rot, l, HomeOf(s.tag));
      if IsSet(s.tag) {
        SetSlotEncodes(rot, l, s);
      } else {
        SingleSlotEncodes(rot, l, s);
      }
    }
    SlotsEncode(value, order);
    EncodeListIs(rot, l);
  }
}
