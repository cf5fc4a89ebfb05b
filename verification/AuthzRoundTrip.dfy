/** Decoding undoes encoding for authorization lists (ta/src/cert.rs). */
module AuthzRoundTrip {
  import opened Base
  import opened KeyParams
  import opened Der
  import opened AuthzFields
  import opened AuthzDecode
  import opened AuthzList

  // ---- The value of one slot ----

  lemma {:induction false} IntsRoundTrip(vs: seq<int>)
    requires forall i :: 0 <= i < |vs| ==> OneByte(vs[i])
    ensures ReadInts(IntsContent(vs)) == Some(vs)
  {
    if vs != [] {
      IntsRoundTrip(vs[1..]);
      assert OneByte(vs[0]);
      IntRoundTrip(vs[0]);
      TlvRoundTrip(IntTlv(vs[0]), IntsContent(vs[1..]));
      assert [vs[0]] + vs[1..] == vs;
    }
  }

  /** Numbers that came from parameters of a tag make parameters of that tag again. */
  lemma {:induction false} NumbersMakeParams(t: Tag, ps: seq<KeyParam>, vs: seq<int>)
    requires IsSet(t) && forall p :: p in ps ==> ParamTag(p) == t
    requires forall v :: v in vs ==> v in Numbers(ps)
    ensures MakeParams(t, vs).Ok? && |MakeParams(t, vs).value| == |vs|
    decreases |vs|
  {
    if vs != [] {
      assert vs[0] in vs;
      var i :| 0 <= i < |Numbers(ps)| && Numbers(ps)[i] == vs[0];
      SetValuesAreSmall(ps[i]);
      MakeParamInverse(ps[i]);
      NumbersMakeParams(t, ps, vs[1..]);
    }
  }

  lemma {:induction false} NumbersOfParams(t: Tag, ps: seq<KeyParam>)
    requires IsSet(t) && forall p :: p in ps ==> ParamTag(p) == t
    ensures MakeParams(t, Numbers(ps)) == Ok(ps)
  {
    if ps != [] {
      assert ps[0] in ps;
      SetValuesAreSmall(ps[0]);
      MakeParamInverse(ps[0]);
      assert Numbers(ps)[1..] == Numbers(ps[1..]);
      NumbersOfParams(t, ps[1..]);
      assert [ps[0]] + ps[1..] == ps;
    }
  }

  /** What a slot comes back as: a set without its repeats, a root of trust as it was written, and any
      other parameter as it was. */
  function Normal(rot: RotFormat, l: AuthorizationList, s: Slot): seq<KeyParam> {
    var ps := InSlot(l, s);
    if IsSet(s.tag) then
      var vs := SetOf(Numbers(ps));
      var qs := if vs.Ok? then MakeParams(s.tag, vs.value) else Err(Error.Der);
      if qs.Ok? then qs.value else []
    else if |ps| == 1 && s.tag == OfOctets(RootOfTrust) && ps[0].Octets? then
      match rot(ps[0].bytes)
      case Ok(v) => if |v.content| < LENGTH_LIMIT then [Octets(RootOfTrust, TlvBytes(v))] else []
      case Err(_) => []
    else ps
  }

  /** The encoder writes 64-bit numbers as signed, so only the lower half of them can be read back. */
  predicate ReadsBack(ps: seq<KeyParam>) { forall p :: p in ps && p.Ulong? ==> p.u64 < 0x8000_0000_0000_0000 }

  /** Exactly the lower half. */
  lemma ExponentReadsBackExactly(t: UlongTag, n: U64)
    ensures |ValueOf(Ulong(t, n)).content| <= 9
    ensures DecodeInner(OfUlong(t), ValueOf(Ulong(t, n))).Ok? <==> n < 0x8000_0000_0000_0000
    ensures n < 0x8000_0000_0000_0000 ==> DecodeInner(OfUlong(t), ValueOf(Ulong(t, n))) == Ok([Ulong(t, n)])
  {
    SmallInt(AsI64(n));
  }

  lemma SetSlotRoundTrip(l: AuthorizationList, s: Slot, v: Tlv)
    requires IsSet(s.tag) && EncodeSet(InSlot(l, s)) == Ok(Some(v)) && |v.content| < LENGTH_LIMIT
    ensures DecodeInner(s.tag, v).Ok?
    ensures DecodeInner(s.tag, v) == MakeParams(s.tag, SetOf(Numbers(InSlot(l, s))).value)
  {
    var ps := InSlot(l, s);
    var vs := SetOf(Numbers(ps)).value;
    SetIsSmall(ps);
    SetOfExact(Numbers(ps));
    IntsRoundTrip(vs);
    NumbersMakeParams(s.tag, ps, vs);
  }

  lemma SingleValueRoundTrip(p: KeyParam)
    requires !IsSet(ParamTag(p)) && ParamTag(p) != OfOctets(RootOfTrust) && ReadsBack([p])
    requires |ValueOf(p).content| < LENGTH_LIMIT
    ensures DecodeInner(ParamTag(p), ValueOf(p)) == Ok([p])
  {
    MakeParamInverse(p);
    match p {
      case Flag(_) =>
      case Octets(_, _) =>
      case Ulong(t, n) => assert p in [p]; ExponentReadsBackExactly(t, n);
      case _ => SmallInt(Number(p));
    }
  }

  lemma SlotRoundTrip(rot: RotFormat, l: AuthorizationList, s: Slot, v: Tlv)
    requires SlotValue(rot, l, s) == Ok(Some(v)) && |v.content| < LENGTH_LIMIT && ReadsBack(InSlot(l, s))
    ensures DecodeInner(s.tag, v) == Ok(Normal(rot, l, s))
  {
    if IsSet(s.tag) {
      SetSlotRoundTrip(l, s, v);
    } else {
      var ps := InSlot(l, s);
      assert ps == [ps[0]] && ps[0] in ps;
      if s.tag != OfOctets(RootOfTrust) {
        SingleValueRoundTrip(ps[0]);
      }
    }
  }

  lemma EmptySlot(rot: RotFormat, l: AuthorizationList, s: Slot)
    requires SlotValue(rot, l, s) == Ok(None)
    ensures Normal(rot, l, s) == []
  {
    assert InSlot(l, s) == [];
    assert Numbers([]) == [];
  }

  // ---- All slots ----

  function Written(value: Slot -> Result<Option<Tlv>>, normal: Slot -> seq<KeyParam>, order: seq<Slot>): seq<Field> {
    if order == [] then []
    else
      var rest := Written(value, normal, order[1..]);
      match value(order[0])
      case Ok(Some(v)) => [Field(order[0].raw, v, normal(order[0]))] + rest
      case _ => rest
  }

  function Gathered(normal: Slot -> seq<KeyParam>, order: seq<Slot>): seq<KeyParam> {
    if order == [] then [] else normal(order[0]) + Gathered(normal, order[1..])
  }

  /** What is written for a slot comes back as `normal` says. */
  ghost predicate Honest(s: Slot, value: Result<Option<Tlv>>, normal: seq<KeyParam>) {
    match value
    case Ok(Some(v)) => |v.content| < LENGTH_LIMIT ==> DecodeInner(s.tag, v) == Ok(normal)
    case Ok(None) => normal == []
    case Err(_) => true
  }

  /** A slot with a known number, and no other slot in `all` has it. */
  ghost predicate Unmistakable(all: seq<Slot>, s: Slot) { KnownRaw(s.raw) && forall u :: u in all && u.raw == s.raw ==> u == s }

  ghost predicate Faithful(value: Slot -> Result<Option<Tlv>>, normal: Slot -> seq<KeyParam>, all: seq<Slot>, order: seq<Slot>) {
    forall s :: s in order ==> Unmistakable(all, s) && Honest(s, value(s), normal(s))
  }

  lemma {:induction false} WrittenIsEncoded(value: Slot -> Result<Option<Tlv>>, normal: Slot -> seq<KeyParam>, order: seq<Slot>)
    requires EncodeSlots(value, order).Ok?
    ensures var fs := Written(value, normal, order);
            && (forall i :: 0 <= i < |fs| ==> Sized(fs[i].raw, fs[i].inner))
            && ListBytes(fs) == EncodeSlots(value, order).value
  {
    if order != [] {
      WrittenIsEncoded(value, normal, order[1..]);
      var rest, fs := Written(value, normal, order[1..]), Written(value, normal, order);
      if value(order[0]).value.Some? {
        assert fs[1..] == rest;
        assert ListBytes(fs) == FieldBytes(fs[0]) + ListBytes(rest);
      } else {
        assert [] + ListBytes(rest) == ListBytes(rest);
      }
    }
  }

  lemma {:induction false} WrittenIsOrdered(value: Slot -> Result<Option<Tlv>>, normal: Slot -> seq<KeyParam>, order: seq<Slot>)
    ensures Subsequence(FieldRaws(Written(value, normal, order)), Raws(order))
  {
    if order != [] {
      WrittenIsOrdered(value, normal, order[1..]);
      var rest, fs := Written(value, normal, order[1..]), Written(value, normal, order);
      assert Raws(order)[1..] == Raws(order[1..]);
      if fs != rest {
        assert FieldRaws(fs)[1..] == FieldRaws(rest);
      } else {
        SubsequenceLater(FieldRaws(fs), Raws(order));
      }
    }
  }

  lemma {:induction false} WrittenIsGathered(value: Slot -> Result<Option<Tlv>>, normal: Slot -> seq<KeyParam>, all: seq<Slot>,
                                             order: seq<Slot>)
    requires Faithful(value, normal, all, order) && EncodeSlots(value, order).Ok?
    ensures ListParams(Written(value, normal, order)) == Gathered(normal, order)
  {
    if order != [] {
      assert order[0] in order;
      WrittenIsGathered(value, normal, all, order[1..]);
      var rest, fs := Written(value, normal, order[1..]), Written(value, normal, order);
      if value(order[0]).value.Some? {
        assert fs[1..] == rest;
      } else {
        assert [] + ListParams(rest) == ListParams(rest);
      }
    }
  }

  lemma {:induction false} WrittenIsWellFormed(value: Slot -> Result<Option<Tlv>>, normal: Slot -> seq<KeyParam>, all: seq<Slot>,
                                               order: seq<Slot>)
    requires Faithful(value, normal, all, order) && EncodeSlots(value, order).Ok?
    ensures AllWellFormed(all, Written(value, normal, order))
  {
    if order != [] {
      assert order[0] in order;
      WrittenIsWellFormed(value, normal, all, order[1..]);
      if value(order[0]).value.Some? {
        SlotIsWellFormed(value, normal, all, order, order[0]);
      }
    }
  }

  lemma SlotIsWellFormed(value: Slot -> Result<Option<Tlv>>, normal: Slot -> seq<KeyParam>, all: seq<Slot>, order: seq<Slot>, s: Slot)
    requires Faithful(value, normal, all, order) && s in order
    requires value(s).Ok? && value(s).value.Some? && EncodeSlot(s.raw, value(s)).Ok?
    ensures WellFormed(all, Field(s.raw, value(s).value.value, normal(s)))
  {
  }

  lemma SubsequenceLater(a: seq<nat>, b: seq<nat>)
    requires b != [] && Subsequence(a, b[1..])
    ensures Subsequence(a, b)
  {
    var idx := EmbedsIfSubsequence(a, b[1..]);
    SubsequenceIfEmbeds(a, b, Shift(idx, 1));
  }

  function Composed(i: seq<int>, j: seq<int>): seq<int> {
    seq(|i|, k requires 0 <= k < |i| => if 0 <= i[k] < |j| then j[i[k]] else 0)
  }

  lemma EmbedsTransitive(a: seq<nat>, b: seq<nat>, c: seq<nat>, i: seq<int>, j: seq<int>)
    requires Embeds(a, b, i) && Embeds(b, c, j)
    ensures Embeds(a, c, Composed(i, j))
  {
  }

  lemma SubsequenceTransitive(a: seq<nat>, b: seq<nat>, c: seq<nat>)
    requires Subsequence(a, b) && Subsequence(b, c)
    ensures Subsequence(a, c)
  {
    var i := EmbedsIfSubsequence(a, b);
    var j := EmbedsIfSubsequence(b, c);
    EmbedsTransitive(a, b, c, i, j);
    SubsequenceIfEmbeds(a, c, Composed(i, j));
  }

  lemma {:induction false} SubsequenceSkip(a: seq<nat>, x: seq<nat>, b: seq<nat>)
    requires Subsequence(a, b)
    ensures Subsequence(a, x + b)
    decreases |x|
  {
    if x == [] {
      assert x + b == b;
    } else {
      SubsequenceSkip(a, x[1..], b);
      assert (x + b)[1..] == x[1..] + b;
      SubsequenceLater(a, x + b);
    }
  }

  lemma {:induction false} SubsequenceJoins(a: seq<nat>, b: seq<nat>, a': seq<nat>, b': seq<nat>)
    requires Subsequence(a, b) && Subsequence(a', b')
    ensures Subsequence(a + a', b + b')
    decreases |b|
  {
    if a == [] {
      assert a + a' == a';
      SubsequenceSkip(a', b, b');
    } else {
      var rest := if a[0] == b[0] then a[1..] else a;
      SubsequenceJoins(rest, b[1..], a', b');
      assert (b + b')[1..] == b[1..] + b';
      assert a[0] == b[0] ==> (a + a')[1..] == a[1..] + a';
    }
  }

  lemma SubsequenceSelf(a: seq<nat>)
    ensures Subsequence(a, a)
  {
    SubsequenceIfEmbeds(a, a, seq(|a|, i => i));
  }

  // ---- The two orders ----

  /** What the encoder writes comes in the order in which the decoder looks. */
  lemma EncodeOrderFits()
    ensures Subsequence(Raws(ENCODE_ORDER), Raws(DECODE_ORDER))
  {
    var a, b, c, d := Raws(FIRST_SLOTS), Raws(SECOND_SLOTS), Raws(THIRD_SLOTS), Raws(LAST_SLOTS);
    var x, y, z := [SECURE_ID_SLOT.raw], [CREATION_SLOT.raw], [SERIAL_SLOT.raw, SERIAL_SLOT.raw];
    FourAndThree(a, b, c, d, x, y, z);
    assert Raws(ENCODE_ORDER) == a + b + c + d;
    assert Raws(DECODE_ORDER) == a + x + b + y + c + z + d;
  }

  lemma WithExtra(a: seq<nat>, b: seq<nat>, x: seq<nat>)
    ensures Subsequence(a + b, a + x + b)
  {
    SubsequenceSelf(a);
    SubsequenceSelf(b);
    SubsequenceJoins(a, a, [], x);
    assert a + [] == a;
    SubsequenceJoins(a, a + x, b, b);
  }

  lemma FourAndThree(a: seq<nat>, b: seq<nat>, c: seq<nat>, d: seq<nat>, x: seq<nat>, y: seq<nat>, z: seq<nat>)
    ensures Subsequence(a + b + c + d, a + x + b + y + c + z + d)
  {
    WithExtra(a, b, x);
    SubsequenceSelf(c);
    SubsequenceSelf(d);
    SubsequenceJoins(a + b, a + x + b, [], y);
    assert a + b + [] == a + b;
    SubsequenceJoins(a + b, a + x + b + y, c, c);
    SubsequenceJoins(a + b + c, a + x + b + y + c, [], z);
    assert a + b + c + [] == a + b + c;
    SubsequenceJoins(a + b + c, a + x + b + y + c + z, d, d);
  }

  /** Every slot once, by ascending number. */
  ghost function Listed(): seq<Slot> { FIRST_SLOTS + [SECURE_ID_SLOT] + SECOND_SLOTS + THIRD_SLOTS + LAST_SLOTS }

  lemma AscendingJoins(a: seq<nat>, b: seq<nat>, m: nat)
    requires Ascending(a) && Ascending(b) && (forall v :: v in a ==> v <= m) && (forall v :: v in b ==> m < v)
    ensures Ascending(a + b)
  {
    forall i, j | 0 <= i < j < |a + b|
      ensures (a + b)[i] < (a + b)[j]
    {
      if i < |a| <= j {
        assert a[i] in a && b[j - |a|] in b;
      }
    }
  }

  lemma ListedAscends()
    ensures Ascending(Raws(Listed()))
  {
    var a, b, c, d := Raws(FIRST_SLOTS), Raws(SECOND_SLOTS), Raws(THIRD_SLOTS), Raws(LAST_SLOTS);
    FirstAscending();
    SecondAscending();
    ThirdAscending();
    LastAscending();
    FiveAscend(a, 502, b, c, d);
    assert Raws(Listed()) == a + [502] + b + c + d;
  }

  lemma FiveAscend(a: seq<nat>, x: nat, b: seq<nat>, c: seq<nat>, d: seq<nat>)
    requires Ascending(a) && Ascending(b) && Ascending(c) && Ascending(d) && x == 502
    requires Within(a, 1, 405) && Within(b, 503, 701) && Within(c, 702, 713) && Within(d, 714, 724)
    ensures Ascending(a + [x] + b + c + d)
  {
    AscendingJoins(a, [x], 405);
    AscendingJoins(a + [x], b, 502);
    AscendingJoins(a + [x] + b, c, 701);
    AscendingJoins(a + [x] + b + c, d, 713);
  }

  lemma SlotsAreUnique(order: seq<Slot>, s: Slot, u: Slot)
    requires Ascending(Raws(order)) && s in order && u in order && s.raw == u.raw
    ensures s == u
  {
    var i :| 0 <= i < |order| && order[i] == s;
    var j :| 0 <= j < |order| && order[j] == u;
    assert Raws(order)[i] == Raws(order)[j];
  }

  lemma OrdersAreListed(s: Slot)
    ensures s in ENCODE_ORDER ==> s in DECODE_ORDER
    ensures s in DECODE_ORDER ==> s in Listed()
  {
    assert SECOND_SLOTS[7] == CREATION_SLOT && THIRD_SLOTS[8] == SERIAL_SLOT;
  }

  lemma EncodedSlotsAreKnown(s: Slot)
    requires s in ENCODE_ORDER
    ensures KnownRaw(s.raw)
  {
    FirstAscending();
    SecondAscending();
    ThirdAscending();
    LastAscending();
  }

  // ---- Decoding undoes encoding ----

  function Values(rot: RotFormat, l: AuthorizationList): Slot -> Result<Option<Tlv>> { s => SlotValue(rot, l, s) }

  function Normals(rot: RotFormat, l: AuthorizationList): Slot -> seq<KeyParam> { s => Normal(rot, l, s) }

  lemma SlotReadsBack(l: AuthorizationList, s: Slot)
    requires ReadsBack(l.auths)
    ensures ReadsBack(InSlot(l, s))
  {
    FilterKeeps(Kept(l, HomeOf(s.tag)), p => ParamTag(p) == s.tag);
  }

  lemma SlotIsHonest(rot: RotFormat, l: AuthorizationList, s: Slot)
    requires ReadsBack(l.auths)
    ensures Honest(s, SlotValue(rot, l, s), Normal(rot, l, s))
  {
    match SlotValue(rot, l, s) {
      case Ok(Some(v)) =>
        if |v.content| < LENGTH_LIMIT {
          SlotReadsBack(l, s);
          SlotRoundTrip(rot, l, s, v);
        }
      case Ok(None) => EmptySlot(rot, l, s);
      case Err(_) =>
    }
  }

  lemma SlotIsUnmistakable(s: Slot)
    requires s in ENCODE_ORDER
    ensures Unmistakable(DECODE_ORDER, s)
  {
    ListedAscends();
    EncodedSlotsAreKnown(s);
    OrdersAreListed(s);
    forall u | u in DECODE_ORDER && u.raw == s.raw
      ensures u == s
    {
      OrdersAreListed(u);
      SlotsAreUnique(Listed(), s, u);
    }
  }

  lemma ListIsFaithful(rot: RotFormat, l: AuthorizationList)
    requires ReadsBack(l.auths)
    ensures Faithful(Values(rot, l), Normals(rot, l), DECODE_ORDER, ENCODE_ORDER)
  {
    var value, normal, all, order := Values(rot, l), Normals(rot, l), DECODE_ORDER, ENCODE_ORDER;
    forall s | s in order
      ensures Unmistakable(all, s) && Honest(s, value(s), normal(s))
    {
      SlotIsUnmistakable(s);
      SlotIsHonest(rot, l, s);
    }
  }

  /** Whatever can be encoded, with no 64-bit number in the upper half, decodes to its normal form and
      leaves nothing over. */
  lemma DecodeUndoesEncode(rot: RotFormat, l: AuthorizationList)
    requires EncodeList(rot, l).Ok? && ReadsBack(l.auths)
    ensures DecodeFields(DECODE_ORDER, None, EncodeList(rot, l).value) == Ok((Gathered(Normals(rot, l), ENCODE_ORDER), []))
  {
    var value, normal := Values(rot, l), Normals(rot, l);
    EncodeListIs(rot, l);
    ListIsFaithful(rot, l);
    EncodeOrderFits();
    DecodeUndoesEncodeSlots(value, normal, DECODE_ORDER, ENCODE_ORDER);
  }

  lemma EncodeListIs(rot: RotFormat, l: AuthorizationList)
    ensures EncodeList(rot, l) == EncodeSlots(Values(rot, l), ENCODE_ORDER)
  {
  }

  lemma DecodeUndoesEncodeSlots(value: Slot -> Result<Option<Tlv>>, normal: Slot -> seq<KeyParam>, all: seq<Slot>, order: seq<Slot>)
    requires Faithful(value, normal, all, order) && EncodeSlots(value, order).Ok?
    requires Subsequence(Raws(order), Raws(all))
    ensures DecodeFields(all, None, EncodeSlots(value, order).value) == Ok((Gathered(normal, order), []))
  {
    var fs := Written(value, normal, order);
    WrittenIsEncoded(value, normal, order);
    WrittenIsOrdered(value, normal, order);
    WrittenIsGathered(value, normal, all, order);
    WrittenIsWellFormed(value, normal, all, order);
    SubsequenceTransitive(FieldRaws(fs), Raws(order), Raws(all));
    ConsumesInOrder(all, all, None, EncodeSlots(value, order).value, fs);
  }
}
