/** What the decoder of authorization lists lets through besides the encoder's own bytes (ta/src/cert.rs): the
    explicit length of a field is not compared with the value inside, and tags have aliases. */
module AuthzExplicit {
  import opened Base
  import opened KeyParams
  import opened Der
  import opened AuthzFields
  import opened AuthzDecode
  import opened AuthzList
  import opened AuthzRoundTrip

  // ---- Explicit lengths ----

  /** Any explicit length up to the input left is accepted, and has no effect: the value inside is decoded by
      its own length and everything after it is left. */
  lemma ExplicitLengthHasNoEffect(s: Slot, n: nat, inner: Tlv, more: Bytes)
    requires n < LENGTH_LIMIT && |inner.content| < LENGTH_LIMIT
    ensures DecodeField(s, LengthBytes(n) + (TlvBytes(inner) + more)) ==
            if n > |TlvBytes(inner) + more| then Err(Error.Der)
            else
              match DecodeInner(s.tag, inner)
              case Err(e) => Err(e)
              case Ok(params) => Ok(OptRead(None, params, more))
  {
    LengthRoundTrip(n, TlvBytes(inner) + more);
    TlvRoundTrip(inner, more);
  }

  const ALGORITHM_SLOT := Slot(OfEnum(AlgorithmTag), 2)

  /** Length zero, and yet the algorithm AES. */
  lemma ZeroLengthIsAccepted()
    ensures DecodeField(ALGORITHM_SLOT, [0x00, 0x02, 0x01, 0x20]) == Ok(OptRead(None, [KeyParam.Algorithm(Aes)], []))
  {
    var inner := Tlv(INTEGER, [0x20]);
    assert IntContent(0x20) == [0x20] && Signed([0x20]) == 0x20;
    assert TlvBytes(inner) + [] == [0x02, 0x01, 0x20];
    assert LengthBytes(0) + (TlvBytes(inner) + []) == [0x00, 0x02, 0x01, 0x20];
    ExplicitLengthHasNoEffect(ALGORITHM_SLOT, 0, inner, []);
  }

  // ---- Reading is injective ----

  lemma LengthReadIs(input: Bytes)
    requires ReadLength(input).Some?
    ensures input == LengthBytes(ReadLength(input).value.n) + ReadLength(input).value.rest
  {
    if input[0] < 0x80 {
      assert input == [input[0]] + input[1..];
    } else {
      var k := input[0] - 0x80;
      assert input == input[..1 + k] + input[1 + k..];
    }
  }

  lemma TlvReadIs(input: Bytes)
    requires ReadTlv(input).Some?
    ensures input == TlvBytes(ReadTlv(input).value.tlv) + ReadTlv(input).value.rest
  {
    LengthReadIs(input[1..]);
    var LengthRead(n, rest) := ReadLength(input[1..]).value;
    assert rest == rest[..n] + rest[n..];
    assert input == [input[0]] + input[1..];
    assert [input[0]] + (LengthBytes(n) + (rest[..n] + rest[n..])) == [input[0]] + LengthBytes(n) + rest[..n] + rest[n..];
  }

  /** An accepted field is a length and a value, with the rest behind it. */
  lemma AcceptedShape(s: Slot, input: Bytes) returns (n: nat, inner: Tlv)
    requires DecodeField(s, input).Ok?
    ensures var r := DecodeField(s, input).value;
            && n < LENGTH_LIMIT && |inner.content| < LENGTH_LIMIT && ReadLength(input).Some? && n == ReadLength(input).value.n
            && input == LengthBytes(n) + (TlvBytes(inner) + r.rest) && DecodeInner(s.tag, inner) == Ok(r.params)
  {
    LengthReadIs(input);
    n := ReadLength(input).value.n;
    TlvReadIs(ReadLength(input).value.rest);
    inner := ReadTlv(ReadLength(input).value.rest).value.tlv;
  }

  // ---- Values ----

  lemma IntReadIs(content: Bytes)
    requires ReadInt(content).Some?
    ensures content == IntContent(ReadInt(content).value)
  {
  }

  lemma {:induction false} IntsReadIs(content: Bytes)
    requires ReadInts(content).Some? && forall i :: 0 <= i < |ReadInts(content).value| ==> OneByte(ReadInts(content).value[i])
    ensures content == IntsContent(ReadInts(content).value)
    decreases |content|
  {
    if content != [] {
      TlvReadIs(content);
      var TlvRead(tlv, rest) := ReadTlv(content).value;
      var vs := ReadInts(content).value;
      assert vs[1..] == ReadInts(rest).value;
      assert OneByte(vs[0]);
      IntsReadIs(rest);
      assert tlv == IntTlv(vs[0]);
    }
  }

  lemma {:induction false} MadeParams(t: Tag, vs: seq<int>)
    requires MakeParams(t, vs).Ok?
    ensures var ps := MakeParams(t, vs).value;
            Numbers(ps) == vs && forall p :: p in ps ==> ParamTag(p) == t
    decreases |vs|
  {
    if vs != [] {
      MadeParams(t, vs[1..]);
      var ps := MakeParams(t, vs).value;
      assert ps == [ps[0]] + ps[1..];
      assert Numbers(ps) == [Number(ps[0])] + Numbers(ps[1..]);
    }
  }

  /** What the encoder writes for the parameters of a tag. */
  function Rewritten(rot: RotFormat, t: Tag, ps: seq<KeyParam>): Option<Tlv> {
    var v := if IsSet(t) && (forall p :: p in ps ==> IsSet(ParamTag(p))) then EncodeSet(ps) else EncodeSingle(rot, ps);
    if v.Ok? then v.value else None
  }

  lemma SetIsRewritten(rot: RotFormat, t: Tag, inner: Tlv)
    requires IsSet(t) && |inner.content| < LENGTH_LIMIT && DecodeInner(t, inner).Ok?
    ensures Rewritten(rot, t, DecodeInner(t, inner).value) == Some(inner) <==> inner.content != []
  {
    var vs := ReadInts(inner.content).value;
    var ps := DecodeInner(t, inner).value;
    MadeParams(t, vs);
    SetOfAscending(vs);
    SetIsSmall(ps);
    IntsReadIs(inner.content);
    assert ps == [] <==> vs == [];
  }

  /** Seven bits fit one byte, and eight more each further one. */
  lemma {:induction false} IntLenExact(v: nat, k: nat)
    ensures IntLen(v) <= k + 1 <==> v < 0x80 * Pow256(k)
    decreases k
  {
    if v >= 0x80 && k > 0 {
      IntLenExact(v / 0x100, k - 1);
    }
  }

  lemma LowerHalf(v: nat)
    ensures |IntContent(v)| <= 8 <==> v < 0x8000_0000_0000_0000
  {
    Pow256Values();
    assert Pow256(8) == 256 * Pow256(7);
    IntLenExact(v, 7);
  }

  lemma NumberIsRewritten(t: UlongTag, inner: Tlv, n: U64)
    requires inner.tag == INTEGER && ReadInt(inner.content) == Some(n)
    ensures ValueOf(Ulong(t, n)) == inner <==> |inner.content| <= 8
  {
    IntReadIs(inner.content);
    LowerHalf(n);
    if ValueOf(Ulong(t, n)) == inner {
      IntRoundTrip(AsI64(n));
      IntRoundTrip(n);
    }
  }

  lemma SingleIsRewritten(t: Tag, inner: Tlv)
    requires !IsSet(t) && t != OfOctets(RootOfTrust) && |inner.content| < LENGTH_LIMIT && DecodeInner(t, inner).Ok?
    ensures var ps := DecodeInner(t, inner).value;
            |ps| == 1 && ParamTag(ps[0]) == t && (ValueOf(ps[0]) == inner <==> (t.OfUlong? ==> |inner.content| <= 8))
  {
    match DecodeInner(t, inner).value[0] {
      case Flag(_) =>
      case Octets(_, _) =>
      case Ulong(l, n) => NumberIsRewritten(l, inner, n);
      case _ => IntReadIs(inner.content);
    }
  }

  /** A non-empty set, a 64-bit number of at most eight bytes, a root of trust in the encoder's form. */
  predicate InOwnForm(rot: RotFormat, t: Tag, inner: Tlv)
    requires |inner.content| < LENGTH_LIMIT
  {
    && (IsSet(t) ==> inner.content != [])
    && (t.OfUlong? ==> |inner.content| <= 8)
    && (t == OfOctets(RootOfTrust) ==> rot(TlvBytes(inner)) == Ok(inner))
  }

  lemma RewrittenExactly(rot: RotFormat, t: Tag, inner: Tlv)
    requires |inner.content| < LENGTH_LIMIT && DecodeInner(t, inner).Ok?
    ensures Rewritten(rot, t, DecodeInner(t, inner).value) == Some(inner) <==> InOwnForm(rot, t, inner)
  {
    if IsSet(t) {
      SetIsRewritten(rot, t, inner);
    } else if t != OfOctets(RootOfTrust) {
      SingleIsRewritten(t, inner);
      var ps := DecodeInner(t, inner).value;
      assert EncodeSingle(rot, ps) == Ok(Some(ValueOf(ps[0])));
    }
  }

  /** The bytes after the tag are those the encoder writes for these parameters. */
  ghost predicate EncodersOwn(rot: RotFormat, t: Tag, ps: seq<KeyParam>, input: Bytes, rest: Bytes) {
    && Rewritten(rot, t, ps).Some?
    && var v := Rewritten(rot, t, ps).value;
    && |v.content| < LENGTH_LIMIT && |TlvBytes(v)| < LENGTH_LIMIT
    && input == LengthBytes(|TlvBytes(v)|) + (TlvBytes(v) + rest)
  }

  /** An accepted field is the encoder's own exactly if its explicit length is that of the value inside, and the value
      is in the encoder's form. */
  lemma AcceptedIsOwnExactly(rot: RotFormat, s: Slot, input: Bytes)
    requires DecodeField(s, input).Ok?
    ensures ReadLength(input).Some? && ReadTlv(ReadLength(input).value.rest).Some?
    ensures var r, len := DecodeField(s, input).value, ReadLength(input).value;
            var inner := ReadTlv(len.rest).value.tlv;
            EncodersOwn(rot, s.tag, r.params, input, r.rest) <==> len.n == |TlvBytes(inner)| && InOwnForm(rot, s.tag, inner)
  {
    var r := DecodeField(s, input).value;
    var n, inner := AcceptedShape(s, input);
    LengthRoundTrip(n, TlvBytes(inner) + r.rest);
    TlvRoundTrip(inner, r.rest);
    RewrittenExactly(rot, s.tag, inner);
    if EncodersOwn(rot, s.tag, r.params, input, r.rest) {
      var v := Rewritten(rot, s.tag, r.params).value;
      LengthRoundTrip(|TlvBytes(v)|, TlvBytes(v) + r.rest);
      TlvRoundTrip(v, r.rest);
    }
  }

  // ---- Tags ----

  /** The first byte has the encoder's class bits, and the shortest form is used, with no top bit in a third byte. */
  predicate OwnTag(input: Bytes)
    requires ReadTag(input).Some?
  {
    if input[0] != 0xbf && input[0] != 0xff then 0xa0 <= input[0] <= 0xbe
    else if input[1] < 0x80 then input[0] == 0xbf && input[1] >= 0x1f
    else input[0] == 0xbf && input[1] > 0x80 && input[2] < 0x80
  }

  /** A tag that is read is the encoder's own exactly under this condition on its bytes. */
  lemma TagIsOwnExactly(input: Bytes)
    requires ReadTag(input).Some?
    ensures var TagRead(raw, rest) := ReadTag(input).value; raw < TAG_LIMIT && (input == ExplicitTag(raw) + rest <==> OwnTag(input))
  {
    var TagRead(raw, rest) := ReadTag(input).value;
    var len := |input| - |rest|;
    assert input == input[..len] + rest;
    if input == ExplicitTag(raw) + rest {
      assert input[..len] == ExplicitTag(raw);
    }
  }

  lemma LongTagIsAccepted(first: Byte, field: Bytes)
    requires first == 0xbf || first == 0xff
    ensures DecodeOptField(None, [first, 0x02] + field, ALGORITHM_SLOT) == DecodeField(ALGORITHM_SLOT, field)
  {
    assert ([first, 0x02] + field)[2..] == field;
  }

  /** The algorithm field, whose tag the encoder writes in one byte, under a long form and under one with other class
      bits. */
  lemma AliasTagsAreAccepted()
    ensures ExplicitTag(ALGORITHM_SLOT.raw) == [0xa2]
    ensures var field, read := [0x03, 0x02, 0x01, 0x20], Ok(OptRead(None, [KeyParam.Algorithm(Aes)], []));
            && DecodeOptField(None, [0xbf, 0x02] + field, ALGORITHM_SLOT) == read
            && DecodeOptField(None, [0xff, 0x02] + field, ALGORITHM_SLOT) == read
  {
    var inner, field := Tlv(INTEGER, [0x20]), [0x03, 0x02, 0x01, 0x20];
    assert IntContent(0x20) == [0x20] && Signed([0x20]) == 0x20;
    assert LengthBytes(3) + (TlvBytes(inner) + []) == field;
    ExplicitLengthHasNoEffect(ALGORITHM_SLOT, 3, inner, []);
    LongTagIsAccepted(0xbf, field);
    LongTagIsAccepted(0xff, field);
  }
}
