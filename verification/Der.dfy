/** Distinguished encoding (ITU-T X.690) of the values that an authorization list holds, and the
    context-specific tags around them that ta/src/cert.rs writes and reads by hand. */
module Der {
  import opened Base

  // ---- Lengths (section 10.1) ----

  /** Lengths of up to four bytes. */
  const LENGTH_LIMIT := 0x1_0000_0000

  function LengthBytes(n: nat): (b: Bytes)
    requires n < LENGTH_LIMIT
    ensures 1 <= |b| <= 5
  {
    if n < 0x80 then [n]
    else if n < 0x100 then [0x81, n]
    else if n < 0x1_0000 then [0x82] + BigEndian(n, 2)
    else if n < 0x100_0000 then [0x83] + BigEndian(n, 3)
    else [0x84] + BigEndian(n, 4)
  }

  /** How many bytes the length takes. */
  function LengthLen(n: nat): (l: nat)
    ensures n < LENGTH_LIMIT ==> l == |LengthBytes(n)|
  {
    if n < 0x80 then 1 else if n < 0x100 then 2 else if n < 0x1_0000 then 3 else if n < 0x100_0000 then 4 else 5
  }

  datatype LengthRead = LengthRead(n: nat, rest: Bytes)

  /** Only the shortest form is accepted. */
  function ReadLength(input: Bytes): (r: Option<LengthRead>)
    ensures r.Some? ==> r.value.n < LENGTH_LIMIT && |r.value.rest| < |input|
  {
    if input == [] then None
    else if input[0] < 0x80 then Some(LengthRead(input[0], input[1..]))
    else if !(0x81 <= input[0] <= 0x84) || |input| <= input[0] - 0x80 then None
    else
      var k := input[0] - 0x80;
      var n := FromBigEndian(input[1..1 + k]);
      if n < LENGTH_LIMIT && LengthBytes(n) == input[..1 + k] then Some(LengthRead(n, input[1 + k..])) else None
  }

  lemma LongLength(n: nat)
    requires 0x80 <= n < LENGTH_LIMIT
    ensures var b := LengthBytes(n);
            var k := |b| - 1;
            1 <= k <= 4 && b[0] == 0x80 + k && b[1..] == BigEndian(n, k) && n < Pow256(k)
  {
    Pow256Values();
    assert n < 0x100 ==> BigEndian(n, 1) == [n];
  }

  lemma LengthRoundTrip(n: nat, rest: Bytes)
    requires n < LENGTH_LIMIT
    ensures ReadLength(LengthBytes(n) + rest) == Some(LengthRead(n, rest))
  {
    var b := LengthBytes(n);
    var input := b + rest;
    assert input[..|b|] == b && input[|b|..] == rest;
    if n >= 0x80 {
      LongLength(n);
      BigEndianRoundTrip(n, |b| - 1);
      assert input[1..|b|] == b[1..];
    }
  }

  // ---- Type, length, value ----

  datatype Tlv = Tlv(tag: Byte, content: Bytes)

  const INTEGER: Byte := 0x02
  const OCTET_STRING: Byte := 0x04
  const NULL: Byte := 0x05
  const SET: Byte := 0x31

  function TlvBytes(t: Tlv): (b: Bytes)
    requires |t.content| < LENGTH_LIMIT
  {
    [t.tag] + LengthBytes(|t.content|) + t.content
  }

  datatype TlvRead = TlvRead(tlv: Tlv, rest: Bytes)

  function ReadTlv(input: Bytes): (r: Option<TlvRead>)
    ensures r.Some? ==> |r.value.rest| < |input| && |r.value.tlv.content| < LENGTH_LIMIT
  {
    if input == [] then None
    else
      match ReadLength(input[1..])
      case None => None
      case Some(LengthRead(n, rest)) =>
        if n > |rest| then None else Some(TlvRead(Tlv(input[0], rest[..n]), rest[n..]))
  }

  lemma TlvRoundTrip(t: Tlv, rest: Bytes)
    requires |t.content| < LENGTH_LIMIT
    ensures ReadTlv(TlvBytes(t) + rest) == Some(TlvRead(t, rest))
  {
    var n := |t.content|;
    var input := TlvBytes(t) + rest;
    assert input[1..] == LengthBytes(n) + (t.content + rest);
    LengthRoundTrip(n, t.content + rest);
    assert (t.content + rest)[..n] == t.content && (t.content + rest)[n..] == rest;
  }

  // ---- Integers (section 8.3) ----

  /** How many bytes a two's complement representation needs. */
  function IntLen(v: int): (k: nat)
    ensures k >= 1
    decreases if v >= 0 then v else -1 - v
  {
    if -0x80 <= v < 0x80 then 1 else 1 + IntLen(v / 0x100)
  }

  /** Shortest two's complement form, most significant byte first. */
  function IntContent(v: int): (b: Bytes)
    ensures |b| == IntLen(v)
    decreases if v >= 0 then v else -1 - v
  {
    if -0x80 <= v < 0x80 then [v % 0x100] else IntContent(v / 0x100) + [v % 0x100]
  }

  function Signed(b: Bytes): int
    requires b != []
  {
    if |b| == 1 then (if b[0] < 0x80 then b[0] else b[0] - 0x100)
    else Signed(b[..|b| - 1]) * 0x100 + b[|b| - 1]
  }

  lemma {:induction false} IntRoundTrip(v: int)
    ensures Signed(IntContent(v)) == v
    decreases if v >= 0 then v else -1 - v
  {
    if !(-0x80 <= v < 0x80) {
      IntRoundTrip(v / 0x100);
      var b := IntContent(v);
      assert b[..|b| - 1] == IntContent(v / 0x100);
    }
  }

  function ReadInt(content: Bytes): Option<int> {
    if content != [] && IntContent(Signed(content)) == content then Some(Signed(content)) else None
  }

  lemma {:induction false} IntLenBound(v: int, k: nat)
    requires 0 - Pow256(k) <= v < Pow256(k)
    ensures IntLen(v) <= k + 1
    decreases k
  {
    if !(-0x80 <= v < 0x80) {
      assert k > 0;
      IntLenBound(v / 0x100, k - 1);
    }
  }

  function IntTlv(v: int): Tlv { Tlv(INTEGER, IntContent(v)) }

  /** An integer in 64 bits, signed or unsigned, fits easily. */
  lemma SmallInt(v: int)
    requires -0x8000_0000_0000_0000 <= v < 0x1_0000_0000_0000_0000
    ensures |IntTlv(v).content| <= 9 && ReadInt(IntTlv(v).content) == Some(v)
  {
    Pow256Values();
    IntLenBound(v, 8);
    IntRoundTrip(v);
  }

  // ---- Context-specific constructed tags (section 8.1.2.4) ----

  const TAG_LIMIT := 0x4000

  function ExplicitTag(raw: nat): (b: Bytes)
    requires raw < TAG_LIMIT
    ensures |b| == ExplicitTagLen(raw)
  {
    if raw <= 0x1e then [0xa0 + raw]
    else if raw <= 0x7f then [0xbf, raw]
    else [0xbf, 0x80 + raw / 0x80, raw % 0x80]
  }

  function ExplicitTagLen(raw: nat): nat { if raw <= 0x1e then 1 else if raw <= 0x7f then 2 else 3 }

  datatype TagRead = TagRead(raw: nat, rest: Bytes)

  /** The low form flips the class and constructed bits, whatever they are. */
  function LowTag(b: Byte): nat {
    b + (if b < 0x80 then 0x80 else -0x80) + (if b / 0x20 % 2 == 0 then 0x20 else -0x20)
  }

  /** Seven bits of the second byte above the whole third byte. */
  function HighTag(b2: Byte, b3: Byte): nat
    requires b2 >= 0x80
  {
    var high := (b2 - 0x80) * 0x80;
    if b3 >= 0x80 && b2 % 2 == 1 then high + b3 - 0x80 else high + b3
  }

  function ReadTag(input: Bytes): (r: Option<TagRead>)
    ensures r.Some? ==> |r.value.rest| < |input|
  {
    if input == [] then None
    else if input[0] != 0xbf && input[0] != 0xff then Some(TagRead(LowTag(input[0]), input[1..]))
    else if |input| < 2 then None
    else if input[1] < 0x80 then Some(TagRead(input[1], input[2..]))
    else if |input| < 3 then None
    else Some(TagRead(HighTag(input[1], input[2]), input[3..]))
  }

  lemma TagRoundTrip(raw: nat, rest: Bytes)
    requires raw < TAG_LIMIT
    ensures ReadTag(ExplicitTag(raw) + rest) == Some(TagRead(raw, rest))
  {
    var input := ExplicitTag(raw) + rest;
    assert input[|ExplicitTag(raw)|..] == rest;
  }

  // ---- Explicitly tagged values ----

  function Explicit(raw: nat, inner: Tlv): (b: Bytes)
    requires raw < TAG_LIMIT && |inner.content| < LENGTH_LIMIT && |TlvBytes(inner)| < LENGTH_LIMIT
  {
    ExplicitTag(raw) + LengthBytes(|TlvBytes(inner)|) + TlvBytes(inner)
  }

  /** `encoded_len`, computed from lengths alone. */
  function ExplicitLen(raw: nat, content: nat): nat {
    var inner := 1 + LengthLen(content) + content;
    ExplicitTagLen(raw) + LengthLen(inner) + inner
  }

  lemma ExplicitLenExact(raw: nat, inner: Tlv)
    requires raw < TAG_LIMIT && |inner.content| < LENGTH_LIMIT && |TlvBytes(inner)| < LENGTH_LIMIT
    ensures |Explicit(raw, inner)| == ExplicitLen(raw, |inner.content|)
  {
  }
}
