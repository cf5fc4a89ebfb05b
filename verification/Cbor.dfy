/** The part of CBOR (RFC 8949) that keyblob derivation and operation requests use: integers,
    byte strings, arrays and booleans, in the shortest form that the encoder emits. */
module Cbor {
  import opened Base

  datatype Value =
    | Integer(i: int)
    | ByteString(b: Bytes)
    | Array(a: seq<Value>)
    | Bool(v: bool)

  const UINT_LIMIT := 0x1_0000_0000_0000_0000

  /** Numbers and lengths fit the 64-bit argument of a head. */
  predicate Encodable(v: Value)
    decreases v, 1
  {
    match v
    case Integer(i) => -UINT_LIMIT <= i < UINT_LIMIT
    case ByteString(b) => |b| < UINT_LIMIT
    case Array(a) => |a| < UINT_LIMIT && AllEncodable(a)
    case Bool(_) => true
  }

  predicate AllEncodable(vs: seq<Value>)
    decreases vs, 0
  {
    vs == [] || (Encodable(vs[0]) && AllEncodable(vs[1..]))
  }

  lemma {:induction false} AllEncodableIf(vs: seq<Value>)
    requires forall k :: 0 <= k < |vs| ==> Encodable(vs[k])
    ensures AllEncodable(vs)
  {
    if vs != [] {
      AllEncodableIf(vs[1..]);
    }
  }

  /** Initial byte and argument (section 3 of RFC 8949), shortest form. */
  function Head(major: nat, n: nat): (h: Bytes)
    requires major < 8
    ensures 1 <= |h| <= 9
  {
    if n < 24 then [major * 32 + n]
    else if n < 0x100 then [major * 32 + 24, n]
    else if n < 0x1_0000 then [major * 32 + 25] + BigEndian(n, 2)
    else if n < 0x1_0000_0000 then [major * 32 + 26] + BigEndian(n, 4)
    else [major * 32 + 27] + BigEndian(n, 8)
  }

  /** The shortest form: the argument in the initial byte, or in one, two, four or eight bytes after it. */
  lemma HeadIsShortest(major: nat, n: nat)
    requires major < 8 && n < UINT_LIMIT
    ensures Head(major, n)[0] / 32 == major
    ensures |Head(major, n)| == 1 <==> n < 24
    ensures |Head(major, n)| <= 2 <==> n < 0x100
    ensures |Head(major, n)| <= 3 <==> n < 0x1_0000
    ensures |Head(major, n)| <= 5 <==> n < 0x1_0000_0000
  {
  }

  function Encode(v: Value): (e: Bytes)
    ensures |e| >= 1
    decreases v, 1
  {
    match v
    case Integer(i) => if i >= 0 then Head(0, i) else Head(1, -1 - i)
    case ByteString(b) => Head(2, |b|) + b
    case Array(a) => Head(4, |a|) + EncodeAll(a)
    case Bool(v) => [if v then 0xf5 else 0xf4]
  }

  function EncodeAll(vs: seq<Value>): (e: Bytes)
    decreases vs, 0
  {
    if vs == [] then [] else Encode(vs[0]) + EncodeAll(vs[1..])
  }

  datatype HeadRead = HeadRead(major: nat, n: nat, rest: Bytes)

  function ReadArgument(major: nat, len: nat, input: Bytes): Option<HeadRead> {
    if |input| < len then None
    else Some(HeadRead(major, FromBigEndian(input[..len]), input[len..]))
  }

  function ReadHead(input: Bytes): (r: Option<HeadRead>)
    ensures r.Some? ==> |r.value.rest| < |input|
  {
    if input == [] then None
    else
      var major, info, rest := input[0] / 32, input[0] % 32, input[1..];
      if info < 24 then Some(HeadRead(major, info, rest))
      else if info == 24 then ReadArgument(major, 1, rest)
      else if info == 25 then ReadArgument(major, 2, rest)
      else if info == 26 then ReadArgument(major, 4, rest)
      else if info == 27 then ReadArgument(major, 8, rest)
      else None
  }

  /** One value off the front of the input. */
  function Decode(input: Bytes): (r: Option<(Value, Bytes)>)
    ensures r.Some? ==> |r.value.1| < |input|
    decreases |input|, 0
  {
    match ReadHead(input)
    case None => None
    case Some(HeadRead(major, n, rest)) =>
      if major == 0 then Some((Integer(n), rest))
      else if major == 1 then Some((Integer(-1 - n), rest))
      else if major == 2 then
        if |rest| < n then None else Some((ByteString(rest[..n]), rest[n..]))
      else if major == 4 then
        match DecodeMany(rest, n)
        case None => None
        case Some((vs, rest')) => Some((Array(vs), rest'))
      else if major == 7 && n == 20 then Some((Bool(false), rest))
      else if major == 7 && n == 21 then Some((Bool(true), rest))
      else None
  }

  function DecodeMany(input: Bytes, count: nat): (r: Option<(seq<Value>, Bytes)>)
    ensures r.Some? ==> |r.value.1| <= |input|
    decreases |input|, 1
  {
    if count == 0 then Some(([], input))
    else
      match Decode(input)
      case None => None
      case Some((v, rest)) =>
        match DecodeMany(rest, count - 1)
        case None => None
        case Some((vs, rest')) => Some(([v] + vs, rest'))
  }

  lemma HeadRoundTrip(major: nat, n: nat, rest: Bytes)
    requires major < 8 && n < UINT_LIMIT
    ensures ReadHead(Head(major, n) + rest) == Some(HeadRead(major, n, rest))
  {
    Pow256Values();
    var h := Head(major, n);
    var input := h + rest;
    assert input[0] == h[0];
    assert input[1..] == h[1..] + rest;
    if 24 <= n < 0x100 {
      assert FromBigEndian([n]) == FromBigEndian([]) * 256 + n by { assert [n][..0] == []; }
      assert input[1..][..1] == [n];
      assert input[1..][1..] == rest;
    } else if n >= 0x100 {
      var len := if n < 0x1_0000 then 2 else if n < 0x1_0000_0000 then 4 else 8;
      BigEndianRoundTrip(n, len);
      assert h[1..] == BigEndian(n, len);
      assert input[1..][..len] == BigEndian(n, len);
      assert input[1..][len..] == rest;
    }
  }

  /** Decoding undoes encoding whatever follows: the encoding is injective and prefix-free. */
  lemma {:induction false} EncodeRoundTrip(v: Value, rest: Bytes)
    requires Encodable(v)
    ensures Decode(Encode(v) + rest) == Some((v, rest))
    decreases v, 1
  {
    match v
    case Integer(i) => HeadRoundTrip(if i >= 0 then 0 else 1, if i >= 0 then i else -1 - i, rest);
    case ByteString(b) =>
      HeadRoundTrip(2, |b|, b + rest);
      assert Head(2, |b|) + b + rest == Head(2, |b|) + (b + rest);
      assert (b + rest)[..|b|] == b && (b + rest)[|b|..] == rest;
    case Array(a) =>
      HeadRoundTrip(4, |a|, EncodeAll(a) + rest);
      assert Head(4, |a|) + EncodeAll(a) + rest == Head(4, |a|) + (EncodeAll(a) + rest);
      EncodeAllRoundTrip(a, rest);
    case Bool(x) =>
      assert (Encode(v) + rest)[1..] == rest;
  }

  lemma DecodeManyCons(first: Bytes, tail: Bytes, v: Value, vs: seq<Value>, rest: Bytes)
    requires Decode(first + tail) == Some((v, tail))
    requires DecodeMany(tail, |vs|) == Some((vs, rest))
    ensures DecodeMany(first + tail, |vs| + 1) == Some(([v] + vs, rest))
  {
  }

  /** The first encoding of a sequence, seen only through what decoding makes of it. */
  lemma {:induction false} EncodeAllFront(vs: seq<Value>, rest: Bytes) returns (first: Bytes, tail: Bytes)
    requires vs != [] && Encodable(vs[0])
    ensures EncodeAll(vs) + rest == first + tail && tail == EncodeAll(vs[1..]) + rest
    ensures Decode(first + tail) == Some((vs[0], tail))
    decreases vs, 0
  {
    first, tail := Encode(vs[0]), EncodeAll(vs[1..]) + rest;
    EncodeRoundTrip(vs[0], tail);
  }

  lemma {:induction false} EncodeAllRoundTrip(vs: seq<Value>, rest: Bytes)
    requires AllEncodable(vs)
    ensures DecodeMany(EncodeAll(vs) + rest, |vs|) == Some((vs, rest))
    decreases vs, 1
  {
    if vs == [] {
      assert EncodeAll(vs) + rest == rest;
    } else {
      var first, tail := EncodeAllFront(vs, rest);
      EncodeAllRoundTrip(vs[1..], rest);
      DecodeManyCons(first, tail, vs[0], vs[1..], rest);
      assert [vs[0]] + vs[1..] == vs;
    }
  }

  /** Everything that decodes could have been encoded. */
  lemma {:induction false} DecodedIsEncodable(input: Bytes)
    ensures Decode(input).Some? ==> Encodable(Decode(input).value.0)
    decreases |input|, 0
  {
    Pow256Values();
    match ReadHead(input) {
      case None =>
      case Some(HeadRead(major, n, rest)) =>
        if major == 4 {
          DecodedAreEncodable(rest, n);
        }
    }
  }

  lemma {:induction false} DecodedAreEncodable(input: Bytes, count: nat)
    ensures DecodeMany(input, count).Some? ==>
              var vs := DecodeMany(input, count).value.0; |vs| == count && AllEncodable(vs)
    decreases |input|, 1
  {
    if count > 0 {
      DecodedIsEncodable(input);
      match Decode(input) {
        case None =>
        case Some((v, rest)) => DecodedAreEncodable(rest, count - 1);
      }
    }
  }

  /** Two encodings at the front of equal inputs are encodings of equal values. */
  lemma EncodePrefixFree(v: Value, v': Value, rest: Bytes, rest': Bytes)
    requires Encodable(v) && Encodable(v')
    requires Encode(v) + rest == Encode(v') + rest'
    ensures v == v' && rest == rest'
  {
    EncodeRoundTrip(v, rest);
    EncodeRoundTrip(v', rest');
  }
}
