/** ECDSA signatures as a DER sequence of two integers and as the fixed-width pair that COSE uses
    (common/src/crypto/ec.rs). */
module CoseSignature {
  import opened Base
  import opened KeyParams
  import opened Der

  const SEQUENCE: Byte := 0x30

  /** Coordinate length of a NIST curve. */
  function CoordLen(curve: EcCurve): Option<nat> {
    match curve
    case P224 => Some(28)
    case P256 => Some(32)
    case P384 => Some(48)
    case P521 => Some(66)
    case Curve25519 => None
  }

  /** A coordinate has as many bytes as the field of its curve needs, and Curve25519 is not signed with this way. */
  lemma CoordLenExact(curve: EcCurve, bits: nat)
    requires (curve, bits) in {(P224, 224), (P256, 256), (P384, 384), (P521, 521)}
    ensures CoordLen(curve).Some? && 8 * (CoordLen(curve).value - 1) < bits <= 8 * CoordLen(curve).value
    ensures CoordLen(Curve25519).None?
  {
  }

  // ---- Unsigned integers ----

  /** Big-endian bytes without leading zeros, but never empty. */
  function Strip(b: Bytes): (r: Bytes)
    ensures |r| <= |b| && (b != [] ==> Stripped(r))
  {
    if |b| > 1 && b[0] == 0 then Strip(b[1..]) else b
  }

  predicate Stripped(b: Bytes) { b != [] && (|b| == 1 || b[0] != 0) }

  lemma {:induction false} PadUndoesStrip(b: Bytes)
    ensures Pad(Strip(b), |b|) == b
  {
    if |b| > 1 && b[0] == 0 {
      PadUndoesStrip(b[1..]);
      PadMore(Strip(b[1..]), |b| - 1);
      assert [0] + b[1..] == b;
    } else {
      assert Zeros(0) + b == b;
    }
  }

  lemma PadMore(b: Bytes, len: nat)
    requires |b| <= len
    ensures Pad(b, len + 1) == [0] + Pad(b, len)
  {
    assert Zeros(len + 1 - |b|) == [0] + Zeros(len - |b|);
    assert [0] + Zeros(len - |b|) + b == [0] + (Zeros(len - |b|) + b);
  }

  lemma {:induction false} StripUndoesPad(b: Bytes, len: nat)
    requires Stripped(b) && |b| <= len
    ensures Strip(Pad(b, len)) == b
    decreases len
  {
    if |b| == len {
      assert Zeros(0) + b == b;
    } else {
      PadMore(b, len - 1);
      StripUndoesPad(b, len - 1);
      assert Pad(b, len)[1..] == Pad(b, len - 1);
    }
  }

  /** Content of an INTEGER: a zero byte in front if the top bit is set. */
  function UintContent(b: Bytes): Bytes
    requires b != []
  {
    if b[0] >= 0x80 then [0] + b else b
  }

  /** Refuses negative numbers and superfluous zero bytes. */
  function ReadUint(content: Bytes): (r: Option<Bytes>)
    ensures r.Some? ==> Stripped(r.value) && UintContent(r.value) == content
  {
    if content == [] || content[0] >= 0x80 then None
    else if |content| == 1 || content[0] != 0 then Some(content)
    else if content[1] < 0x80 then None
    else
      assert [0] + content[1..] == content;
      Some(content[1..])
  }

  lemma UintRoundTrip(b: Bytes)
    requires Stripped(b)
    ensures ReadUint(UintContent(b)) == Some(b)
  {
    assert b[0] >= 0x80 ==> ([0] + b)[1..] == b;
  }

  // ---- The DER form ----

  datatype Signature = Signature(r: Bytes, s: Bytes)

  const PART_LIMIT := 0x1000_0000

  predicate WellFormed(sig: Signature) {
    Stripped(sig.r) && Stripped(sig.s) && |sig.r| < PART_LIMIT && |sig.s| < PART_LIMIT
  }

  function UintTlv(b: Bytes): (t: Tlv)
    requires b != [] && |b| < PART_LIMIT
    ensures |t.content| < LENGTH_LIMIT && |TlvBytes(t)| <= |b| + 7
  {
    Tlv(INTEGER, UintContent(b))
  }

  function ToDer(sig: Signature): Bytes
    requires WellFormed(sig)
  {
    TlvBytes(Tlv(SEQUENCE, TlvBytes(UintTlv(sig.r)) + TlvBytes(UintTlv(sig.s))))
  }

  function ReadUintTlv(input: Bytes): Option<(Bytes, Bytes)> {
    match ReadTlv(input)
    case None => None
    case Some(TlvRead(t, rest)) =>
      if t.tag != INTEGER || ReadUint(t.content).None? then None else Some((ReadUint(t.content).value, rest))
  }

  function ReadPair(input: Bytes): Option<Signature> {
    match ReadUintTlv(input)
    case None => None
    case Some((r, rest)) =>
      match ReadUintTlv(rest)
      case None => None
      case Some((s, rest')) => if rest' == [] then Some(Signature(r, s)) else None
  }

  function FromDer(der: Bytes): Option<Signature> {
    match ReadTlv(der)
    case None => None
    case Some(TlvRead(t, rest)) => if t.tag != SEQUENCE || rest != [] then None else ReadPair(t.content)
  }

  lemma UintTlvRoundTrip(b: Bytes, rest: Bytes)
    requires Stripped(b) && |b| < PART_LIMIT
    ensures ReadUintTlv(TlvBytes(UintTlv(b)) + rest) == Some((b, rest))
  {
    TlvRoundTrip(UintTlv(b), rest);
    UintRoundTrip(b);
  }

  lemma DerRoundTrip(sig: Signature)
    requires WellFormed(sig)
    ensures FromDer(ToDer(sig)) == Some(sig)
  {
    var first, second := TlvBytes(UintTlv(sig.r)), TlvBytes(UintTlv(sig.s));
    TlvRoundTrip(Tlv(SEQUENCE, first + second), []);
    assert ToDer(sig) + [] == ToDer(sig);
    UintTlvRoundTrip(sig.r, second);
    UintTlvRoundTrip(sig.s, []);
    assert second + [] == second;
  }

  // ---- Conversions ----

  /** Both values right-aligned in their halves; a second value longer than its half runs over into the
      first, and a longer one yet, or a first value that is too long, does not fit at all. */
  function Laid(l: nat, sig: Signature): Result<Bytes> {
    if |sig.r| > l || |sig.s| > l + l then Err(Panic)
    else if |sig.s| <= l then Ok(Pad(sig.r, l) + Pad(sig.s, l))
    else Ok(Pad(sig.r, l)[..l + l - |sig.s|] + sig.s)
  }

  /** `to_cose_signature` */
  function ToCose(curve: EcCurve, sig: Bytes): Result<Bytes> {
    match CoordLen(curve)
    case None => Ok(sig)
    case Some(l) => if FromDer(sig).None? then Err(EncodingError) else Laid(l, FromDer(sig).value)
  }

  /** `from_cose_signature` */
  function FromCose(curve: EcCurve, sig: Bytes): Result<Bytes> {
    match CoordLen(curve)
    case None => Ok(sig)
    case Some(l) =>
      if |sig| != 2 * l then Err(EncodingError) else Ok(ToDer(Signature(Strip(sig[..l]), Strip(sig[l..]))))
  }

  lemma FirstCopy(l: nat, r: Bytes)
    requires |r| <= l
    ensures Overwrite(Zeros(2 * l), l - |r|, r) == Pad(r, l) + Zeros(l)
  {
    assert Zeros(2 * l)[..l - |r|] == Zeros(l - |r|) && Zeros(2 * l)[l..] == Zeros(l);
  }

  lemma SecondCopy(l: nat, first: Bytes, s: Bytes)
    requires |s| <= 2 * l && |first| == l
    ensures Overwrite(first + Zeros(l), 2 * l - |s|, s) == if |s| <= l then first + Pad(s, l) else first[..2 * l - |s|] + s
  {
    var at := 2 * l - |s|;
    assert (first + Zeros(l))[2 * l..] == [];
    if |s| <= l {
      assert (first + Zeros(l))[..at] == first + Zeros(l - |s|);
      assert first + Zeros(l - |s|) + s + [] == first + (Zeros(l - |s|) + s);
    } else {
      assert (first + Zeros(l))[..at] == first[..at];
    }
  }

  /** The zeroed buffer and the two copies into it. */
  method LayOut(l: nat, sig: Signature) returns (out: Result<Bytes>)
    ensures out == Laid(l, sig)
  {
    var buf := new Byte[2 * l](_ => 0);
    if |sig.r| > l || |sig.s| > l + l {
      return Err(Panic);
    }
    assert buf[..] == Zeros(2 * l);
    CopyInto(buf, l - |sig.r|, sig.r);
    FirstCopy(l, sig.r);
    CopyInto(buf, l + l - |sig.s|, sig.s);
    SecondCopy(l, Pad(sig.r, l), sig.s);
    out := Ok(buf[..]);
  }

  lemma LaidAgain(l: nat, sig: Bytes)
    requires |sig| == 2 * l
    ensures Laid(l, Signature(Strip(sig[..l]), Strip(sig[l..]))) == Ok(sig)
  {
    PadUndoesStrip(sig[..l]);
    PadUndoesStrip(sig[l..]);
    assert sig[..l] + sig[l..] == sig;
  }

  /** COSE to DER to COSE changes nothing. */
  lemma CoseRoundTrip(curve: EcCurve, sig: Bytes)
    requires FromCose(curve, sig).Ok?
    ensures ToCose(curve, FromCose(curve, sig).value) == Ok(sig)
  {
    var l := CoordLen(curve);
    if l.Some? {
      DerRoundTrip(Signature(Strip(sig[..l.value]), Strip(sig[l.value..])));
      LaidAgain(l.value, sig);
    }
  }

  /** DER to COSE to DER gives a canonical signature back exactly if both values fit their halves. */
  lemma DerSurvivesExactly(curve: EcCurve, l: nat, sig: Signature)
    requires WellFormed(sig) && CoordLen(curve) == Some(l)
    ensures var cose := ToCose(curve, ToDer(sig));
            cose.Ok? && FromCose(curve, cose.value) == Ok(ToDer(sig)) <==> |sig.r| <= l && |sig.s| <= l
  {
    DerRoundTrip(sig);
    var cose := Laid(l, sig);
    if |sig.r| <= l && |sig.s| <= l {
      assert cose.value[..l] == Pad(sig.r, l) && cose.value[l..] == Pad(sig.s, l);
      StripUndoesPad(sig.r, l);
      StripUndoesPad(sig.s, l);
    } else if cose.Ok? {
      assert |cose.value| == 2 * l;
      var back := Signature(Strip(cose.value[..l]), Strip(cose.value[l..]));
      DerRoundTrip(back);
      assert |back.s| <= l < |sig.s|;
    }
  }
}
