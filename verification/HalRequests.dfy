/** Operation requests on the channel to the TA and the size of their CBOR form (wire/src/types.rs,
    hal/src/keymint.rs, hal/src/lib.rs). */
module HalRequests {
  import opened Base
  import opened Auth
  import opened Cbor

  const MAX_CBOR_OVERHEAD := 350

  datatype Request =
    | UpdateAadRequest(handle: I64, input: Bytes, token: Option<HardwareAuthToken>, timestamp: Option<TimeStampToken>)
    | UpdateRequest(handle: I64, input: Bytes, token: Option<HardwareAuthToken>, timestamp: Option<TimeStampToken>)
    | FinishRequest(handle: I64, lastInput: Option<Bytes>, signature: Option<Bytes>, token: Option<HardwareAuthToken>,
                    timestamp: Option<TimeStampToken>, confirmation: Option<Bytes>)
    | AbortRequest(handle: I64)

  function OptionalValue(v: Option<Value>): Value { if v.Some? then Array([v.value]) else Array([]) }

  function OptionalBytes(b: Option<Bytes>): Value { OptionalValue(if b.Some? then Some(ByteString(b.value)) else None) }

  function TokenValue(t: HardwareAuthToken): Value {
    Array([Integer(t.challenge), Integer(t.userId), Integer(t.authenticatorId), Integer(t.authenticatorType.Code()),
           Array([Integer(t.timestamp)]), ByteString(t.mac)])
  }

  function TimeStampValue(t: TimeStampToken): Value {
    Array([Integer(t.challenge), Array([Integer(t.timestamp)]), ByteString(t.mac)])
  }

  function OptionalToken(t: Option<HardwareAuthToken>): Value { OptionalValue(if t.Some? then Some(TokenValue(t.value)) else None) }

  function OptionalTimeStamp(t: Option<TimeStampToken>): Value {
    OptionalValue(if t.Some? then Some(TimeStampValue(t.value)) else None)
  }

  function Fields(r: Request): seq<Value> {
    match r
    case UpdateAadRequest(h, input, token, timestamp) =>
      [Integer(h), ByteString(input), OptionalToken(token), OptionalTimeStamp(timestamp)]
    case UpdateRequest(h, input, token, timestamp) =>
      [Integer(h), ByteString(input), OptionalToken(token), OptionalTimeStamp(timestamp)]
    case FinishRequest(h, input, signature, token, timestamp, confirmation) =>
      [Integer(h), OptionalBytes(input), OptionalBytes(signature), OptionalToken(token), OptionalTimeStamp(timestamp),
       OptionalBytes(confirmation)]
    case AbortRequest(h) => [Integer(h)]
  }

  function Opcode(r: Request): nat {
    match r
    case UpdateAadRequest(_, _, _, _) => 0x31
    case UpdateRequest(_, _, _, _) => 0x32
    case FinishRequest(_, _, _, _, _, _) => 0x33
    case AbortRequest(_) => 0x34
  }

  function Encoded(r: Request): Bytes { Encode(Array([Integer(Opcode(r)), Array(Fields(r))])) }

  // ---- Sizes ----

  function Len(v: Value): nat { |Encode(v)| }

  lemma ArrayLenCons(a: Value, rest: seq<Value>)
    requires |rest| < 23
    ensures Len(Array([a] + rest)) == Len(a) + Len(Array(rest))
  {
    var all := [a] + rest;
    assert all[0] == a && all[1..] == rest;
    assert EncodeAll(all) == Encode(a) + EncodeAll(rest);
    assert Encode(Array(all)) == Head(4, |all|) + EncodeAll(all);
  }

  lemma ArrayLen1(a: Value)
    ensures Len(Array([a])) == 1 + Len(a)
  {
    ArrayLenCons(a, []);
    assert [a] + [] == [a];
  }

  lemma ArrayLen2(a: Value, b: Value)
    ensures Len(Array([a, b])) == 1 + Len(a) + Len(b)
  {
    ArrayLen1(b);
    ArrayLenCons(a, [b]);
    assert [a] + [b] == [a, b];
  }

  lemma ArrayLen3(a: Value, b: Value, c: Value)
    ensures Len(Array([a, b, c])) == 1 + Len(a) + Len(b) + Len(c)
  {
    ArrayLen2(b, c);
    ArrayLenCons(a, [b, c]);
    assert [a] + [b, c] == [a, b, c];
  }

  lemma ArrayLen4(a: Value, b: Value, c: Value, d: Value)
    ensures Len(Array([a, b, c, d])) == 1 + Len(a) + Len(b) + Len(c) + Len(d)
  {
    ArrayLen3(b, c, d);
    ArrayLenCons(a, [b, c, d]);
    assert [a] + [b, c, d] == [a, b, c, d];
  }

  lemma ArrayLen6(a: Value, b: Value, c: Value, d: Value, e: Value, f: Value)
    ensures Len(Array([a, b, c, d, e, f])) == 1 + Len(a) + Len(b) + Len(c) + Len(d) + Len(e) + Len(f)
  {
    ArrayLen4(c, d, e, f);
    ArrayLenCons(b, [c, d, e, f]);
    assert [b] + [c, d, e, f] == [b, c, d, e, f];
    ArrayLenCons(a, [b, c, d, e, f]);
    assert [a] + [b, c, d, e, f] == [a, b, c, d, e, f];
  }

  /** Token and signature sizes as documented for the largest request. */
  predicate DocumentedSizes(token: Option<HardwareAuthToken>, timestamp: Option<TimeStampToken>, signature: Option<Bytes>,
                            confirmation: Option<Bytes>) {
    && (token.Some? ==> |token.value.mac| <= 32)
    && (timestamp.Some? ==> |timestamp.value.mac| <= 32)
    && (signature.Some? ==> |signature.value| <= 132)
    && (confirmation.Some? ==> |confirmation.value| <= 32)
  }

  lemma OptionalBytesLen(b: Option<Bytes>)
    ensures Len(OptionalBytes(b)) <= if b.Some? then 10 + |b.value| else 1
    ensures b.Some? && |b.value| < 0x100 ==> Len(OptionalBytes(b)) <= 3 + |b.value|
  {
    if b.Some? {
      ArrayLen1(ByteString(b.value));
    }
  }

  lemma TokenLen(t: Option<HardwareAuthToken>)
    requires t.Some? ==> |t.value.mac| <= 32
    ensures Len(OptionalToken(t)) <= 82
  {
    if t.Some? {
      ArrayLen1(TokenValue(t.value));
      ArrayLen1(Integer(t.value.timestamp));
      ArrayLen6(Integer(t.value.challenge), Integer(t.value.userId), Integer(t.value.authenticatorId),
                Integer(t.value.authenticatorType.Code()), Array([Integer(t.value.timestamp)]), ByteString(t.value.mac));
    }
  }

  lemma TimeStampLen(t: Option<TimeStampToken>)
    requires t.Some? ==> |t.value.mac| <= 32
    ensures Len(OptionalTimeStamp(t)) <= 55
  {
    if t.Some? {
      ArrayLen1(TimeStampValue(t.value));
      ArrayLen1(Integer(t.value.timestamp));
      ArrayLen3(Integer(t.value.challenge), Array([Integer(t.value.timestamp)]), ByteString(t.value.mac));
    }
  }

  /** An update request is at most the overhead allowance longer than its input. */
  lemma UpdateRequestFits(r: Request)
    requires r.UpdateRequest? || r.UpdateAadRequest?
    requires DocumentedSizes(r.token, r.timestamp, None, None)
    ensures |Encoded(r)| <= |r.input| + MAX_CBOR_OVERHEAD
  {
    TokenLen(r.token);
    TimeStampLen(r.timestamp);
    ArrayLen4(Integer(r.handle), ByteString(r.input), OptionalToken(r.token), OptionalTimeStamp(r.timestamp));
    ArrayLen2(Integer(Opcode(r)), Array(Fields(r)));
  }

  /** So is a finish request, the largest of all. */
  lemma FinishRequestFits(r: Request)
    requires r.FinishRequest? && DocumentedSizes(r.token, r.timestamp, r.signature, r.confirmation)
    ensures |Encoded(r)| <= (if r.lastInput.Some? then |r.lastInput.value| else 0) + MAX_CBOR_OVERHEAD
  {
    TokenLen(r.token);
    TimeStampLen(r.timestamp);
    OptionalBytesLen(r.lastInput);
    OptionalBytesLen(r.signature);
    OptionalBytesLen(r.confirmation);
    ArrayLen6(Integer(r.handle), OptionalBytes(r.lastInput), OptionalBytes(r.signature), OptionalToken(r.token),
              OptionalTimeStamp(r.timestamp), OptionalBytes(r.confirmation));
    ArrayLen2(Integer(Opcode(r)), Array(Fields(r)));
  }

  lemma AbortRequestFits(h: I64)
    ensures |Encoded(AbortRequest(h))| <= MAX_CBOR_OVERHEAD
  {
    ArrayLen1(Integer(h));
    ArrayLen2(Integer(0x34), Array([Integer(h)]));
  }
}
