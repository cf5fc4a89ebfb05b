/** How the TA reads the operation requests of the HAL (wire/src/types.rs, wire/src/lib.rs): the inverse of their encoding. */
module RequestParsing {
  import opened Base
  import opened Auth
  import opened Cbor
  import opened HalRequests

  // ---- Values ----

  function ReadI64(v: Value): Option<I64> {
    if v.Integer? && -0x8000_0000_0000_0000 <= v.i < 0x8000_0000_0000_0000 then Some(v.i) else None
  }

  function ReadBytes(v: Value): Option<Bytes> { if v.ByteString? then Some(v.b) else None }

  /** A structure of one field, as timestamps are. */
  function ReadTime(v: Value): Option<I64> { if v.Array? && |v.a| == 1 then ReadI64(v.a[0]) else None }

  function ReadAuthenticator(v: Value): Option<AuthenticatorType> {
    if v == Integer(0) then Some(NoAuthenticator)
    else if v == Integer(1) then Some(Password)
    else if v == Integer(2) then Some(Fingerprint)
    else if v == Integer(-1) then Some(AnyAuthenticator)
    else None
  }

  /** Challenge, user, authenticator, its type, time and MAC, in this order. */
  function ReadToken(v: Value): Option<HardwareAuthToken> {
    if !v.Array? || |v.a| != 6 then None
    else
      match (ReadI64(v.a[0]), ReadI64(v.a[1]), ReadI64(v.a[2]), ReadAuthenticator(v.a[3]), ReadTime(v.a[4]), ReadBytes(v.a[5]))
      case (Some(challenge), Some(user), Some(authenticator), Some(kind), Some(time), Some(mac)) =>
        Some(HardwareAuthToken(challenge, user, authenticator, kind, time, mac))
      case _ => None
  }

  function ReadTimeStamp(v: Value): Option<TimeStampToken> {
    if !v.Array? || |v.a| != 3 then None
    else
      match (ReadI64(v.a[0]), ReadTime(v.a[1]), ReadBytes(v.a[2]))
      case (Some(challenge), Some(time), Some(mac)) => Some(TimeStampToken(challenge, time, mac))
      case _ => None
  }

  /** An array with the value, or an empty one. */
  function ReadOptional<T>(v: Value, read: Value -> Option<T>): Option<Option<T>> {
    if !v.Array? then None
    else if v.a == [] then Some(None)
    else if |v.a| == 1 && read(v.a[0]).Some? then Some(read(v.a[0]))
    else None
  }

  // ---- Requests ----

  /** The arguments of the update requests, which are alike. */
  datatype UpdateFields = UpdateFields(handle: I64, input: Bytes, token: Option<HardwareAuthToken>, timestamp: Option<TimeStampToken>)

  function ReadUpdate(fs: seq<Value>): Option<UpdateFields> {
    if |fs| != 4 then None
    else
      match (ReadI64(fs[0]), ReadBytes(fs[1]), ReadOptional(fs[2], ReadToken), ReadOptional(fs[3], ReadTimeStamp))
      case (Some(h), Some(input), Some(token), Some(timestamp)) => Some(UpdateFields(h, input, token, timestamp))
      case _ => None
  }

  function ReadFinish(fs: seq<Value>): Option<Request> {
    if |fs| != 6 then None
    else
      match (ReadI64(fs[0]), ReadOptional(fs[1], ReadBytes), ReadOptional(fs[2], ReadBytes), ReadOptional(fs[3], ReadToken),
             ReadOptional(fs[4], ReadTimeStamp), ReadOptional(fs[5], ReadBytes))
      case (Some(h), Some(input), Some(signature), Some(token), Some(timestamp), Some(confirmation)) =>
        Some(FinishRequest(h, input, signature, token, timestamp, confirmation))
      case _ => None
  }

  /** By the operation's code. */
  function ReadFields(code: int, fs: seq<Value>): Option<Request> {
    if code == 0x31 || code == 0x32 then
      match ReadUpdate(fs)
      case None => None
      case Some(u) =>
        Some(if code == 0x31 then UpdateAadRequest(u.handle, u.input, u.token, u.timestamp)
             else UpdateRequest(u.handle, u.input, u.token, u.timestamp))
    else if code == 0x33 then ReadFinish(fs)
    else if code == 0x34 && |fs| == 1 && ReadI64(fs[0]).Some? then Some(AbortRequest(ReadI64(fs[0]).value))
    else None
  }

  /** Nothing may follow the request. */
  function ReadRequest(input: Bytes): Option<Request> {
    match Decode(input)
    case Some((Array(top), rest)) =>
      if rest == [] && |top| == 2 && top[0].Integer? && top[1].Array? then ReadFields(top[0].i, top[1].a) else None
    case _ => None
  }

  // ---- Reading undoes encoding ----

  lemma TokenReads(t: Option<HardwareAuthToken>)
    ensures ReadOptional(OptionalToken(t), ReadToken) == Some(t)
  {
  }

  lemma TimeStampReads(t: Option<TimeStampToken>)
    ensures ReadOptional(OptionalTimeStamp(t), ReadTimeStamp) == Some(t)
  {
  }

  lemma BytesRead(b: Option<Bytes>)
    ensures ReadOptional(OptionalBytes(b), ReadBytes) == Some(b)
  {
  }

  lemma FieldsRead(r: Request)
    ensures ReadFields(Opcode(r), Fields(r)) == Some(r)
  {
    match r {
      case AbortRequest(_) =>
      case FinishRequest(_, input, signature, token, timestamp, confirmation) =>
        BytesRead(input);
        BytesRead(signature);
        TokenReads(token);
        TimeStampReads(timestamp);
        BytesRead(confirmation);
      case _ =>
        TokenReads(r.token);
        TimeStampReads(r.timestamp);
    }
  }

  // ---- Sizes ----

  predicate SizedBytes(b: Option<Bytes>) { b.Some? ==> |b.value| < UINT_LIMIT }

  /** No byte string has 2^64 bytes or more. */
  predicate Sized(r: Request) {
    match r
    case AbortRequest(_) => true
    case FinishRequest(_, input, signature, token, timestamp, confirmation) =>
      && SizedBytes(input) && SizedBytes(signature) && SizedBytes(confirmation)
      && (token.Some? ==> |token.value.mac| < UINT_LIMIT) && (timestamp.Some? ==> |timestamp.value.mac| < UINT_LIMIT)
    case _ =>
      && |r.input| < UINT_LIMIT
      && (r.token.Some? ==> |r.token.value.mac| < UINT_LIMIT) && (r.timestamp.Some? ==> |r.timestamp.value.mac| < UINT_LIMIT)
  }

  lemma ArrayEncodable(vs: seq<Value>)
    requires |vs| < UINT_LIMIT && forall k :: 0 <= k < |vs| ==> Encodable(vs[k])
    ensures Encodable(Array(vs))
  {
    AllEncodableIf(vs);
  }

  lemma TokenEncodable(t: Option<HardwareAuthToken>)
    requires t.Some? ==> |t.value.mac| < UINT_LIMIT
    ensures Encodable(OptionalToken(t))
  {
    if t.Some? {
      ArrayEncodable([Integer(t.value.timestamp)]);
      ArrayEncodable(TokenValue(t.value).a);
      ArrayEncodable([TokenValue(t.value)]);
    }
  }

  lemma TimeStampEncodable(t: Option<TimeStampToken>)
    requires t.Some? ==> |t.value.mac| < UINT_LIMIT
    ensures Encodable(OptionalTimeStamp(t))
  {
    if t.Some? {
      ArrayEncodable([Integer(t.value.timestamp)]);
      ArrayEncodable(TimeStampValue(t.value).a);
      ArrayEncodable([TimeStampValue(t.value)]);
    }
  }

  lemma BytesEncodable(b: Option<Bytes>)
    requires SizedBytes(b)
    ensures Encodable(OptionalBytes(b))
  {
    if b.Some? {
      ArrayEncodable([ByteString(b.value)]);
    }
  }

  lemma RequestEncodable(r: Request)
    requires Sized(r)
    ensures Encodable(Array([Integer(Opcode(r)), Array(Fields(r))]))
  {
    match r {
      case AbortRequest(_) =>
      case FinishRequest(_, input, signature, token, timestamp, confirmation) =>
        BytesEncodable(input);
        BytesEncodable(signature);
        TokenEncodable(token);
        TimeStampEncodable(timestamp);
        BytesEncodable(confirmation);
      case _ =>
        TokenEncodable(r.token);
        TimeStampEncodable(r.timestamp);
    }
    ArrayEncodable(Fields(r));
    ArrayEncodable([Integer(Opcode(r)), Array(Fields(r))]);
  }

  /** The TA reads every request as it was sent, and refuses it with anything after it. */
  lemma RequestRoundTrip(r: Request, more: Bytes)
    requires Sized(r)
    ensures ReadRequest(Encoded(r) + more) == if more == [] then Some(r) else None
  {
    RequestEncodable(r);
    FieldsRead(r);
    EncodeRoundTrip(Array([Integer(Opcode(r)), Array(Fields(r))]), more);
  }
}
