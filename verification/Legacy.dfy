/** Legacy messages (wire/src/legacy.rs, derive/src/lib.rs): structures serialized field by field, and
    the envelope with command code and response flags. */
module Legacy {
  import opened Base

  datatype LegacyError = DataTruncated | ExcessData(n: nat) | UnexpectedResponse | UnknownCommand(cmd: nat) | InvalidEnumValue(v: nat)

  datatype Outcome<+T> = Done(value: T) | Failed(error: LegacyError)

  /** Types of fields; an enumeration is given by its values. */
  datatype FieldType = U64Field | U32Field | U8Field | BoolField | BytesField | EnumField(values: set<I32>)

  datatype Field = NumberOf(n: nat) | TruthOf(b: bool) | BytesOf(bytes: Bytes) | EnumOf(v: I32)

  predicate HasType(f: Field, t: FieldType) {
    match t
    case U64Field => f.NumberOf? && f.n < 0x1_0000_0000_0000_0000
    case U32Field => f.NumberOf? && f.n < 0x1_0000_0000
    case U8Field => f.NumberOf? && f.n < 0x100
    case BoolField => f.TruthOf?
    case BytesField => f.BytesOf? && |f.bytes| < 0x1_0000_0000
    case EnumField(values) => f.EnumOf? && f.v in values
  }

  predicate Typed(fs: seq<Field>, ts: seq<FieldType>) { |fs| == |ts| && forall i :: 0 <= i < |fs| ==> HasType(fs[i], ts[i]) }

  // ---- Fields ----

  const U32_SIZE: nat := 4

  function U32Bytes(n: nat): (b: Bytes)
    ensures |b| == 4
  {
    LittleEndian(n % 0x1_0000_0000, U32_SIZE)
  }

  function Width(t: FieldType): nat { if t == U64Field then 8 else if t == U8Field then 1 else 4 }

  function SerializeField(f: Field, t: FieldType): Bytes {
    match f
    case NumberOf(n) => LittleEndian(n, Width(t))
    case TruthOf(b) => U32Bytes(if b then 1 else 0)
    case BytesOf(b) => U32Bytes(|b|) + b
    case EnumOf(v) => U32Bytes(AsU32(v))
  }

  datatype Read<+T> = Read(v: T, rest: Bytes)

  function ReadNumber(data: Bytes, len: nat): Outcome<Read<nat>> {
    if |data| < len then Failed(DataTruncated) else Done(Read(FromLittleEndian(data[..len]), data[len..]))
  }

  function AsI32(n: nat): int { if n >= 0x8000_0000 then n - 0x1_0000_0000 else n }

  function DeserializeField(t: FieldType, data: Bytes): Outcome<Read<Field>> {
    match ReadNumber(data, Width(t))
    case Failed(e) => Failed(e)
    case Done(Read(n, rest)) =>
      match t
      case BoolField => Done(Read(TruthOf(n != 0), rest))
      case BytesField => if |rest| < n then Failed(DataTruncated) else Done(Read(BytesOf(rest[..n]), rest[n..]))
      case EnumField(values) =>
        if AsI32(n) in values then Done(Read(EnumOf(AsI32(n)), rest)) else Failed(InvalidEnumValue(n))
      case _ => Done(Read(NumberOf(n), rest))
  }

  lemma NumberReadsBack(n: nat, len: nat, rest: Bytes)
    requires n < Pow256(len)
    ensures ReadNumber(LittleEndian(n, len) + rest, len) == Done(Read(n, rest))
  {
    LittleEndianRoundTrip(n, len);
    var data := LittleEndian(n, len) + rest;
    assert data[..len] == LittleEndian(n, len) && data[len..] == rest;
  }

  lemma U32ReadsBack(n: nat, rest: Bytes)
    ensures ReadNumber(U32Bytes(n) + rest, 4) == Done(Read(n % 0x1_0000_0000, rest))
  {
    Pow256Values();
    NumberReadsBack(n % 0x1_0000_0000, 4, rest);
  }

  lemma NumberFieldRoundTrip(n: nat, t: FieldType, rest: Bytes)
    requires HasType(NumberOf(n), t)
    ensures DeserializeField(t, LittleEndian(n, Width(t)) + rest) == Done(Read(NumberOf(n), rest))
  {
    assert n < Pow256(Width(t)) by {
      Pow256Values();
    }
    NumberReadsBack(n, Width(t), rest);
  }

  lemma BytesFieldRoundTrip(b: Bytes, rest: Bytes)
    requires |b| < 0x1_0000_0000
    ensures DeserializeField(BytesField, U32Bytes(|b|) + b + rest) == Done(Read(BytesOf(b), rest))
  {
    U32ReadsBack(|b|, b + rest);
    assert U32Bytes(|b|) + b + rest == U32Bytes(|b|) + (b + rest);
    assert (b + rest)[..|b|] == b && (b + rest)[|b|..] == rest;
  }

  lemma TruthFieldRoundTrip(b: bool, rest: Bytes)
    ensures DeserializeField(BoolField, U32Bytes(if b then 1 else 0) + rest) == Done(Read(TruthOf(b), rest))
  {
    U32ReadsBack(if b then 1 else 0, rest);
  }

  lemma EnumFieldRoundTrip(v: I32, values: set<I32>, rest: Bytes)
    requires v in values
    ensures DeserializeField(EnumField(values), U32Bytes(AsU32(v)) + rest) == Done(Read(EnumOf(v), rest))
  {
    U32ReadsBack(AsU32(v), rest);
  }

  lemma FieldRoundTrip(f: Field, t: FieldType, rest: Bytes)
    requires HasType(f, t)
    ensures DeserializeField(t, SerializeField(f, t) + rest) == Done(Read(f, rest))
  {
    match f {
      case NumberOf(n) => NumberFieldRoundTrip(n, t, rest);
      case TruthOf(b) => TruthFieldRoundTrip(b, rest);
      case EnumOf(v) => EnumFieldRoundTrip(v, t.values, rest);
      case BytesOf(b) => BytesFieldRoundTrip(b, rest);
    }
  }

  /** The length of a byte string is kept in 32 bits, so it comes back exactly if it is below 2^32. */
  lemma BytesSurviveExactly(b: Bytes, rest: Bytes)
    ensures DeserializeField(BytesField, SerializeField(BytesOf(b), BytesField) + rest) == Done(Read(BytesOf(b), rest)) <==>
            |b| < 0x1_0000_0000
  {
    if |b| < 0x1_0000_0000 {
      FieldRoundTrip(BytesOf(b), BytesField, rest);
    } else {
      var n := |b| % 0x1_0000_0000;
      U32ReadsBack(|b|, b + rest);
      assert U32Bytes(|b|) + b + rest == U32Bytes(|b|) + (b + rest);
      assert |(b + rest)[..n]| < |b|;
    }
  }

  lemma FieldPrefixFails(f: Field, t: FieldType, k: nat)
    requires HasType(f, t) && k < |SerializeField(f, t)|
    ensures DeserializeField(t, SerializeField(f, t)[..k]) == Failed(DataTruncated)
  {
    if f.BytesOf? && k >= 4 {
      var part := SerializeField(f, t)[..k];
      U32ReadsBack(|f.bytes|, part[4..]);
      assert part == U32Bytes(|f.bytes|) + part[4..];
    }
  }

  // ---- Structures ----

  function Serialize(fs: seq<Field>, ts: seq<FieldType>): Bytes
    requires |fs| == |ts|
  {
    if fs == [] then [] else SerializeField(fs[0], ts[0]) + Serialize(fs[1..], ts[1..])
  }

  function Deserialize(ts: seq<FieldType>, data: Bytes): Outcome<Read<seq<Field>>> {
    if ts == [] then Done(Read([], data))
    else
      match DeserializeField(ts[0], data)
      case Failed(e) => Failed(e)
      case Done(Read(f, rest)) =>
        match Deserialize(ts[1..], rest)
        case Failed(e) => Failed(e)
        case Done(Read(fs, rest')) => Done(Read([f] + fs, rest'))
  }

  lemma FirstFieldReadsBack(f: Field, ts: seq<FieldType>, later: Bytes)
    requires ts != [] && HasType(f, ts[0])
    ensures Deserialize(ts, SerializeField(f, ts[0]) + later) ==
            match Deserialize(ts[1..], later) { case Failed(e) => Failed(e) case Done(Read(fs, rest)) => Done(Read([f] + fs, rest)) }
  {
    FieldRoundTrip(f, ts[0], later);
  }

  /** The serialized structure, followed by anything, reads back as the structure and what follows. */
  lemma {:induction false} StructRoundTrip(fs: seq<Field>, ts: seq<FieldType>, rest: Bytes)
    requires Typed(fs, ts)
    ensures Deserialize(ts, Serialize(fs, ts) + rest) == Done(Read(fs, rest))
  {
    if fs == [] {
      assert [] + rest == rest;
    } else {
      var later := Serialize(fs[1..], ts[1..]);
      assert Serialize(fs, ts) + rest == SerializeField(fs[0], ts[0]) + (later + rest);
      FirstFieldReadsBack(fs[0], ts, later + rest);
      StructRoundTrip(fs[1..], ts[1..], rest);
      assert [fs[0]] + fs[1..] == fs;
    }
  }

  lemma PrefixOfJoined(a: Bytes, b: Bytes, k: nat)
    requires |a| <= k <= |a| + |b|
    ensures (a + b)[..k] == a + b[..k - |a|]
  {
  }

  /** Every strict prefix is refused as truncated. */
  lemma {:induction false} StructPrefixFails(fs: seq<Field>, ts: seq<FieldType>, k: nat)
    requires Typed(fs, ts) && k < |Serialize(fs, ts)|
    ensures Deserialize(ts, Serialize(fs, ts)[..k]) == Failed(DataTruncated)
  {
    var first, later := SerializeField(fs[0], ts[0]), Serialize(fs[1..], ts[1..]);
    if k < |first| {
      assert Serialize(fs, ts)[..k] == first[..k];
      FieldPrefixFails(fs[0], ts[0], k);
    } else {
      PrefixOfJoined(first, later, k);
      FirstFieldReadsBack(fs[0], ts, later[..k - |first|]);
      StructPrefixFails(fs[1..], ts[1..], k - |first|);
    }
  }

  // ---- Envelope ----

  /** Command code above the stop bit and the response bit. */
  const RESPONSE_AND_STOP := 3

  /** The requests that a port takes, by command code. */
  type Schema = map<nat, seq<FieldType>>

  function SerializeRequest(cmd: nat, fs: seq<Field>, ts: seq<FieldType>): Bytes
    requires |fs| == |ts|
  {
    U32Bytes(cmd * 4) + Serialize(fs, ts)
  }

  function DeserializeRequest(schema: Schema, data: Bytes): Outcome<(nat, seq<Field>)> {
    match ReadNumber(data, 4)
    case Failed(e) => Failed(e)
    case Done(Read(raw, rest)) =>
      if raw % 2 == 1 then Failed(UnexpectedResponse)
      else if raw / 4 !in schema then Failed(UnknownCommand(raw / 4))
      else FromCodeAndData(raw / 4, schema[raw / 4], rest)
  }

  /** `from_code_and_data`: nothing may follow the structure. */
  function FromCodeAndData(cmd: nat, ts: seq<FieldType>, data: Bytes): Outcome<(nat, seq<Field>)> {
    match Deserialize(ts, data)
    case Failed(e) => Failed(e)
    case Done(Read(fs, rest)) => if rest != [] then Failed(ExcessData(|rest|)) else Done((cmd, fs))
  }

  lemma RequestHeader(schema: Schema, cmd: nat, rest: Bytes)
    requires cmd in schema && cmd < 0x4000_0000
    ensures DeserializeRequest(schema, U32Bytes(cmd * 4) + rest) == FromCodeAndData(cmd, schema[cmd], rest)
  {
    U32ReadsBack(cmd * 4, rest);
  }

  /** A response carries a return code, and its fields if that is zero. */
  function SerializeResponse(cmd: nat, code: I32, payload: Bytes): Bytes {
    U32Bytes(cmd * 4 + RESPONSE_AND_STOP) + U32Bytes(AsU32(code)) + (if code == 0 then payload else [])
  }

  function ResponseErrorCode(codes: set<I32>, rsp: Bytes): Outcome<I32> {
    if |rsp| < 8 then Failed(DataTruncated)
    else
      var n := FromLittleEndian(rsp[4..8]);
      if AsI32(n) in codes then Done(AsI32(n)) else Failed(InvalidEnumValue(n))
  }

  /** A request is understood as it was sent, and with one byte more or less it is refused. */
  lemma RequestRoundTrip(schema: Schema, cmd: nat, fs: seq<Field>, more: Bytes)
    requires cmd in schema && cmd < 0x4000_0000 && Typed(fs, schema[cmd])
    ensures DeserializeRequest(schema, SerializeRequest(cmd, fs, schema[cmd]) + more) ==
            if more == [] then Done((cmd, fs)) else Failed(ExcessData(|more|))
  {
    var body := Serialize(fs, schema[cmd]);
    assert SerializeRequest(cmd, fs, schema[cmd]) + more == U32Bytes(cmd * 4) + (body + more);
    RequestHeader(schema, cmd, body + more);
    StructRoundTrip(fs, schema[cmd], more);
  }

  lemma TruncatedRequestFails(schema: Schema, cmd: nat, fs: seq<Field>, k: nat)
    requires cmd in schema && cmd < 0x4000_0000 && Typed(fs, schema[cmd])
    requires k < |SerializeRequest(cmd, fs, schema[cmd])|
    ensures DeserializeRequest(schema, SerializeRequest(cmd, fs, schema[cmd])[..k]) == Failed(DataTruncated)
  {
    var body := Serialize(fs, schema[cmd]);
    if k >= 4 {
      assert SerializeRequest(cmd, fs, schema[cmd])[..k] == U32Bytes(cmd * 4) + body[..k - 4];
      RequestHeader(schema, cmd, body[..k - 4]);
      StructPrefixFails(fs, schema[cmd], k - 4);
    }
  }

  /** Secure-port responses that carry raw data and no return code. */
  function SerializeRawResponse(cmd: nat, data: Bytes): Bytes { U32Bytes(cmd * 4 + RESPONSE_AND_STOP) + data }

  /** Nothing that starts with the header of a response, whatever its command, is taken for a request. */
  lemma ResponseIsNoRequest(schema: Schema, cmd: nat, code: I32, payload: Bytes)
    ensures DeserializeRequest(schema, SerializeResponse(cmd, code, payload)) == Failed(UnexpectedResponse)
    ensures DeserializeRequest(schema, SerializeRawResponse(cmd, payload)) == Failed(UnexpectedResponse)
  {
    ResponseHeader(schema, cmd, payload);
    var later := U32Bytes(AsU32(code)) + (if code == 0 then payload else []);
    assert SerializeResponse(cmd, code, payload) == U32Bytes(cmd * 4 + RESPONSE_AND_STOP) + later;
    ResponseHeader(schema, cmd, later);
  }

  lemma ResponseHeader(schema: Schema, cmd: nat, later: Bytes)
    ensures DeserializeRequest(schema, U32Bytes(cmd * 4 + RESPONSE_AND_STOP) + later) == Failed(UnexpectedResponse)
  {
    var header := cmd * 4 + RESPONSE_AND_STOP;
    TruncatedIsOdd(2 * cmd + 1);
    assert header == 2 * (2 * cmd + 1) + 1;
    U32ReadsBack(header, later);
  }

  lemma TruncatedIsOdd(half: nat)
    ensures (2 * half + 1) % 0x1_0000_0000 % 2 == 1
  {
    var n := 2 * half + 1;
    assert n == 0x1_0000_0000 * (n / 0x1_0000_0000) + n % 0x1_0000_0000;
  }

  /** The return code can be recovered from every response that carries one. */
  lemma ErrorCodeReadsBack(codes: set<I32>, cmd: nat, code: I32, payload: Bytes)
    requires code in codes
    ensures ResponseErrorCode(codes, SerializeResponse(cmd, code, payload)) == Done(code)
  {
    var rsp := SerializeResponse(cmd, code, payload);
    U32ReadsBack(AsU32(code), rsp[8..]);
    assert rsp[4..8] == U32Bytes(AsU32(code));
    assert (U32Bytes(AsU32(code)) + rsp[8..])[..4] == U32Bytes(AsU32(code));
  }
}
