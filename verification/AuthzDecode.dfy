/** Decoding an authorization list: one pass over the listed fields, each of them optional, with a
    tag that was read but not yet used handed on from field to field (ta/src/cert.rs). */
module AuthzDecode {
  import opened Base
  import opened KeyParams
  import opened Der
  import opened AuthzFields

  // ---- Values ----

  predicate IsSet(t: Tag) {
    t in {OfEnum(PurposeTag), OfEnum(BlockModeTag), OfEnum(DigestTag), OfEnum(PaddingTag), OfEnum(RsaOaepMgfDigestTag)}
  }

  /** Sets are the fields of repeatable enumerations, as the type bits of their tags say. */
  lemma SetsAreRepeatable(t: Tag)
    ensures IsSet(t) <==> AsU32(t.Code()) / 0x1000_0000 == 2
  {
  }

  function ReadInts(content: Bytes): Option<seq<int>>
    decreases |content|
  {
    if content == [] then Some([])
    else
      match ReadTlv(content)
      case None => None
      case Some(TlvRead(tlv, rest)) =>
        var v := if tlv.tag == INTEGER then ReadInt(tlv.content) else None;
        var vs := ReadInts(rest);
        if v.Some? && vs.Some? then Some([v.value] + vs.value) else None
  }

  function MakeParams(t: Tag, vs: seq<int>): Result<seq<KeyParam>> {
    if vs == [] then Ok([])
    else
      var p := MakeParam(t, Num(vs[0]));
      var ps :- MakeParams(t, vs[1..]);
      if p.Some? then Ok([p.value] + ps) else Err(Error.Der)
  }

  /** `decode_value_from_bytes`: what the value inside a field must be depends on its tag. */
  function DecodeInner(t: Tag, inner: Tlv): Result<seq<KeyParam>>
    requires |inner.content| < LENGTH_LIMIT
  {
    if IsSet(t) then
      var vs := if inner.tag == SET then ReadInts(inner.content) else None;
      if vs.Some? && Ascending(vs.value) then MakeParams(t, vs.value) else Err(Error.Der)
    else
      var p :=
        if t == OfOctets(RootOfTrust) then MakeParam(t, Data(TlvBytes(inner)))
        else if t.OfFlag? then if inner == Tlv(NULL, []) then MakeParam(t, Present) else None
        else if t.OfOctets? then if inner.tag == OCTET_STRING then MakeParam(t, Data(inner.content)) else None
        else
          var v := if inner.tag == INTEGER then ReadInt(inner.content) else None;
          if v.Some? then MakeParam(t, Num(v.value)) else None;
      if p.Some? then Ok([p.value]) else Err(Error.Der)
  }

  // ---- Fields ----

  /** Tag number read but not used, parameters decoded, and input left. */
  datatype OptRead = OptRead(pending: Option<nat>, params: seq<KeyParam>, rest: Bytes)

  function DecodeTag(input: Bytes): (r: Result<OptRead>)
    ensures r.Ok? ==> r.value.params == [] && |r.value.rest| <= |input|
  {
    if input == [] then Ok(OptRead(None, [], []))
    else
      match ReadTag(input)
      case None => Err(Error.Der)
      case Some(TagRead(raw, rest)) => if KnownRaw(raw) then Ok(OptRead(Some(raw), [], rest)) else Err(Error.Der)
  }

  /** The explicit length only has to be available; the value inside brings its own. */
  function DecodeField(expected: Slot, input: Bytes): Result<OptRead> {
    match ReadLength(input)
    case None => Err(Error.Der)
    case Some(LengthRead(n, rest)) =>
      if n > |rest| then Err(Error.Der)
      else
        match ReadTlv(rest)
        case None => Err(Error.Der)
        case Some(TlvRead(inner, rest')) =>
          var params :- DecodeInner(expected.tag, inner);
          Ok(OptRead(None, params, rest'))
  }

  /** `decode_opt_field` */
  function DecodeOptField(pending: Option<nat>, input: Bytes, expected: Slot): Result<OptRead> {
    var tag :- if pending.Some? then Ok(OptRead(pending, [], input)) else DecodeTag(input);
    if tag.pending == Some(expected.raw) then DecodeField(expected, tag.rest) else Ok(tag)
  }

  /** `process_authz_list_tags!`; what is left of the input is for the caller to refuse. */
  function DecodeFields(order: seq<Slot>, pending: Option<nat>, input: Bytes): Result<(seq<KeyParam>, Bytes)>
    decreases |order|
  {
    if order == [] then if pending.Some? then Err(Error.Der) else Ok(([], input))
    else
      var step :- DecodeOptField(pending, input, order[0]);
      var after :- DecodeFields(order[1..], step.pending, step.rest);
      Ok((step.params + after.0, after.1))
  }

  /** The same, as the loop that the macro unrolls. */
  method DecodeList(order: seq<Slot>, input: Bytes) returns (r: Result<(seq<KeyParam>, Bytes)>)
    ensures r == DecodeFields(order, None, input)
  {
    var nonConsumedTag: Option<nat> := None;
    var keyParams: seq<KeyParam>, rest := [], input;
    PrefixedNothing(DecodeFields(order, None, input));
    assert order[0..] == order;
    for i := 0 to |order|
      invariant DecodeFields(order, None, input) == Prefixed(keyParams, DecodeFields(order[i..], nonConsumedTag, rest))
    {
      assert order[i..][0] == order[i] && order[i..][1..] == order[i + 1..];
      var step := DecodeOptField(nonConsumedTag, rest, order[i]);
      if step.Err? {
        return Err(step.error);
      }
      PrefixedTwice(keyParams, step.value.params, DecodeFields(order[i + 1..], step.value.pending, step.value.rest));
      nonConsumedTag, keyParams, rest := step.value.pending, keyParams + step.value.params, step.value.rest;
    }
    assert order[|order|..] == [];
    if nonConsumedTag.Some? {
      return Err(Error.Der);
    }
    assert keyParams + [] == keyParams;
    r := Ok((keyParams, rest));
  }

  function Prefixed(ps: seq<KeyParam>, r: Result<(seq<KeyParam>, Bytes)>): Result<(seq<KeyParam>, Bytes)> {
    match r
    case Err(e) => Err(e)
    case Ok((more, rest)) => Ok((ps + more, rest))
  }

  lemma PrefixedNothing(r: Result<(seq<KeyParam>, Bytes)>)
    ensures Prefixed([], r) == r
  {
    if r.Ok? {
      assert [] + r.value.0 == r.value.0;
    }
  }

  lemma PrefixedTwice(ps: seq<KeyParam>, qs: seq<KeyParam>, r: Result<(seq<KeyParam>, Bytes)>)
    ensures Prefixed(ps, Prefixed(qs, r)) == Prefixed(ps + qs, r)
  {
    if r.Ok? {
      assert ps + (qs + r.value.0) == ps + qs + r.value.0;
    }
  }

  // ---- Subsequences ----

  /** `a` is `b` with some elements left out. */
  predicate Subsequence<T(==)>(a: seq<T>, b: seq<T>)
    decreases |b|
  {
    a == [] || (b != [] && Subsequence(if a[0] == b[0] then a[1..] else a, b[1..]))
  }

  /** Places `idx` at which `a` is found in `b`. */
  predicate Embeds<T(==)>(a: seq<T>, b: seq<T>, idx: seq<int>) {
    |idx| == |a| && Ascending(idx) && forall i :: 0 <= i < |a| ==> 0 <= idx[i] < |b| && a[i] == b[idx[i]]
  }

  function Shift(idx: seq<int>, d: int): seq<int> { seq(|idx|, i requires 0 <= i < |idx| => idx[i] + d) }

  /** The greedy search finds a place for every element if there is one. */
  lemma {:induction false} SubsequenceIfEmbeds<T>(a: seq<T>, b: seq<T>, idx: seq<int>)
    requires Embeds(a, b, idx)
    ensures Subsequence(a, b)
    decreases |b|
  {
    if a != [] {
      assert 0 <= idx[0] < |b|;
      var later := Shift(if a[0] == b[0] then idx[1..] else idx, -1);
      SubsequenceIfEmbeds(if a[0] == b[0] then a[1..] else a, b[1..], later);
    }
  }

  lemma EmbedsMatch<T>(a: seq<T>, b: seq<T>, idx: seq<int>)
    requires a != [] && b != [] && a[0] == b[0] && Embeds(a[1..], b[1..], idx)
    ensures Embeds(a, b, [0] + Shift(idx, 1))
  {
    var all := [0] + Shift(idx, 1);
    forall i | 0 <= i < |a|
      ensures 0 <= all[i] < |b| && a[i] == b[all[i]]
    {
      if i > 0 {
        assert a[i] == a[1..][i - 1] == b[1..][idx[i - 1]];
      }
    }
  }

  lemma EmbedsSkip<T>(a: seq<T>, b: seq<T>, idx: seq<int>)
    requires b != [] && Embeds(a, b[1..], idx)
    ensures Embeds(a, b, Shift(idx, 1))
  {
  }

  lemma {:induction false} EmbedsIfSubsequence<T>(a: seq<T>, b: seq<T>) returns (idx: seq<int>)
    requires Subsequence(a, b)
    ensures Embeds(a, b, idx)
    decreases |b|
  {
    if a == [] {
      idx := [];
    } else if a[0] == b[0] {
      var later := EmbedsIfSubsequence(a[1..], b[1..]);
      EmbedsMatch(a, b, later);
      idx := [0] + Shift(later, 1);
    } else {
      var later := EmbedsIfSubsequence(a, b[1..]);
      EmbedsSkip(a, b, later);
      idx := Shift(later, 1);
    }
  }

  // ---- Well-formed input ----

  /** A field: its tag number, its value, and the parameters it stands for. */
  datatype Field = Field(raw: nat, inner: Tlv, params: seq<KeyParam>)

  predicate Sized(raw: nat, inner: Tlv) {
    raw < TAG_LIMIT && |inner.content| < LENGTH_LIMIT && |TlvBytes(inner)| < LENGTH_LIMIT
  }

  /** Whichever slot has this number reads the value as these parameters. */
  ghost predicate WellFormed(order: seq<Slot>, f: Field) {
    && Sized(f.raw, f.inner) && KnownRaw(f.raw)
    && forall s :: s in order && s.raw == f.raw ==> DecodeInner(s.tag, f.inner) == Ok(f.params)
  }

  ghost predicate AllWellFormed(order: seq<Slot>, fs: seq<Field>) {
    forall i :: 0 <= i < |fs| ==> WellFormed(order, fs[i])
  }

  function FieldBytes(f: Field): Bytes
    requires Sized(f.raw, f.inner)
  {
    Explicit(f.raw, f.inner)
  }

  function ListBytes(fs: seq<Field>): Bytes
    requires forall i :: 0 <= i < |fs| ==> Sized(fs[i].raw, fs[i].inner)
  {
    if fs == [] then [] else FieldBytes(fs[0]) + ListBytes(fs[1..])
  }

  function ListParams(fs: seq<Field>): seq<KeyParam> {
    if fs == [] then [] else fs[0].params + ListParams(fs[1..])
  }

  function FieldRaws(fs: seq<Field>): seq<nat> { seq(|fs|, i requires 0 <= i < |fs| => fs[i].raw) }

  /** A field without its tag. */
  function AfterTag(f: Field): Bytes
    requires Sized(f.raw, f.inner)
  {
    LengthBytes(|TlvBytes(f.inner)|) + TlvBytes(f.inner)
  }

  lemma AfterTagDecodes(t: Slot, f: Field, more: Bytes)
    requires Sized(f.raw, f.inner) && DecodeInner(t.tag, f.inner) == Ok(f.params)
    ensures DecodeField(t, AfterTag(f) + more) == Ok(OptRead(None, f.params, more))
  {
    var inner := TlvBytes(f.inner);
    assert AfterTag(f) + more == LengthBytes(|inner|) + (inner + more);
    LengthRoundTrip(|inner|, inner + more);
    TlvRoundTrip(f.inner, more);
  }

  lemma DecodesTag(f: Field, more: Bytes)
    requires Sized(f.raw, f.inner) && KnownRaw(f.raw)
    ensures DecodeTag(FieldBytes(f) + more) == Ok(OptRead(Some(f.raw), [], AfterTag(f) + more))
  {
    assert FieldBytes(f) + more == ExplicitTag(f.raw) + (AfterTag(f) + more);
    TagRoundTrip(f.raw, AfterTag(f) + more);
  }

  /** What is still to be decoded: whole fields, the first one perhaps without its tag. */
  ghost predicate Awaits(pending: Option<nat>, input: Bytes, fs: seq<Field>)
    requires forall i :: 0 <= i < |fs| ==> Sized(fs[i].raw, fs[i].inner)
  {
    if pending.None? then input == ListBytes(fs)
    else fs != [] && pending.value == fs[0].raw && input == AfterTag(fs[0]) + ListBytes(fs[1..])
  }

  /** One step either uses up the first field or leaves its tag pending. */
  lemma OptFieldStep(order: seq<Slot>, pending: Option<nat>, input: Bytes, fs: seq<Field>, expected: Slot)
    requires expected in order && AllWellFormed(order, fs) && Awaits(pending, input, fs)
    ensures DecodeOptField(pending, input, expected) ==
            if fs == [] then Ok(OptRead(None, [], []))
            else if fs[0].raw == expected.raw then Ok(OptRead(None, fs[0].params, ListBytes(fs[1..])))
            else Ok(OptRead(Some(fs[0].raw), [], AfterTag(fs[0]) + ListBytes(fs[1..])))
  {
    if fs != [] {
      var f, more := fs[0], ListBytes(fs[1..]);
      if pending.None? {
        DecodesTag(f, more);
      }
      if f.raw == expected.raw {
        AfterTagDecodes(expected, f, more);
      }
    }
  }

  /** What holds of the outcome `r` when fields `fs` were to be found in this order. */
  ghost predicate Consumed(order: seq<Slot>, fs: seq<Field>, r: Result<(seq<KeyParam>, Bytes)>) {
    && (Subsequence(FieldRaws(fs), Raws(order)) ==> r == Ok((ListParams(fs), [])))
    && (r.Ok? && r.value.1 == [] ==> Subsequence(FieldRaws(fs), Raws(order)))
  }

  lemma ConsumedMatch(order: seq<Slot>, fs: seq<Field>, r: Result<(seq<KeyParam>, Bytes)>)
    requires order != [] && fs != [] && fs[0].raw == order[0].raw && Consumed(order[1..], fs[1..], r)
    ensures Consumed(order, fs, Prefixed(fs[0].params, r))
  {
    assert Raws(order)[1..] == Raws(order[1..]);
    assert FieldRaws(fs)[1..] == FieldRaws(fs[1..]);
  }

  lemma ConsumedSkip(order: seq<Slot>, fs: seq<Field>, r: Result<(seq<KeyParam>, Bytes)>)
    requires order != [] && fs != [] && fs[0].raw != order[0].raw && Consumed(order[1..], fs, r)
    ensures Consumed(order, fs, Prefixed([], r))
  {
    assert Raws(order)[1..] == Raws(order[1..]);
    PrefixedNothing(r);
  }

  /** The decoder uses up well-formed fields entirely exactly if their tags come in the listed order, and
      then it yields their parameters. */
  lemma {:induction false} ConsumesInOrder(all: seq<Slot>, order: seq<Slot>, pending: Option<nat>, input: Bytes, fs: seq<Field>)
    requires (forall s :: s in order ==> s in all) && AllWellFormed(all, fs) && Awaits(pending, input, fs)
    ensures Consumed(order, fs, DecodeFields(order, pending, input))
    decreases |order|
  {
    if order == [] {
      assert fs != [] ==> FieldBytes(fs[0]) != [];
      assert FieldRaws(fs) == [] <==> fs == [];
    } else if fs == [] {
      NothingLeft(order);
    } else {
      OptFieldStep(all, pending, input, fs, order[0]);
      var matched := fs[0].raw == order[0].raw;
      var pending' := if matched then None else Some(fs[0].raw);
      var rest := if matched then ListBytes(fs[1..]) else AfterTag(fs[0]) + ListBytes(fs[1..]);
      var later := DecodeFields(order[1..], pending', rest);
      assert DecodeFields(order, pending, input) == Prefixed(if matched then fs[0].params else [], later);
      if matched {
        ConsumesInOrder(all, order[1..], pending', rest, fs[1..]);
        ConsumedMatch(order, fs, later);
      } else {
        ConsumesInOrder(all, order[1..], pending', rest, fs);
        ConsumedSkip(order, fs, later);
      }
    }
  }

  lemma {:induction false} NothingLeft(order: seq<Slot>)
    ensures DecodeFields(order, None, []) == Ok(([], []))
    decreases |order|
  {
    if order != [] {
      NothingLeft(order[1..]);
      PrefixedNothing(DecodeFields(order[1..], None, []));
    }
  }
}
