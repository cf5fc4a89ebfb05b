/** The second IMEI, derived from the first (common/src/tag.rs). */
module Imei {
  import opened Base

  // ---- Luhn sums ----

  /** What a digit contributes: itself, or the sum of the digits of its double. */
  function Weight(digit: nat, doubled: bool): nat {
    var multiplied := if doubled then digit * 2 else digit;
    multiplied % 10 + multiplied / 10
  }

  /** Digits from the last one on, every other one doubled, beginning with the last if `doubled`. */
  function WeightedSum(val: nat, doubled: bool): nat
    decreases val
  {
    if val == 0 then 0 else Weight(val % 10, doubled) + WeightedSum(val / 10, !doubled)
  }

  /** A number with its check digit is valid if the sum that leaves the check digit alone ends in zero. */
  predicate LuhnValid(n: nat) { WeightedSum(n, false) % 10 == 0 }

  /** What brings a sum up to a multiple of ten. */
  function Complement(sum: nat): (c: nat)
    ensures c < 10
  {
    (10 - sum % 10) % 10
  }

  function Checksum(val: nat): nat { Complement(WeightedSum(val, true)) }

  method LuhnChecksum(val: nat) returns (c: nat)
    ensures c == Checksum(val)
  {
    var v, ii, sum := val, 0, 0;
    ghost var doubled := true;
    while v != 0
      invariant doubled <==> ii % 2 == 0
      invariant sum + WeightedSum(v, doubled) == WeightedSum(val, true)
      decreases v
    {
      sum := sum + Weight(v % 10, ii % 2 == 0);
      v, ii, doubled := v / 10, ii + 1, !doubled;
    }
    c := Complement(sum);
  }

  lemma ComplementExact(sum: nat, digit: nat)
    requires digit < 10
    ensures (digit + sum) % 10 == 0 <==> digit == Complement(sum)
  {
    var q, r := sum / 10, sum % 10;
    assert digit + sum == 10 * q + (digit + r);
  }

  lemma WeightedStep(n: nat, val: nat, digit: nat)
    requires digit < 10 && n % 10 == digit && n / 10 == val
    ensures WeightedSum(n, false) == digit + WeightedSum(val, true)
  {
  }

  /** Appending the checksum makes any number valid, and no other digit does. */
  lemma ChecksumExact(val: nat, digit: nat, n: nat)
    requires digit < 10 && n == val * 10 + digit
    ensures LuhnValid(n) <==> digit == Checksum(val)
  {
    WeightedStep(n, val, digit);
    ComplementExact(WeightedSum(val, true), digit);
  }

  // ---- Decimal text ----

  function Digit(d: nat): Byte
    requires d < 10
  {
    0x30 + d
  }

  function Decimal(n: nat): (b: Bytes)
    ensures b != []
  {
    if n < 10 then [Digit(n)] else Decimal(n / 10) + [Digit(n % 10)]
  }

  predicate IsDigit(b: Byte) { 0x30 <= b < 0x3a }

  function DigitValue(b: Byte): nat
    requires IsDigit(b)
  {
    b - 0x30
  }

  function Value(b: Bytes): nat
    requires forall i :: 0 <= i < |b| ==> IsDigit(b[i])
  {
    if b == [] then 0 else Value(b[..|b| - 1]) * 10 + DigitValue(b[|b| - 1])
  }

  /** A `u64` from text: digits, after an optional plus sign. */
  function ParseU64(b: Bytes): Option<U64> {
    var digits := if b != [] && b[0] == 0x2b then b[1..] else b;
    if digits == [] || !(forall i :: 0 <= i < |digits| ==> IsDigit(digits[i])) then None
    else if Value(digits) >= 0x1_0000_0000_0000_0000 then None
    else Some(Value(digits))
  }

  lemma {:induction false} DecimalReadsBack(n: nat)
    ensures (forall i :: 0 <= i < |Decimal(n)| ==> IsDigit(Decimal(n)[i])) && Value(Decimal(n)) == n
  {
    var b := Decimal(n);
    if n < 10 {
      assert b[..|b| - 1] == [];
    } else {
      DecimalReadsBack(n / 10);
      assert b[..|b| - 1] == Decimal(n / 10);
    }
  }

  // ---- The next IMEI ----

  /** The body one larger, with its own check digit; `Panic` records an arithmetic overflow. */
  function IncrementImei(imei: Bytes): Result<Bytes> {
    match ParseU64(imei)
    case None => Ok([])
    case Some(v) =>
      var body := v / 10 + 1;
      var next := body * 10 + Checksum(body);
      if next >= 0x1_0000_0000_0000_0000 then Err(Panic) else Ok(Decimal(next))
  }

  lemma NextIsSmall(v: nat, c: nat)
    requires c < 10 && (v / 10 == 1844674407370955160 ==> c < 6)
    ensures (v / 10 + 1) * 10 + c >= 0x1_0000_0000_0000_0000 <==> v >= 18446744073709551610
    ensures ((v / 10 + 1) * 10 + c) / 10 == v / 10 + 1
  {
  }

  lemma LargestBody()
    ensures Checksum(1844674407370955161) == 1
  {
    assert WeightedSum(1, true) == 2;
    assert WeightedSum(18, false) == 10;
    assert WeightedSum(184, true) == 18;
    assert WeightedSum(1844, false) == 22;
    assert WeightedSum(18446, true) == 25;
    assert WeightedSum(184467, false) == 32;
    assert WeightedSum(1844674, true) == 40;
    assert WeightedSum(18446744, false) == 44;
    assert WeightedSum(184467440, true) == 44;
    assert WeightedSum(1844674407, false) == 51;
    assert WeightedSum(18446744073, true) == 57;
    assert WeightedSum(184467440737, false) == 64;
    assert WeightedSum(1844674407370, true) == 64;
    assert WeightedSum(18446744073709, false) == 73;
    assert WeightedSum(184467440737095, true) == 74;
    assert WeightedSum(1844674407370955, false) == 79;
    assert WeightedSum(18446744073709551, true) == 81;
    assert WeightedSum(184467440737095516, false) == 87;
    assert WeightedSum(1844674407370955161, true) == 89;
  }

  lemma ParseDecimal(n: U64)
    ensures ParseU64(Decimal(n)) == Some(n)
  {
    DecimalReadsBack(n);
    assert IsDigit(Decimal(n)[0]);
  }

  /** For every numeric IMEI the result is the text of a valid number whose body is one larger; the only
      ones without a result are the six largest. */
  lemma IncrementedImei(imei: Bytes, v: U64)
    requires ParseU64(imei) == Some(v)
    ensures IncrementImei(imei).Err? <==> v >= 18446744073709551610
    ensures IncrementImei(imei).Ok? ==>
              var next := ParseU64(IncrementImei(imei).value);
              next.Some? && next.value / 10 == v / 10 + 1 && LuhnValid(next.value)
  {
    var body := v / 10 + 1;
    var c := Checksum(body);
    if body == 1844674407370955161 {
      LargestBody();
    }
    NextIsSmall(v, c);
    if v < 18446744073709551610 {
      NextIsValid(body, c, body * 10 + c);
    }
  }

  lemma NextIsValid(body: nat, c: nat, next: U64)
    requires c == Checksum(body) && next == body * 10 + c
    ensures ParseU64(Decimal(next)) == Some(next) && LuhnValid(next)
  {
    ParseDecimal(next);
    ChecksumExact(body, c, next);
  }
}
