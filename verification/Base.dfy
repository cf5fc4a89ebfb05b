/** Bytes, fixed-width integers, results and error codes shared by every module. */
module Base {

  type Byte = b: int | 0 <= b < 256
  type Bytes = seq<Byte>

  type U32 = n: int | 0 <= n < 0x1_0000_0000
  type U64 = n: int | 0 <= n < 0x1_0000_0000_0000_0000
  type I32 = n: int | -0x8000_0000 <= n < 0x8000_0000
  type I64 = n: int | -0x8000_0000_0000_0000 <= n < 0x8000_0000_0000_0000

  datatype Option<+T> = None | Some(value: T)

  /** The HAL error codes that the modelled code can report, the three error kinds (`Alloc`,
      `Cbor`, `Der`) that carry no HAL code of their own, and `Panic` for a crash. */
  datatype Error =
    | UnsupportedPurpose | IncompatiblePurpose | UnsupportedAlgorithm | UnsupportedKeySize
    | UnsupportedBlockMode | IncompatibleBlockMode | UnsupportedMacLength | UnsupportedPaddingMode
    | IncompatiblePaddingMode | UnsupportedDigest | IncompatibleDigest | InvalidAuthorizationTimeout
    | InvalidInputLength | KeyUserNotAuthenticated | VerificationFailed | TooManyOperations
    | InvalidKeyBlob | InvalidArgument | InvalidTag | InvalidNonce | MissingMacLength
    | CallerNonceProhibited | KeyMaxOpsExceeded | InvalidMacLength | MissingMinMacLength
    | UnsupportedMinMacLength | KeyRequiresUpgrade | RollbackResistanceUnavailable
    | ProofOfPresenceRequired | ConcurrentProofOfPresenceRequested | NoUserConfirmation
    | InvalidOperation | InvalidOperationHandle | StorageKeyUnsupported | IncompatibleMgfDigest
    | UnsupportedMgfDigest | HardwareNotYetAvailable | UnknownError | EncodingError | CommFailure
    | Alloc | Cbor | Der | Panic

  datatype Result<+T> = Ok(value: T) | Err(error: Error) {
    predicate IsFailure() { Err? }

    function PropagateFailure<U>(): Result<U>
      requires Err?
    {
      Err(error)
    }

    function Extract(): T
      requires Ok?
    {
      value
    }
  }

  function Min(a: nat, b: nat): nat { if a <= b then a else b }

  /** Concatenation of a sequence of chunks. */
  function Flatten(chunks: seq<Bytes>): Bytes {
    if chunks == [] then [] else chunks[0] + Flatten(chunks[1..])
  }

  lemma {:induction false} FlattenAppend(chunks: seq<Bytes>, last: Bytes)
    ensures Flatten(chunks + [last]) == Flatten(chunks) + last
  {
    if chunks == [] {
      assert chunks + [last] == [last];
      assert Flatten([last]) == last + Flatten([]);
    } else {
      assert (chunks + [last])[1..] == chunks[1..] + [last];
      FlattenAppend(chunks[1..], last);
    }
  }

  function Zeros(n: nat): (z: Bytes)
    ensures |z| == n
    ensures forall i :: 0 <= i < n ==> z[i] == 0
  {
    if n == 0 then [] else Zeros(n - 1) + [0]
  }

  /** Left-padded with zeros. */
  function Pad(b: Bytes, len: nat): (r: Bytes)
    requires |b| <= len
    ensures |r| == len
  {
    Zeros(len - |b|) + b
  }

  // ---- Fixed-width integer encodings ----

  function Pow256(n: nat): (p: nat)
    ensures p >= 1
  {
    if n == 0 then 1 else 256 * Pow256(n - 1)
  }

  /** The low `len` bytes of `n`, most significant first (`to_be_bytes`). */
  function BigEndian(n: nat, len: nat): (b: Bytes)
    ensures |b| == len
  {
    if len == 0 then [] else BigEndian(n / 256, len - 1) + [n % 256]
  }

  function FromBigEndian(b: Bytes): (n: nat)
    ensures n < Pow256(|b|)
  {
    if b == [] then 0 else FromBigEndian(b[..|b| - 1]) * 256 + b[|b| - 1]
  }

  lemma {:induction false} BigEndianRoundTrip(n: nat, len: nat)
    requires n < Pow256(len)
    ensures FromBigEndian(BigEndian(n, len)) == n
  {
    if len > 0 {
      BigEndianRoundTrip(n / 256, len - 1);
      var b := BigEndian(n, len);
      assert b[..|b| - 1] == BigEndian(n / 256, len - 1);
    }
  }

  /** The low `len` bytes of `n`, least significant first (`to_ne_bytes` on the
      little-endian targets the code runs on). */
  function LittleEndian(n: nat, len: nat): (b: Bytes)
    ensures |b| == len
  {
    if len == 0 then [] else [n % 256] + LittleEndian(n / 256, len - 1)
  }

  function FromLittleEndian(b: Bytes): (n: nat)
    ensures n < Pow256(|b|)
  {
    if b == [] then 0 else b[0] + 256 * FromLittleEndian(b[1..])
  }

  lemma {:induction false} LittleEndianRoundTrip(n: nat, len: nat)
    requires n < Pow256(len)
    ensures FromLittleEndian(LittleEndian(n, len)) == n
  {
    if len > 0 {
      LittleEndianRoundTrip(n / 256, len - 1);
      assert LittleEndian(n, len)[1..] == LittleEndian(n / 256, len - 1);
    }
  }

  lemma Pow256Values()
    ensures Pow256(1) == 0x100
    ensures Pow256(2) == 0x1_0000
    ensures Pow256(3) == 0x100_0000
    ensures Pow256(4) == 0x1_0000_0000
    ensures Pow256(8) == 0x1_0000_0000_0000_0000
  {
    assert Pow256(2) == 256 * Pow256(1);
    assert Pow256(4) == 256 * Pow256(3);
    assert Pow256(6) == 256 * Pow256(5);
    assert Pow256(8) == 256 * Pow256(7);
  }

  /** Two's complement reinterpretation (`as u64` / `as i64`). */
  function AsU64(v: I64): U64 { if v < 0 then v + 0x1_0000_0000_0000_0000 else v }
  function AsI64(v: U64): I64 { if v < 0x8000_0000_0000_0000 then v else v - 0x1_0000_0000_0000_0000 }
  function AsU32(v: I32): U32 { if v < 0 then v + 0x1_0000_0000 else v }

  // ---- Buffers ----

  function Overwrite(buf: Bytes, at: nat, data: Bytes): Bytes
    requires at + |data| <= |buf|
  {
    buf[..at] + data + buf[at + |data|..]
  }

  /** `copy_from_slice` into the part of `buf` that starts at `at` */
  method CopyInto(buf: array<Byte>, at: nat, data: Bytes)
    requires at + |data| <= buf.Length
    modifies buf
    ensures buf[..] == Overwrite(old(buf[..]), at, data)
  {
    for i := 0 to |data|
      invariant buf[..at] == old(buf[..at])
      invariant buf[at..at + i] == data[..i]
      invariant buf[at + |data|..] == old(buf[at + |data|..])
    {
      buf[at + i] := data[i];
    }
    assert buf[..] == buf[..at] + buf[at..at + |data|] + buf[at + |data|..];
  }
}
