/** Key derivation (common/src/crypto.rs): HKDF-Expand with HMAC-SHA256 (section 2.3 of RFC 5869) and the
    counter mode with AES-CMAC (section 5.1 of NIST SP 800-108). */
module Kdf {
  import opened Base

  const SHA256_DIGEST_LEN := 32
  const BLOCK_SIZE := 16

  function DivCeil(a: nat, b: nat): nat
    requires b > 0
  {
    (a + b - 1) / b
  }

  /** The first `n` blocks of a key stream. */
  function Stream(block: nat -> Bytes, n: nat): Bytes { if n == 0 then [] else Stream(block, n - 1) + block(n) }

  lemma {:induction false} StreamLength(block: nat -> Bytes, n: nat, len: nat)
    requires forall i :: |block(i)| == len
    ensures |Stream(block, n)| == n * len
  {
    if n > 0 {
      StreamLength(block, n - 1, len);
    }
  }

  /** A stream of more blocks starts with that of fewer blocks. */
  lemma {:induction false} StreamPrefix(block: nat -> Bytes, m: nat, n: nat)
    requires m <= n
    ensures Stream(block, m) <= Stream(block, n)
    decreases n
  {
    if m < n {
      StreamPrefix(block, m, n - 1);
    }
  }

  // ---- HKDF-Expand ----

  type Hmac = (Bytes, Bytes) -> Bytes

  ghost predicate Sha256Sized(hmac: Hmac) { forall k, d :: |hmac(k, d)| == SHA256_DIGEST_LEN }

  /** T(i) of RFC 5869. */
  function T(hmac: Hmac, prk: Bytes, info: Bytes, i: nat): Bytes {
    if i == 0 then [] else hmac(prk, T(hmac, prk, info, i - 1) + info + [i % 256])
  }

  function Ts(hmac: Hmac, prk: Bytes, info: Bytes): nat -> Bytes {
    i => if i == 0 then Zeros(SHA256_DIGEST_LEN) else T(hmac, prk, info, i)
  }

  /** Output keying material: the first `outLen` bytes of T(1), T(2), ... */
  function Okm(hmac: Hmac, prk: Bytes, info: Bytes, outLen: nat): (okm: Bytes)
    requires Sha256Sized(hmac)
    ensures |okm| == outLen
  {
    StreamLength(Ts(hmac, prk, info), DivCeil(outLen, SHA256_DIGEST_LEN), SHA256_DIGEST_LEN);
    Stream(Ts(hmac, prk, info), DivCeil(outLen, SHA256_DIGEST_LEN))[..outLen]
  }

  /** What `expand` returns: the block count is checked against 256 but then kept in a byte. */
  function Expanded(hmac: Hmac, prk: Bytes, info: Bytes, outLen: nat): Result<Bytes>
    requires Sha256Sized(hmac)
  {
    var blocks := DivCeil(outLen, SHA256_DIGEST_LEN);
    if blocks > 256 then Err(InvalidArgument)
    else
      var all := Stream(Ts(hmac, prk, info), blocks % 256);
      Ok(if |all| <= outLen then all else all[..outLen])
  }

  method Expand(hmac: Hmac, prk: Bytes, info: Bytes, outLen: nat) returns (r: Result<Bytes>)
    requires Sha256Sized(hmac)
    ensures r == Expanded(hmac, prk, info, outLen)
  {
    var blocks := DivCeil(outLen, SHA256_DIGEST_LEN);
    if blocks > 256 {
      return Err(InvalidArgument);
    }
    var t: Bytes, okm: Bytes := [], [];
    var n := blocks % 256;
    for idx := 0 to n
      invariant t == T(hmac, prk, info, idx)
      invariant okm == Stream(Ts(hmac, prk, info), idx)
    {
      t := hmac(prk, t + info + [idx + 1]);
      okm := okm + t;
    }
    r := Ok(if |okm| <= outLen then okm else okm[..outLen]);
  }

  /** Expansion yields the keying material of the RFC exactly for the lengths that the RFC allows. One more
      block than that passes the check, but yields nothing. */
  lemma ExpandExact(hmac: Hmac, prk: Bytes, info: Bytes, outLen: nat)
    requires Sha256Sized(hmac)
    ensures Expanded(hmac, prk, info, outLen) == Ok(Okm(hmac, prk, info, outLen)) <==> outLen <= 255 * SHA256_DIGEST_LEN
    ensures Expanded(hmac, prk, info, outLen) == Ok([]) <==>
            outLen == 0 || 255 * SHA256_DIGEST_LEN < outLen <= 256 * SHA256_DIGEST_LEN
  {
    var blocks := DivCeil(outLen, SHA256_DIGEST_LEN);
    StreamLength(Ts(hmac, prk, info), blocks % 256, SHA256_DIGEST_LEN);
    if blocks < 256 {
      var all := Stream(Ts(hmac, prk, info), blocks);
      assert |all| == outLen ==> all[..outLen] == all;
    }
  }

  /** Block `i`, counted from zero, of some output. */
  function Block(out: Bytes, i: nat, len: nat): Bytes
    requires (i + 1) * len <= |out|
  {
    out[i * len..(i + 1) * len]
  }

  lemma {:induction false} StreamBlock(block: nat -> Bytes, n: nat, len: nat, i: nat)
    requires (forall j :: |block(j)| == len) && i < n
    ensures |Stream(block, n)| == n * len && (i + 1) * len <= n * len && Block(Stream(block, n), i, len) == block(i + 1)
  {
    StreamLength(block, n, len);
    StreamLength(block, n - 1, len);
    if i < n - 1 {
      StreamBlock(block, n - 1, len, i);
    }
  }

  /** What section 2.3 of RFC 5869 asks of keying material, said of its bytes: each block is the MAC of the block
      before it, the context and its number in one byte. */
  ghost predicate Chained(hmac: Hmac, prk: Bytes, info: Bytes, out: Bytes) {
    forall i :: 0 <= i < |out| / SHA256_DIGEST_LEN ==> ChainedAt(hmac, prk, info, out, i)
  }

  ghost predicate ChainedAt(hmac: Hmac, prk: Bytes, info: Bytes, out: Bytes, i: int)
    requires 0 <= i < |out| / SHA256_DIGEST_LEN
  {
    var before := if i == 0 then [] else Block(out, i - 1, SHA256_DIGEST_LEN);
    Block(out, i, SHA256_DIGEST_LEN) == hmac(prk, before + info + [(i + 1) % 256])
  }

  lemma OkmChained(hmac: Hmac, prk: Bytes, info: Bytes, n: nat)
    requires Sha256Sized(hmac)
    ensures Chained(hmac, prk, info, Okm(hmac, prk, info, n * SHA256_DIGEST_LEN))
  {
    var ts, out := Ts(hmac, prk, info), Okm(hmac, prk, info, n * SHA256_DIGEST_LEN);
    StreamLength(ts, n, SHA256_DIGEST_LEN);
    assert DivCeil(n * SHA256_DIGEST_LEN, SHA256_DIGEST_LEN) == n;
    assert out == Stream(ts, n);
    forall i | 0 <= i < |out| / SHA256_DIGEST_LEN ensures ChainedAt(hmac, prk, info, out, i) {
      StreamBlock(ts, n, SHA256_DIGEST_LEN, i);
      assert ts(i + 1) == T(hmac, prk, info, i + 1) == hmac(prk, T(hmac, prk, info, i) + info + [(i + 1) % 256]);
      if i > 0 {
        StreamBlock(ts, n, SHA256_DIGEST_LEN, i - 1);
        assert ts(i) == T(hmac, prk, info, i);
      }
    }
  }

  /** Expansion gives the start of such material. */
  lemma ExpandedIsChained(hmac: Hmac, prk: Bytes, info: Bytes, outLen: nat) returns (whole: Bytes)
    requires Sha256Sized(hmac) && outLen <= 255 * SHA256_DIGEST_LEN
    ensures Expanded(hmac, prk, info, outLen).Ok?
    ensures var out := Expanded(hmac, prk, info, outLen).value;
            |out| == outLen && out <= whole && |whole| < outLen + SHA256_DIGEST_LEN
    ensures Chained(hmac, prk, info, whole)
  {
    var n := DivCeil(outLen, SHA256_DIGEST_LEN);
    whole := Okm(hmac, prk, info, n * SHA256_DIGEST_LEN);
    ExpandExact(hmac, prk, info, outLen);
    OkmPrefix(hmac, prk, info, outLen, n * SHA256_DIGEST_LEN);
    OkmChained(hmac, prk, info, n);
  }

  /** A shorter derivation is the start of a longer one. */
  lemma OkmPrefix(hmac: Hmac, prk: Bytes, info: Bytes, m: nat, n: nat)
    requires Sha256Sized(hmac) && m <= n
    ensures Okm(hmac, prk, info, m) <= Okm(hmac, prk, info, n)
  {
    var block, i, j := Ts(hmac, prk, info), DivCeil(m, SHA256_DIGEST_LEN), DivCeil(n, SHA256_DIGEST_LEN);
    StreamPrefix(block, i, j);
    StreamLength(block, i, SHA256_DIGEST_LEN);
    StreamLength(block, j, SHA256_DIGEST_LEN);
  }

  // ---- Counter mode ----

  type Cmac = Bytes -> Bytes

  ghost predicate AesSized(cmac: Cmac) { forall d :: |cmac(d)| == BLOCK_SIZE }

  /** What is authenticated for block `i`: counter, label, zero byte, context and length in bits. */
  function BlockInput(purpose: Bytes, context: Bytes, bits: nat, i: nat): Bytes {
    BigEndian(i, 4) + purpose + [0] + context + BigEndian(bits, 4)
  }

  function CounterBlocks(cmac: Cmac, purpose: Bytes, context: Bytes, bits: nat): nat -> Bytes {
    i => cmac(BlockInput(purpose, context, bits, i))
  }

  lemma CounterBlocksSized(cmac: Cmac, purpose: Bytes, context: Bytes, bits: nat)
    requires AesSized(cmac)
    ensures forall i :: |CounterBlocks(cmac, purpose, context, bits)(i)| == BLOCK_SIZE
  {
    forall i
      ensures |CounterBlocks(cmac, purpose, context, bits)(i)| == BLOCK_SIZE
    {
      assert |cmac(BlockInput(purpose, context, bits, i))| == BLOCK_SIZE;
    }
  }

  function CounterMode(cmac: Cmac, purpose: Bytes, context: Bytes, bits: nat, outLen: nat): (out: Bytes)
    requires AesSized(cmac)
    ensures |out| == outLen
  {
    CounterBlocksSized(cmac, purpose, context, bits);
    StreamLength(CounterBlocks(cmac, purpose, context, bits), DivCeil(outLen, BLOCK_SIZE), BLOCK_SIZE);
    Stream(CounterBlocks(cmac, purpose, context, bits), DivCeil(outLen, BLOCK_SIZE))[..outLen]
  }

  /** One block: the MAC operation is fed piece by piece. */
  method CkdfBlock(cmac: Cmac, purpose: Bytes, chunks: seq<Bytes>, bits: nat, i: nat) returns (data: Bytes)
    ensures data == CounterBlocks(cmac, purpose, Flatten(chunks), bits)(i)
  {
    var fed: Bytes := BigEndian(i, 4);
    fed := fed + purpose;
    fed := fed + [0];
    ghost var front := fed;
    for j := 0 to |chunks|
      invariant fed == front + Flatten(chunks[..j])
    {
      assert chunks[..j + 1] == chunks[..j] + [chunks[j]];
      FlattenAppend(chunks[..j], chunks[j]);
      assert front + Flatten(chunks[..j]) + chunks[j] == front + (Flatten(chunks[..j]) + chunks[j]);
      fed := fed + chunks[j];
    }
    assert chunks[..|chunks|] == chunks;
    assert fed + BigEndian(bits, 4) == BlockInput(purpose, Flatten(chunks), bits, i);
    data := cmac(fed + BigEndian(bits, 4));
  }

  /** What `ckdf` returns: block count and bit length are kept in 32 bits. */
  function CkdfResult(cmac: Cmac, purpose: Bytes, context: Bytes, outLen: nat): Result<Bytes>
    requires AesSized(cmac)
  {
    if DivCeil(outLen, BLOCK_SIZE) < 0x1_0000_0000 then Ok(CounterMode(cmac, purpose, context, outLen * 8 % 0x1_0000_0000, outLen))
    else Err(InvalidArgument)
  }

  method FillOutput(cmac: Cmac, purpose: Bytes, chunks: seq<Bytes>, bits: nat, blocks: nat, output: array<Byte>) returns (pos: nat)
    modifies output
    ensures Filled(output[..], pos, Stream(CounterBlocks(cmac, purpose, Flatten(chunks), bits), blocks))
  {
    pos := 0;
    ghost var block := CounterBlocks(cmac, purpose, Flatten(chunks), bits);
    for i := 0 to blocks
      invariant Filled(output[..], pos, Stream(block, i))
    {
      var data := CkdfBlock(cmac, purpose, chunks, bits, i + 1);
      pos := CopyBlock(output, pos, data, Stream(block, i));
    }
  }

  /** How the context is cut into chunks does not matter. */
  method Ckdf(cmac: Cmac, purpose: Bytes, chunks: seq<Bytes>, outLen: nat) returns (r: Result<Bytes>)
    requires AesSized(cmac)
    ensures r == CkdfResult(cmac, purpose, Flatten(chunks), outLen)
  {
    var blocks := DivCeil(outLen, BLOCK_SIZE) % 0x1_0000_0000;
    var bits := outLen * 8 % 0x1_0000_0000;
    var output := new Byte[outLen](_ => 0);
    var pos := FillOutput(cmac, purpose, chunks, bits, blocks, output);
    CounterBlocksSized(cmac, purpose, Flatten(chunks), bits);
    StreamLength(CounterBlocks(cmac, purpose, Flatten(chunks), bits), blocks, BLOCK_SIZE);
    BlocksCover(outLen);
    if pos != output.Length {
      return Err(InvalidArgument);
    }
    assert output[..pos] == output[..];
    r := Ok(output[..]);
  }

  /** As much of the stream as fits is in place. */
  ghost predicate Filled(out: Bytes, pos: nat, stream: Bytes) {
    pos == Min(|stream|, |out|) && out[..pos] == stream[..pos]
  }

  method CopyBlock(output: array<Byte>, pos: nat, data: Bytes, ghost stream: Bytes) returns (next: nat)
    requires Filled(output[..], pos, stream)
    modifies output
    ensures Filled(output[..], next, stream + data)
  {
    var len := Min(|data|, output.Length - pos);
    ghost var before := output[..];
    CopyInto(output, pos, data[..len]);
    FilledFurther(before, output[..], pos, data, len, stream);
    next := pos + len;
  }

  lemma FilledFurther(before: Bytes, after: Bytes, pos: nat, data: Bytes, len: nat, stream: Bytes)
    requires Filled(before, pos, stream) && len == Min(|data|, |before| - pos)
    requires after == Overwrite(before, pos, data[..len])
    ensures Filled(after, pos + len, stream + data)
  {
    assert after[..pos + len] == before[..pos] + data[..len];
    if pos < |stream| {
      assert (stream + data)[..pos] == stream[..pos];
      assert before[..pos] + data[..0] == before[..pos];
    } else {
      assert (stream + data)[..pos + len] == stream + data[..len];
      assert stream[..pos] == stream;
    }
  }

  /** The blocks suffice unless their number overflowed. */
  lemma BlocksCover(outLen: nat)
    ensures var n := DivCeil(outLen, BLOCK_SIZE);
            if n < 0x1_0000_0000 then n % 0x1_0000_0000 == n && n * BLOCK_SIZE >= outLen
            else n % 0x1_0000_0000 * BLOCK_SIZE < outLen
  {
  }

  /** What a reader finds in the authenticated input of a block, in this order. */
  ghost predicate IsBlockInput(x: Bytes, purpose: Bytes, context: Bytes, bits: nat, i: nat) {
    && |x| == 4 + |purpose| + 1 + |context| + 4
    && FromBigEndian(x[..4]) == i
    && x[4..4 + |purpose|] == purpose
    && x[4 + |purpose|] == 0
    && x[5 + |purpose|..5 + |purpose| + |context|] == context
    && FromBigEndian(x[|x| - 4..]) == bits
  }

  lemma BlockInputLayout(purpose: Bytes, context: Bytes, bits: nat, i: nat)
    requires bits < 0x1_0000_0000 && i < 0x1_0000_0000
    ensures IsBlockInput(BlockInput(purpose, context, bits, i), purpose, context, bits, i)
  {
    var x := BlockInput(purpose, context, bits, i);
    assert x[..4] == BigEndian(i, 4) && x[|x| - 4..] == BigEndian(bits, 4);
    Pow256Values();
    BigEndianRoundTrip(i, 4);
    BigEndianRoundTrip(bits, 4);
  }

  /** A block of the start of some output, as far as it goes. */
  lemma BlockOfTaken(all: Bytes, outLen: nat, i: nat, len: nat)
    requires outLen <= |all| && (i + 1) * len <= |all| && i * len < outLen
    ensures i * len <= Min((i + 1) * len, outLen)
    ensures all[..outLen][i * len..Min((i + 1) * len, outLen)] <= Block(all, i, len)
  {
    assert (i + 1) * len == i * len + len;
    SliceOfTaken(all, outLen, i * len, (i + 1) * len);
  }

  lemma SliceOfTaken(all: Bytes, outLen: nat, lo: nat, hi: nat)
    requires lo <= hi <= |all| && lo < outLen <= |all|
    ensures all[..outLen][lo..Min(hi, outLen)] <= all[lo..hi]
  {
    var end := Min(hi, outLen);
    assert all[lo..hi] == all[lo..end] + all[end..hi];
  }

  lemma CounterModeBlock(cmac: Cmac, purpose: Bytes, context: Bytes, bits: nat, outLen: nat, i: nat)
    requires AesSized(cmac) && i * BLOCK_SIZE < outLen
    ensures var out := CounterMode(cmac, purpose, context, bits, outLen);
            i * BLOCK_SIZE <= Min((i + 1) * BLOCK_SIZE, outLen)
            && out[i * BLOCK_SIZE..Min((i + 1) * BLOCK_SIZE, outLen)] <= cmac(BlockInput(purpose, context, bits, i + 1))
  {
    var n, block := DivCeil(outLen, BLOCK_SIZE), CounterBlocks(cmac, purpose, context, bits);
    CounterBlocksSized(cmac, purpose, context, bits);
    StreamBlock(block, n, BLOCK_SIZE, i);
    BlockOfTaken(Stream(block, n), outLen, i, BLOCK_SIZE);
  }

  /** Block `i` of the output, counted from zero, is the MAC of its input with counter `i + 1`. */
  lemma CkdfBlocks(cmac: Cmac, purpose: Bytes, context: Bytes, outLen: nat, i: nat) returns (x: Bytes)
    requires AesSized(cmac) && CkdfResult(cmac, purpose, context, outLen).Ok? && i * BLOCK_SIZE < outLen
    ensures var out := CkdfResult(cmac, purpose, context, outLen).value;
            |out| == outLen && i * BLOCK_SIZE <= Min((i + 1) * BLOCK_SIZE, outLen)
            && out[i * BLOCK_SIZE..Min((i + 1) * BLOCK_SIZE, outLen)] <= cmac(x)
    ensures IsBlockInput(x, purpose, context, outLen * 8 % 0x1_0000_0000, i + 1)
  {
    var bits := outLen * 8 % 0x1_0000_0000;
    CounterModeBlock(cmac, purpose, context, bits, outLen, i);
    x := CkdfInput(purpose, context, bits, outLen, i);
  }

  lemma CkdfInput(purpose: Bytes, context: Bytes, bits: nat, outLen: nat, i: nat) returns (x: Bytes)
    requires bits < 0x1_0000_0000 && i * BLOCK_SIZE < outLen && DivCeil(outLen, BLOCK_SIZE) < 0x1_0000_0000
    ensures x == BlockInput(purpose, context, bits, i + 1) && IsBlockInput(x, purpose, context, bits, i + 1)
  {
    assert i + 1 <= DivCeil(outLen, BLOCK_SIZE);
    x := BlockInput(purpose, context, bits, i + 1);
    BlockInputLayout(purpose, context, bits, i + 1);
  }

  /** The authenticated input of a block determines its counter, and the output length up to 2^29. */
  lemma BlockInputsDiffer(purpose: Bytes, context: Bytes, bits: nat, bits': nat, i: nat, i': nat)
    requires bits < 0x1_0000_0000 && bits' < 0x1_0000_0000 && i < 0x1_0000_0000 && i' < 0x1_0000_0000
    requires BlockInput(purpose, context, bits, i) == BlockInput(purpose, context, bits', i')
    ensures i == i' && bits == bits'
  {
    var x, y := BlockInput(purpose, context, bits, i), BlockInput(purpose, context, bits', i');
    assert x[..4] == BigEndian(i, 4) && y[..4] == BigEndian(i', 4);
    assert x[|x| - 4..] == BigEndian(bits, 4) && y[|y| - 4..] == BigEndian(bits', 4);
    Pow256Values();
    BigEndianRoundTrip(i, 4);
    BigEndianRoundTrip(i', 4);
    BigEndianRoundTrip(bits, 4);
    BigEndianRoundTrip(bits', 4);
  }
}
