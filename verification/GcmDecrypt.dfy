/** Streaming AES-GCM decryption with a held-back tag (boringssl/src/aes.rs). */
module GcmDecrypt {
  import opened Base

  /** GCM as the operation sees it: a keystream, an authentication tag over additional data and
      ciphertext, and a limit on the amount of ciphertext. */
  datatype GcmCipher = GcmCipher(keystream: nat -> Byte, tag: (Bytes, Bytes) -> Bytes, limit: nat)

  function Pow2(n: nat): nat { if n == 0 then 1 else 2 * Pow2(n - 1) }

  /** Exclusive or of the low `n` bits. */
  function XorBits(a: nat, b: nat, n: nat): (x: nat)
    ensures x < Pow2(n)
  {
    if n == 0 then 0 else (if a % 2 == b % 2 then 0 else 1) + 2 * XorBits(a / 2, b / 2, n - 1)
  }

  function Xor(a: Byte, b: Byte): Byte {
    assert Pow2(4) == 16 && Pow2(8) == 256;
    XorBits(a, b, 8)
  }

  /** Decryption of `x` when `pos` bytes have been decrypted before it. */
  function Plain(c: GcmCipher, pos: nat, x: Bytes): (p: Bytes)
    ensures |p| == |x|
  {
    seq(|x|, i requires 0 <= i < |x| => Xor(x[i], c.keystream(pos + i)))
  }

  predicate TagMatches(c: GcmCipher, aad: Bytes, ct: Bytes, t: Bytes) {
    |t| <= |c.tag(aad, ct)| && c.tag(aad, ct)[..|t|] == t
  }

  lemma PlainJoins(c: GcmCipher, pos: nat, x: Bytes, y: Bytes)
    ensures Plain(c, pos, x + y) == Plain(c, pos, x) + Plain(c, pos + |x|, y)
  {
  }

  // ---- What the buffering achieves ----

  /** Of all input so far, what may be fed to the cipher: everything but the last `n` bytes. */
  function Fed(total: Bytes, n: nat): Bytes {
    if |total| <= n then [] else total[..|total| - n]
  }

  /** And what must be held back, in case it is the tag: the last `n` bytes. */
  function Held(total: Bytes, n: nat): Bytes {
    if |total| <= n then total else total[|total| - n..]
  }

  /** Ciphertext that becomes available when the input grows from `total` by `data`. */
  function Released(total: Bytes, data: Bytes, n: nat): (r: Bytes)
    ensures Fed(total + data, n) == Fed(total, n) + r
  {
    var r := Fed(total + data, n)[|Fed(total, n)|..];
    assert Fed(total + data, n)[..|Fed(total, n)|] == Fed(total, n);
    r
  }

  function Emitted(c: GcmCipher, n: nat, total: Bytes, data: Bytes): Bytes {
    Plain(c, |Fed(total, n)|, Released(total, data, n))
  }

  /** Ciphertext followed by tag, decrypted in one go. */
  function OneShot(c: GcmCipher, n: nat, aad: Bytes, input: Bytes): Result<Bytes> {
    if |input| < n then Err(InvalidTag)
    else if |Fed(input, n)| > c.limit then Err(UnknownError)
    else if TagMatches(c, aad, Fed(input, n), Held(input, n)) then Ok(Plain(c, 0, Fed(input, n)))
    else Err(VerificationFailed)
  }

  /** Being a split of the input with the right amount held back determines both parts. */
  lemma SplitUnique(fed: Bytes, held: Bytes, n: nat)
    requires |held| == Min(|fed| + |held|, n)
    ensures Fed(fed + held, n) == fed && Held(fed + held, n) == held
  {
  }

  lemma Cancel(x: Bytes, y: Bytes, z: Bytes)
    requires x + y == x + z
    ensures y == z
  {
    assert (x + y)[|x|..] == y && (x + z)[|x|..] == z;
  }

  lemma ReleasedIs(total: Bytes, data: Bytes, n: nat, r: Bytes)
    requires Fed(total + data, n) == Fed(total, n) + r
    ensures Released(total, data, n) == r
  {
    Cancel(Fed(total, n), Released(total, data, n), r);
  }

  lemma ReleasedJoins(total: Bytes, a: Bytes, b: Bytes, n: nat)
    ensures Released(total, a + b, n) == Released(total, a, n) + Released(total + a, b, n)
    ensures |Fed(total + a, n)| == |Fed(total, n)| + |Released(total, a, n)|
  {
    var f, r, r' := Fed(total, n), Released(total, a, n), Released(total + a, b, n);
    assert total + (a + b) == total + a + b;
    assert f + (r + r') == f + r + r';
    ReleasedIs(total, a + b, n, r + r');
  }

  /** Two updates emit together what one update with the joined data emits. */
  lemma EmittedJoins(c: GcmCipher, n: nat, total: Bytes, a: Bytes, b: Bytes)
    ensures Emitted(c, n, total, a) + Emitted(c, n, total + a, b) == Emitted(c, n, total, a + b)
  {
    ReleasedJoins(total, a, b, n);
    PlainJoins(c, |Fed(total, n)|, Released(total, a, n), Released(total + a, b, n));
  }

  /** Cutting the end of `x` and the start of `y` around a common point. */
  lemma CutTwice(x: Bytes, y: Bytes, i: nat, j: nat)
    requires i <= |x| && j <= |y| && (j == 0 || i == |x|)
    ensures (x[..i] + y[..j]) + (x[i..] + y[j..]) == x + y
  {
    if j == 0 {
      assert x[..i] + y[..0] == x[..i] && y[0..] == y;
    } else {
      assert x[i..] + y[j..] == y[j..] && x[..i] == x;
    }
  }

  /** How the held bytes and the new data make up the released and the newly held bytes. */
  lemma SplitInput(total: Bytes, data: Bytes, n: nat, fromPending: nat, fromData: nat)
    requires |Held(total, n)| + |data| > n
    requires fromPending == Min(|Held(total, n)| + |data| - n, |Held(total, n)|)
    requires fromData == |Held(total, n)| + |data| - n - fromPending
    ensures fromData <= |data| && fromPending + fromData <= |data|
    ensures Released(total, data, n) == Held(total, n)[..fromPending] + data[..fromData]
    ensures Held(total + data, n) == Held(total, n)[fromPending..] + data[fromData..]
  {
    var f, held := Fed(total, n), Held(total, n);
    var out, kept := held[..fromPending] + data[..fromData], held[fromPending..] + data[fromData..];
    assert total + data == f + out + kept by {
      assert total == f + held;
      CutTwice(held, data, fromPending, fromData);
      assert f + held + data == f + (held + data);
      assert f + (out + kept) == f + out + kept;
    }
    SplitUnique(f + out, kept, n);
    ReleasedIs(total, data, n, out);
  }

  // ---- The operation ----

  class Operation {
    const cipher: GcmCipher
    const tagLen: nat
    /** The crypter: additional data and ciphertext it has been given. */
    var aad: Bytes
    var fed: Bytes
    /** `pending_input_tail`: a vector of capacity `tagLen` and current length `tailLen`. */
    const tail: array<Byte>
    var tailLen: nat
    /** All input so far. */
    ghost var total: Bytes

    ghost predicate Valid()
      reads this, tail
    {
      && tail.Length == tagLen && tailLen <= tagLen
      && fed == Fed(total, tagLen)
      && tail[..tailLen] == Held(total, tagLen)
      && |fed| <= cipher.limit
    }

    constructor (cipher: GcmCipher, tagLen: nat)
      ensures Valid() && fresh(tail) && total == [] && aad == []
      ensures this.cipher == cipher && this.tagLen == tagLen
    {
      this.cipher, this.tagLen := cipher, tagLen;
      aad, fed, total := [], [], [];
      tail := new Byte[tagLen](_ => 0);
      tailLen := 0;
    }

    method UpdateAad(data: Bytes)
      requires Valid()
      modifies this`aad
      ensures Valid() && aad == old(aad) + data
    {
      aad := aad + data;
    }

    /** `Crypter::update` writing to an output slice of `room` bytes; too little room panics. */
    method Crypt(input: Bytes, room: nat) returns (r: Result<Bytes>)
      requires |input| <= room
      modifies this`fed
      ensures r.Ok? <==> |old(fed)| + |input| <= cipher.limit
      ensures r.Ok? ==> fed == old(fed) + input && r.value == Plain(cipher, |old(fed)|, input)
      ensures r.Err? ==> fed == old(fed)
    {
      if |fed| + |input| > cipher.limit {
        return Err(UnknownError);
      }
      r := Ok(Plain(cipher, |fed|, input));
      fed := fed + input;
    }

    method Update(data: Bytes) returns (r: Result<Bytes>)
      requires Valid()
      modifies this`fed, this`tailLen, this`total, tail
      ensures r.Ok? <==> |Fed(old(total) + data, tagLen)| <= cipher.limit
      ensures r.Ok? ==> Valid() && total == old(total) + data
      ensures r.Ok? ==> r.value == Emitted(cipher, tagLen, old(total), data)
    {
      var combinedLen := tailLen + |data|;
      if combinedLen <= tagLen {
        // Not more than a tag's worth yet: keep it all.
        Extend(data);
        total := total + data;
        return Ok([]);
      }
      var cipherableLen := combinedLen - tagLen;
      var fromPending := Min(cipherableLen, tailLen);
      var fromData := cipherableLen - fromPending;
      SplitInput(total, data, tagLen, fromPending, fromData);
      assert tail[..fromPending] == Held(total, tagLen)[..fromPending];
      r := Feed(tail[..fromPending], data[..fromData], |data|);
      if r.Ok? {
        assert tail[fromPending..tailLen] == Held(total, tagLen)[fromPending..];
        Rotate(fromPending, data[fromData..]);
        total := total + data;
        assert tail[..tailLen] == tail[..];
      }
    }

    /** Feed the cipher from the held bytes, then from the new data, into one output buffer. */
    method Feed(pending: Bytes, data: Bytes, room: nat) returns (r: Result<Bytes>)
      requires |pending| + |data| <= room && |fed| <= cipher.limit
      modifies this`fed
      ensures r.Ok? <==> |old(fed)| + |pending| + |data| <= cipher.limit
      ensures r.Ok? ==> fed == old(fed) + (pending + data)
      ensures r.Ok? ==> r.value == Plain(cipher, |old(fed)|, pending + data)
    {
      PlainJoins(cipher, |fed|, pending, data);
      var output: Bytes := [];
      if |pending| > 0 {
        var out := Crypt(pending, room);
        if out.Err? {
          return out;
        }
        output := out.value;
      }
      if |data| > 0 {
        var out := Crypt(data, room - |output|);
        if out.Err? {
          return out;
        }
        output := output + out.value;
      }
      r := Ok(output);
    }

    /** `extend_from_slice` within the capacity. */
    method Extend(data: Bytes)
      requires tailLen + |data| <= tail.Length
      modifies this`tailLen, tail
      ensures tailLen == old(tailLen) + |data|
      ensures tail[..tailLen] == old(tail[..tailLen]) + data
    {
      forall i | 0 <= i < |data| {
        tail[tailLen + i] := data[i];
      }
      tailLen := tailLen + |data|;
    }

    /** `resize` up to the capacity, filling with zeroes. */
    method Resize()
      requires tailLen <= tail.Length
      modifies this`tailLen, tail
      ensures tailLen == tail.Length
      ensures forall i :: 0 <= i < old(tailLen) ==> tail[i] == old(tail[i])
      ensures forall i :: old(tailLen) <= i < tail.Length ==> tail[i] == 0
    {
      forall i | tailLen <= i < tail.Length {
        tail[i] := 0;
      }
      tailLen := tail.Length;
    }

    /** `copy_within(from.., 0)`: move everything from index `from` to the front. */
    method CopyWithin(from: nat)
      requires from <= tailLen == tail.Length
      modifies tail
      ensures forall i :: 0 <= i < tail.Length - from ==> tail[i] == old(tail[i + from])
    {
      forall i | 0 <= i < tail.Length - from {
        tail[i] := tail[i + from];
      }
    }

    /** `copy_from_slice` into the part from index `at`, which must have the same length. */
    method CopyFromSlice(at: nat, more: Bytes)
      requires tailLen == tail.Length == at + |more|
      modifies tail
      ensures forall i :: 0 <= i < at ==> tail[i] == old(tail[i])
      ensures forall i :: 0 <= i < |more| ==> tail[at + i] == more[i]
    {
      forall i | at <= i < tail.Length {
        tail[i] := more[i - at];
      }
    }

    /** Drop the first `used` held bytes and top up with `more`. */
    method Rotate(used: nat, more: Bytes)
      requires used <= tailLen <= tail.Length && tailLen - used + |more| == tail.Length
      modifies this`tailLen, tail
      ensures tailLen == tail.Length
      ensures tail[..] == old(tail[used..tailLen]) + more
    {
      var leftover := tailLen - used;
      Resize();
      CopyWithin(used);
      assert forall i :: 0 <= i < leftover ==> tail[i] == old(tail[used..tailLen])[i];
      CopyFromSlice(leftover, more);
      assert forall i :: leftover <= i < tail.Length ==> tail[i] == more[i - leftover] by {
        forall i | leftover <= i < tail.Length ensures tail[i] == more[i - leftover] {
          assert tail[leftover + (i - leftover)] == more[i - leftover];
        }
      }
    }

    method Finish() returns (r: Result<Bytes>)
      requires Valid()
      ensures r == if |total| < tagLen then Err(InvalidTag)
                   else if TagMatches(cipher, aad, Fed(total, tagLen), Held(total, tagLen)) then Ok([])
                   else Err(VerificationFailed)
    {
      if tailLen != tagLen {
        return Err(InvalidTag);
      }
      r := if TagMatches(cipher, aad, fed, tail[..tailLen]) then Ok([]) else Err(VerificationFailed);
    }
  }

  lemma {:induction false} XorBitsCancels(a: nat, k: nat, n: nat)
    requires a < Pow2(n)
    ensures XorBits(XorBits(a, k, n), k, n) == a
  {
    if n > 0 {
      XorBitsCancels(a / 2, k / 2, n - 1);
      var x, y := XorBits(a, k, n), XorBits(a / 2, k / 2, n - 1);
      assert x / 2 == y && x % 2 == if a % 2 == k % 2 then 0 else 1;
    }
  }

  lemma XorCancels(a: Byte, k: Byte)
    ensures Xor(Xor(a, k), k) == a
  {
    assert Pow2(4) == 16 && Pow2(8) == 256;
    XorBitsCancels(a, k, 8);
  }

  /** Decryption in one go undoes encryption: ciphertext and tag of a message give it back. */
  lemma OneShotUndoesEncryption(c: GcmCipher, n: nat, aad: Bytes, message: Bytes)
    requires |message| <= c.limit
    requires n <= |c.tag(aad, Plain(c, 0, message))|
    ensures var ct := Plain(c, 0, message);
            OneShot(c, n, aad, ct + c.tag(aad, ct)[..n]) == Ok(message)
  {
    var ct := Plain(c, 0, message);
    SplitUnique(ct, c.tag(aad, ct)[..n], n);
    forall i | 0 <= i < |message| ensures Plain(c, 0, ct)[i] == message[i] {
      XorCancels(message[i], c.keystream(i));
    }
    assert Plain(c, 0, ct) == message;
  }

  /** One more chunk: the input grows by it, so does the plaintext, and the whole input releases
      at least as much. */
  lemma ChunkStep(c: GcmCipher, n: nat, chunks: seq<Bytes>, i: nat)
    requires i < |chunks|
    ensures Flatten(chunks[..i + 1]) == Flatten(chunks[..i]) + chunks[i]
    ensures Plain(c, 0, Fed(Flatten(chunks[..i + 1]), n))
            == Plain(c, 0, Fed(Flatten(chunks[..i]), n)) + Emitted(c, n, Flatten(chunks[..i]), chunks[i])
    ensures |Fed(Flatten(chunks[..i + 1]), n)| <= |Fed(Flatten(chunks), n)|
    ensures |Flatten(chunks[..i + 1])| <= |Flatten(chunks)|
  {
    assert chunks[..i + 1] == chunks[..i] + [chunks[i]];
    FlattenAppend(chunks[..i], chunks[i]);
    var before := Flatten(chunks[..i]);
    PlainJoins(c, 0, Fed(before, n), Released(before, chunks[i], n));
    FlattenPrefix(chunks, i + 1);
  }

  /** However the input is cut into chunks, feeding them one by one and finishing gives what
      decrypting the whole input at once gives. */
  method DecryptChunks(cipher: GcmCipher, tagLen: nat, aad: Bytes, chunks: seq<Bytes>) returns (r: Result<Bytes>)
    ensures r == OneShot(cipher, tagLen, aad, Flatten(chunks))
  {
    var op := new Operation(cipher, tagLen);
    op.UpdateAad(aad);
    assert op.aad == aad;
    var output: Bytes := [];
    for i := 0 to |chunks|
      invariant op.Valid() && fresh(op) && fresh(op.tail)
      invariant op.aad == aad && op.cipher == cipher && op.tagLen == tagLen
      invariant op.total == Flatten(chunks[..i])
      invariant output == Plain(cipher, 0, op.fed)
    {
      ChunkStep(cipher, tagLen, chunks, i);
      var out := op.Update(chunks[i]);
      if out.Err? {
        return Err(UnknownError);
      }
      output := output + out.value;
    }
    assert chunks[..|chunks|] == chunks;
    var last := op.Finish();
    if last.Err? {
      return last;
    }
    assert output + last.value == output;
    r := Ok(output + last.value);
  }

  lemma {:induction false} FlattenPrefix(chunks: seq<Bytes>, i: nat)
    requires i <= |chunks|
    ensures Flatten(chunks) == Flatten(chunks[..i]) + Flatten(chunks[i..])
  {
    if i == 0 {
      assert chunks[0..] == chunks;
    } else {
      FlattenPrefix(chunks[1..], i - 1);
      assert chunks[..i][1..] == chunks[1..][..i - 1];
      assert chunks[1..][i - 1..] == chunks[i..];
    }
  }
}
