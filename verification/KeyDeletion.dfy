/** Secure deletion over whole runs of slot operations (common/src/keyblob.rs, common/src/keyblob/sdd_mem.rs): when
    the material of a keyblob can still be recovered, by whatever blob carries its ciphertext. */
module KeyDeletion {
  import opened Base
  import opened KeyParams
  import opened KekInfo
  import opened KeyMaterials
  import opened SlotSpec
  import opened Keyblob
  import Tags

  // ---- Secrets that do not come back ----

  /** No slot other than `i` holds this per-key secret. */
  predicate OnlyAt(s: SlotState, i: nat, key: Bytes) {
    forall j :: 0 <= j < |s.slots| && j != i && s.slots[j].Some? ==> s.slots[j].value.secureDeletionSecret != key
  }

  predicate Nowhere(s: SlotState, key: Bytes) {
    forall j :: 0 <= j < |s.slots| && s.slots[j].Some? ==> s.slots[j].value.secureDeletionSecret != key
  }

  /** The random generator does not draw this per-key secret again ... */
  predicate KeyNotDrawn(ops: seq<SlotOp>, key: Bytes) {
    forall k :: 0 <= k < |ops| && ops[k].Reserve? ==> ops[k].freshKey != key
  }

  /** ... or this factory secret. */
  predicate FactoryNotDrawn(ops: seq<SlotOp>, factory: Bytes) {
    forall k :: 0 <= k < |ops| ==>
      (ops[k].CreateFactory? ==> ops[k].drawn != factory) && (ops[k].Reserve? ==> ops[k].freshFactory != factory)
  }

  lemma {:induction false} GoneStaysGone(s: SlotState, ops: seq<SlotOp>, key: Bytes)
    requires ValidOps(ops) && KeyNotDrawn(ops, key) && Nowhere(s, key)
    ensures Nowhere(Run(s, ops), key)
    decreases ops
  {
    if ops != [] {
      GoneStaysGone(SlotSpec.Step(s, ops[0]), ops[1..], key);
    }
  }

  /** Once its slot is deleted or the device reset, a per-key secret is in no slot. */
  lemma {:induction false} DeletedIsGone(s: SlotState, ops: seq<SlotOp>, i: nat, key: Bytes)
    requires ValidOps(ops) && KeyNotDrawn(ops, key) && OnlyAt(s, i, key) && !Spares(ops, Some(i))
    ensures Nowhere(Run(s, ops), key)
    decreases ops
  {
    var s' := SlotSpec.Step(s, ops[0]);
    if ops[0] == FactoryReset || ops[0] == Delete(i) {
      assert Nowhere(s', key);
      GoneStaysGone(s', ops[1..], key);
    } else {
      assert !Spares(ops[1..], Some(i)) by {
        var k :| 0 <= k < |ops| && (ops[k] == FactoryReset || ops[k] == Delete(i));
        assert ops[1..][k - 1] == ops[k];
      }
      DeletedIsGone(s', ops[1..], i, key);
    }
  }

  lemma {:induction false} OtherFactoryStays(s: SlotState, ops: seq<SlotOp>, factory: Bytes)
    requires ValidOps(ops) && FactoryNotDrawn(ops, factory) && s.factory != Some(factory)
    ensures Run(s, ops).factory != Some(factory)
    decreases ops
  {
    if ops != [] {
      OtherFactoryStays(SlotSpec.Step(s, ops[0]), ops[1..], factory);
    }
  }

  /** Once the device is reset, the factory secret is not the current one. */
  lemma {:induction false} ResetIsGone(s: SlotState, ops: seq<SlotOp>, factory: Bytes)
    requires ValidOps(ops) && FactoryNotDrawn(ops, factory) && !Spares(ops, None)
    ensures Run(s, ops).factory != Some(factory)
    decreases ops
  {
    var s' := SlotSpec.Step(s, ops[0]);
    if ops[0] == FactoryReset {
      OtherFactoryStays(s', ops[1..], factory);
    } else {
      assert !Spares(ops[1..], None) by {
        var k :| 0 <= k < |ops| && ops[k] == FactoryReset;
        assert ops[1..][k - 1] == ops[k];
      }
      ResetIsGone(s', ops[1..], factory);
    }
  }

  /** The run does not draw again what a key with this slot depends on. */
  predicate Unrepeated(ops: seq<SlotOp>, slot: Option<nat>, sdd: SecureDeletionData) {
    if slot.Some? then KeyNotDrawn(ops, sdd.secureDeletionSecret) else FactoryNotDrawn(ops, sdd.factoryResetSecret)
  }

  /** Then no lookup yields those deletion data. */
  lemma UnavailableAfter(s: SlotState, ops: seq<SlotOp>, slot: Option<nat>, sdd: SecureDeletionData, anySlot: Option<nat>)
    requires Coherent(s) && ValidOps(ops) && Unrepeated(ops, slot, sdd) && !Spares(ops, slot)
    requires slot.Some? ==> OnlyAt(s, slot.value, sdd.secureDeletionSecret) && sdd.secureDeletionSecret != Zeros(16)
    ensures SddFor(Some(Run(s, ops)), anySlot) != Ok(Some(sdd))
  {
    RunKeepsCoherent(s, ops);
    if slot.Some? {
      DeletedIsGone(s, ops, slot.value, sdd.secureDeletionSecret);
    } else {
      ResetIsGone(s, ops, sdd.factoryResetSecret);
    }
  }

  // ---- Keyblobs ----

  /** The per-key secret drawn for this key is not zero and in no slot yet. */
  predicate FreshSecret(s: SlotState, key: Bytes) { key != Zeros(16) && Nowhere(s, key) }

  /** An encryption with a fresh secret, and a later run that does not draw its secrets again. */
  ghost predicate Encrypted(s: SlotState, a: EncryptArgs, ops: seq<SlotOp>) {
    && Coherent(s) && ValidDraws(a.draws) && FreshSecret(s, a.draws.key)
    && SizedChars(a.plain.characteristics) && SizedParams(a.hidden)
    && var (m, r) := EncryptSpec(Some(s), a);
    && r.Ok? && m.Some? && ValidOps(ops)
    && var sdd := SddFor(m, r.value.slot);
    && sdd.Ok? && sdd.value.Some? && Unrepeated(ops, r.value.slot, sdd.value.value)
  }

  /** What an encryption sealed the key material with, and the state it left. */
  lemma SealedIn(s: SlotState, a: EncryptArgs) returns (sdd: SecureDeletionData)
    requires EncryptSpec(Some(s), a).1.Ok? && Coherent(s) && ValidDraws(a.draws) && FreshSecret(s, a.draws.key)
    ensures var (m, r) := EncryptSpec(Some(s), a);
            && m.Some? && Coherent(m.value) && SddFor(m, r.value.slot) == Ok(Some(sdd))
            && (r.value.slot.Some? ==> OnlyAt(m.value, r.value.slot.value, sdd.secureDeletionSecret)
                                       && sdd.secureDeletionSecret != Zeros(16))
  {
    var sealed := SealedWith(Some(s), a);
    EncryptKeepsCoherent(s, a);
    sdd := sealed.value;
    if EncryptSpec(Some(s), a).1.value.slot.Some? {
      var (s', reserved) := NewSecret(s, a.draws.factory, a.draws.key);
      assert EncryptSpec(Some(s), a).0 == Some(s');
      assert sdd.secureDeletionSecret == a.draws.key;
    }
  }

  ghost predicate SizedBlob(blob: EncryptedKeyBlob, hidden: seq<KeyParam>) {
    SizedChars(blob.characteristics) && SizedParams(hidden) && |blob.keyDerivationInput| == 32
  }

  /** With ideal primitives, whatever blob carries the ciphertext, with whatever root key, slot, characteristics and
      hidden parameters: it decrypts only as long as the run has neither reset the device nor deleted the key's slot. */
  lemma DecryptsOnlyIfSpared(s: SlotState, a: EncryptArgs, ops: seq<SlotOp>, root: RootKey, blob: EncryptedKeyBlob,
                             hidden: seq<KeyParam>)
    requires Ideal(a.crypto) && Encrypted(s, a, ops) && SizedBlob(blob, hidden)
    requires blob.encryptedKeyMaterial == EncryptSpec(Some(s), a).1.value.encryptedKeyMaterial
    requires Keyblob.Decrypt(Some(Run(EncryptSpec(Some(s), a).0.value, ops)), a.crypto, root, blob, hidden).Ok?
    ensures Spares(ops, EncryptSpec(Some(s), a).1.value.slot)
  {
    var (m, r) := EncryptSpec(Some(s), a);
    var sdd := SealedIn(s, a);
    RunKeepsCoherent(m.value, ops);
    CiphertextIsBound(Some(s), a, Some(Run(m.value, ops)), root, blob, hidden);
    if !Spares(ops, r.value.slot) {
      UnavailableAfter(m.value, ops, r.value.slot, sdd, blob.slot);
    }
  }

  /** So a key can be recovered from its blob after a run exactly if the run spared it. */
  lemma DecryptsExactlyIfSpared(s: SlotState, a: EncryptArgs, ops: seq<SlotOp>)
    requires Ideal(a.crypto) && OpensWhatItSeals(a.crypto) && WellFormed(a.plain.keyMaterial) && Encrypted(s, a, ops)
    ensures var (m, r) := EncryptSpec(Some(s), a);
            Keyblob.Decrypt(Some(Run(m.value, ops)), a.crypto, a.root, r.value, a.hidden).Ok? <==> Spares(ops, r.value.slot)
  {
    var (m, r) := EncryptSpec(Some(s), a);
    if Spares(ops, r.value.slot) {
      DecryptUndoesEncrypt(Some(s), a, ops);
    }
    if Keyblob.Decrypt(Some(Run(m.value, ops)), a.crypto, a.root, r.value, a.hidden).Ok? {
      BlobFields(s, a);
      DecryptsOnlyIfSpared(s, a, ops, a.root, r.value, a.hidden);
    }
  }

  /** Rollback resistance: such a key has a slot, and once this is deleted no blob with its ciphertext decrypts,
      whatever happens before and after. */
  lemma RollbackResistantKeyIsLost(s: SlotState, a: EncryptArgs, ops: seq<SlotOp>, more: seq<SlotOp>, root: RootKey,
                                   blob: EncryptedKeyBlob, hidden: seq<KeyParam>)
    requires EncryptSpec(Some(s), a).1.Ok?
    requires var params := Tags.CharacteristicsAt(a.plain.characteristics, a.level); params.Ok? && Flag(RollbackResistance) in params.value
    requires var slot := EncryptSpec(Some(s), a).1.value.slot;
             slot.Some? ==> Ideal(a.crypto) && Encrypted(s, a, ops + [Delete(slot.value)] + more)
    requires SizedBlob(blob, hidden) && blob.encryptedKeyMaterial == EncryptSpec(Some(s), a).1.value.encryptedKeyMaterial
    ensures EncryptSpec(Some(s), a).1.value.slot.Some?
    ensures var (m, r) := EncryptSpec(Some(s), a);
            var run := ops + [Delete(r.value.slot.value)] + more;
            Keyblob.Decrypt(Some(Run(m.value, run)), a.crypto, root, blob, hidden).Err?
  {
    SuccessfulEncryptTakesOneSlot(s, a);
    var (m, r) := EncryptSpec(Some(s), a);
    var run := ops + [Delete(r.value.slot.value)] + more;
    assert run[|ops|] == Delete(r.value.slot.value);
    if Keyblob.Decrypt(Some(Run(m.value, run)), a.crypto, root, blob, hidden).Ok? {
      DecryptsOnlyIfSpared(s, a, run, root, blob, hidden);
      assert false;
    }
  }

  lemma BlobFields(s: SlotState, a: EncryptArgs)
    requires EncryptSpec(Some(s), a).1.Ok?
    ensures var blob := EncryptSpec(Some(s), a).1.value;
            blob.characteristics == a.plain.characteristics && blob.keyDerivationInput == a.draws.derivation
  {
  }
}
