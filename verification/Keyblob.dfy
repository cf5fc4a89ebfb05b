/** Encrypted keyblobs and their secure deletion slots (common/src/keyblob.rs). */
module Keyblob {
  import opened Base
  import opened KeyParams
  import opened KekInfo
  import opened KeyMaterials
  import opened SlotSpec
  import opened SlotManager
  import Tags

  // ---- Primitives ----

  datatype RootKey = ExplicitRoot(k: Bytes) | OpaqueRoot(k: Bytes)

  /** The primitives as the keyblob code uses them: AES-GCM always runs with a zero nonce and a
      fixed associated-data string, so both are part of `seal` and `open`. */
  datatype BlobCrypto = BlobCrypto(
    kdf: (RootKey, Bytes) -> Result<Bytes>,
    seal: (Bytes, Bytes) -> Result<Bytes>,
    open: (Bytes, Bytes) -> Result<Bytes>)

  ghost predicate OpensWhatItSeals(c: BlobCrypto) {
    forall k, pt :: c.seal(k, pt).Ok? ==> c.open(k, c.seal(k, pt).value) == Ok(pt)
  }

  /** Ideal primitives: derived keys of distinct contexts differ, whatever root keys they come from,
      and a ciphertext opens only under the key that sealed it. */
  ghost predicate Ideal(c: BlobCrypto) {
    && (forall root, root', info, info' ::
          c.kdf(root, info).Ok? && c.kdf(root, info) == c.kdf(root', info') ==> info == info')
    && (forall k, k', pt ::
          c.seal(k, pt).Ok? && c.open(k', c.seal(k, pt).value).Ok? ==> k == k')
  }

  // ---- Blobs ----

  datatype PlaintextKeyBlob =
    PlaintextKeyBlob(characteristics: seq<KeyCharacteristics>, keyMaterial: KeyMaterial)

  datatype EncryptedKeyBlob = EncryptedKeyBlob(
    characteristics: seq<KeyCharacteristics>, keyDerivationInput: Bytes, kekContext: Bytes,
    encryptedKeyMaterial: Bytes, slot: Option<nat>)

  /** Random draws of one encryption. */
  datatype Draws = Draws(factory: Bytes, key: Bytes, derivation: Bytes)

  predicate ValidDraws(d: Draws) { |d.factory| == 32 && |d.key| == 16 && |d.derivation| == 32 }

  /** Allocation failures after the slot has been reserved. */
  datatype AllocFaults = AllocFaults(info: bool, plaintext: bool, context: bool)

  datatype EncryptArgs = EncryptArgs(
    level: SecurityLevel, crypto: BlobCrypto, draws: Draws, root: RootKey, kekContext: Bytes,
    plain: PlaintextKeyBlob, hidden: seq<KeyParam>, faults: AllocFaults)

  predicate NeedsSlot(params: seq<KeyParam>) {
    exists p :: p in params && (p == Flag(RollbackResistance) || p == Uint(UsageCountLimit, 1))
  }

  /** Everything after the slot has been dealt with. */
  function Seal(a: EncryptArgs, sdd: Option<SecureDeletionData>, slot: Option<nat>): Result<EncryptedKeyBlob> {
    var _ :- if a.faults.info then Err(Alloc) else Ok(());
    var kek :- a.crypto.kdf(a.root, Info(KekContext(a.draws.derivation, a.plain.characteristics, a.hidden, sdd)));
    var _ :- if a.faults.plaintext then Err(Alloc) else Ok(());
    var ct :- a.crypto.seal(kek, IntoVec(a.plain.keyMaterial));
    var _ :- if a.faults.context then Err(Alloc) else Ok(());
    Ok(EncryptedKeyBlob(a.plain.characteristics, a.draws.derivation, a.kekContext, ct, slot))
  }

  /** What encryption does to the slots and what it returns. */
  function EncryptSpec(mgr: Option<SlotState>, a: EncryptArgs): (Option<SlotState>, Result<EncryptedKeyBlob>) {
    match Tags.CharacteristicsAt(a.plain.characteristics, a.level)
    case Err(e) => (mgr, Err(e))
    case Ok(params) =>
      match mgr
      case None =>
        (mgr, if NeedsSlot(params) then Err(RollbackResistanceUnavailable) else Seal(a, None, None))
      case Some(s) =>
        if NeedsSlot(params) then
          var (s', reserved) := NewSecret(s, a.draws.factory, a.draws.key);
          match reserved
          case Err(e) => (Some(s'), Err(e))
          case Ok((slot, sdd)) =>
            var r := Seal(a, Some(sdd), Some(slot));
            (Some(if r.Ok? then s' else DeleteSecret(s', slot)), r)
        else
          var s' := WithFactory(s, a.draws.factory);
          (Some(s'), Seal(a, Some(FactorySdd(s').value), None))
  }

  function SddFor(mgr: Option<SlotState>, slot: Option<nat>): Result<Option<SecureDeletionData>> {
    match (slot, mgr)
    case (Some(i), Some(s)) =>
      var sdd :- GetSecret(s, i);
      Ok(Some(sdd))
    case (Some(_), None) => Err(InvalidKeyBlob)
    case (None, Some(s)) =>
      var sdd :- FactorySdd(s);
      Ok(Some(sdd))
    case (None, None) => Ok(None)
  }

  function Decrypt(mgr: Option<SlotState>, crypto: BlobCrypto, root: RootKey, blob: EncryptedKeyBlob,
                   hidden: seq<KeyParam>): Result<PlaintextKeyBlob> {
    var sdd :- SddFor(mgr, blob.slot);
    var kek :- crypto.kdf(root, Info(KekContext(blob.keyDerivationInput, blob.characteristics, hidden, sdd)));
    var pt :- match crypto.open(kek, blob.encryptedKeyMaterial) {
      case Ok(pt) => Ok(pt)
      case Err(_) => Err(InvalidKeyBlob)
    };
    var material :- FromSlice(pt);
    Ok(PlaintextKeyBlob(blob.characteristics, material))
  }

  // ---- Slots are conserved ----

  predicate Occupied(s: SlotState, i: nat) { i < |s.slots| && s.slots[i].Some? }

  /** A failing encryption leaves every slot as it was, wherever it fails. */
  lemma FailedEncryptKeepsSlots(s: SlotState, a: EncryptArgs)
    requires EncryptSpec(Some(s), a).1.Err?
    ensures EncryptSpec(Some(s), a).0.value.slots == s.slots
  {
    var i := FirstFree(s.slots, 0);
    if i < |s.slots| {
      var (s', reserved) := NewSecret(s, a.draws.factory, a.draws.key);
      assert reserved == Ok((i, s'.slots[i].value));
      assert DeleteSecret(s', i).slots == s.slots;
    }
  }

  /** A successful one occupies exactly one more slot if the key is rollback resistant or for a single use, and
      none otherwise; the blob names that slot, and every other slot is untouched. */
  lemma SuccessfulEncryptTakesOneSlot(s: SlotState, a: EncryptArgs)
    requires EncryptSpec(Some(s), a).1.Ok?
    ensures Tags.CharacteristicsAt(a.plain.characteristics, a.level).Ok?
    ensures var (m, r) := EncryptSpec(Some(s), a);
            var params := Tags.CharacteristicsAt(a.plain.characteristics, a.level).value;
            && (r.value.slot.Some? <==> Flag(RollbackResistance) in params || Uint(UsageCountLimit, 1) in params)
            && (r.value.slot.None? ==> m.value.slots == s.slots)
            && (r.value.slot.Some? ==>
                  && var i := r.value.slot.value;
                  && !Occupied(s, i) && Occupied(m.value, i)
                  && m.value.slots == s.slots[i := m.value.slots[i]])
  {
  }

  /** Without slots such keys are refused, and the others get none. */
  lemma EncryptWithoutSlots(a: EncryptArgs)
    requires Tags.CharacteristicsAt(a.plain.characteristics, a.level).Ok?
    ensures var r, params := EncryptSpec(None, a).1, Tags.CharacteristicsAt(a.plain.characteristics, a.level).value;
            && (Flag(RollbackResistance) in params || Uint(UsageCountLimit, 1) in params ==> r == Err(RollbackResistanceUnavailable))
            && (Flag(RollbackResistance) !in params && Uint(UsageCountLimit, 1) !in params ==> r == Seal(a, None, None))
            && (r.Ok? ==> r.value.slot.None?)
  {
  }

  /** And with all slots taken they are refused too. */
  lemma EncryptWithFullSlots(s: SlotState, a: EncryptArgs)
    requires Tags.CharacteristicsAt(a.plain.characteristics, a.level).Ok?
    requires forall i :: 0 <= i < |s.slots| ==> s.slots[i].Some?
    ensures var r, params := EncryptSpec(Some(s), a).1, Tags.CharacteristicsAt(a.plain.characteristics, a.level).value;
            Flag(RollbackResistance) in params || Uint(UsageCountLimit, 1) in params ==> r == Err(RollbackResistanceUnavailable)
  {
    FirstFreeIs(s.slots, |s.slots|);
  }

  /** The shared-factory-secret invariant survives encryption. */
  lemma EncryptKeepsCoherent(s: SlotState, a: EncryptArgs)
    requires Coherent(s) && ValidDraws(a.draws)
    ensures Coherent(EncryptSpec(Some(s), a).0.value)
  {
    var i := FirstFree(s.slots, 0);
    if i < |s.slots| {
      var s' := NewSecret(s, a.draws.factory, a.draws.key).0;
      assert Coherent(s');
      assert Coherent(DeleteSecret(s', i));
    }
  }

  // ---- Decryption undoes encryption ----

  /** The deletion data a fresh blob was sealed with is what decryption looks up afterwards. */
  lemma SealedWith(mgr: Option<SlotState>, a: EncryptArgs) returns (sdd: Option<SecureDeletionData>)
    requires EncryptSpec(mgr, a).1.Ok?
    ensures var (m, r) := EncryptSpec(mgr, a);
            r == Seal(a, sdd, r.value.slot) && SddFor(m, r.value.slot) == Ok(sdd)
    ensures mgr.Some? ==> EncryptSpec(mgr, a).0.Some? && EncryptSpec(mgr, a).0.value.factory.Some?
    ensures sdd.Some? && ValidDraws(a.draws) && Coherent(mgr.value) ==> ValidSdd(sdd.value)
    ensures sdd.Some? <==> mgr.Some?
  {
    var params := Tags.CharacteristicsAt(a.plain.characteristics, a.level).value;
    match mgr {
      case None => sdd := None;
      case Some(s) =>
        if NeedsSlot(params) {
          sdd := Some(NewSecret(s, a.draws.factory, a.draws.key).1.value.1);
        } else {
          sdd := Some(FactorySdd(WithFactory(s, a.draws.factory)).value);
        }
    }
  }

  lemma SealOpens(a: EncryptArgs, sdd: Option<SecureDeletionData>, slot: Option<nat>, mgr: Option<SlotState>)
    requires OpensWhatItSeals(a.crypto) && WellFormed(a.plain.keyMaterial)
    requires Seal(a, sdd, slot).Ok? && SddFor(mgr, slot) == Ok(sdd)
    ensures Decrypt(mgr, a.crypto, a.root, Seal(a, sdd, slot).value, a.hidden) == Ok(a.plain)
  {
    KeyMaterialRoundTrip(a.plain.keyMaterial);
  }

  /** A blob decrypts to what was encrypted, now and after every run of slot operations that
      does not delete its slot or reset the device. */
  lemma DecryptUndoesEncrypt(mgr: Option<SlotState>, a: EncryptArgs, ops: seq<SlotOp>)
    requires OpensWhatItSeals(a.crypto) && WellFormed(a.plain.keyMaterial)
    requires EncryptSpec(mgr, a).1.Ok?
    requires EncryptSpec(mgr, a).0.Some? ==>
               && ValidOps(ops)
               && Spares(ops, EncryptSpec(mgr, a).1.value.slot)
    ensures var (m, r) := EncryptSpec(mgr, a);
            var later := if m.Some? then Some(Run(m.value, ops)) else None;
            Decrypt(later, a.crypto, a.root, r.value, a.hidden) == Ok(a.plain)
  {
    var (m, r) := EncryptSpec(mgr, a);
    var sdd := SealedWith(mgr, a);
    if m.Some? {
      RunSpares(m.value, ops, r.value.slot);
      SealOpens(a, sdd, r.value.slot, Some(Run(m.value, ops)));
    } else {
      SealOpens(a, sdd, r.value.slot, None);
    }
  }

  lemma DecryptedIsWellFormed(mgr: Option<SlotState>, crypto: BlobCrypto, root: RootKey, blob: EncryptedKeyBlob,
                              hidden: seq<KeyParam>)
    requires Decrypt(mgr, crypto, root, blob, hidden).Ok?
    ensures WellFormed(Decrypt(mgr, crypto, root, blob, hidden).value.keyMaterial)
  {
    var sdd := SddFor(mgr, blob.slot).value;
    var kek := crypto.kdf(root, Info(KekContext(blob.keyDerivationInput, blob.characteristics, hidden, sdd))).value;
    FromSliceWellFormed(crypto.open(kek, blob.encryptedKeyMaterial).value);
  }

  /** With its slot empty a blob cannot be decrypted. */
  lemma EmptySlotBlocksDecrypt(s: SlotState, crypto: BlobCrypto, root: RootKey, blob: EncryptedKeyBlob,
                               hidden: seq<KeyParam>)
    requires blob.slot.Some? && !Occupied(s, blob.slot.value)
    ensures Decrypt(Some(s), crypto, root, blob, hidden) == Err(InvalidKeyBlob)
  {
  }

  // ---- Binding ----

  lemma SealShape(a: EncryptArgs, sdd: Option<SecureDeletionData>, slot: Option<nat>)
    requires Seal(a, sdd, slot).Ok?
    ensures var kek := a.crypto.kdf(a.root, Info(KekContext(a.draws.derivation, a.plain.characteristics, a.hidden, sdd)));
            && kek.Ok?
            && a.crypto.seal(kek.value, IntoVec(a.plain.keyMaterial)) == Ok(Seal(a, sdd, slot).value.encryptedKeyMaterial)
  {
  }

  lemma DecryptShape(mgr: Option<SlotState>, crypto: BlobCrypto, root: RootKey, blob: EncryptedKeyBlob,
                     hidden: seq<KeyParam>) returns (sdd: Option<SecureDeletionData>)
    requires Decrypt(mgr, crypto, root, blob, hidden).Ok?
    ensures SddFor(mgr, blob.slot) == Ok(sdd)
    ensures mgr.Some? && Coherent(mgr.value) && sdd.Some? ==> ValidSdd(sdd.value)
    ensures mgr.None? ==> sdd.None?
    ensures var kek := crypto.kdf(root, Info(KekContext(blob.keyDerivationInput, blob.characteristics, hidden, sdd)));
            kek.Ok? && crypto.open(kek.value, blob.encryptedKeyMaterial).Ok?
  {
    sdd := SddFor(mgr, blob.slot).value;
  }

  lemma OpensOnlyInContext(c: BlobCrypto, root: RootKey, root': RootKey, pt: Bytes, sealed: KekContext, shown: KekContext)
    requires Ideal(c) && ValidContext(sealed) && ValidContext(shown)
    requires c.kdf(root, Info(sealed)).Ok? && c.kdf(root', Info(shown)).Ok?
    requires c.seal(c.kdf(root, Info(sealed)).value, pt).Ok?
    requires c.open(c.kdf(root', Info(shown)).value, c.seal(c.kdf(root, Info(sealed)).value, pt).value).Ok?
    ensures sealed == shown
  {
    assert c.kdf(root, Info(sealed)) == c.kdf(root', Info(shown));
    InfoInjective(sealed, shown);
  }

  /** With ideal primitives, a ciphertext decrypts only in the context it was sealed in: the same
      derivation input, characteristics, hidden parameters and deletion secrets, whatever blob
      fields, root key or slot contents are presented with it. */
  lemma CiphertextIsBound(mgr: Option<SlotState>, a: EncryptArgs, later: Option<SlotState>, root: RootKey,
                          blob: EncryptedKeyBlob, hidden: seq<KeyParam>)
    requires Ideal(a.crypto) && ValidDraws(a.draws)
    requires mgr.Some? ==> Coherent(mgr.value)
    requires later.Some? ==> Coherent(later.value)
    requires SizedChars(a.plain.characteristics) && SizedParams(a.hidden)
    requires SizedChars(blob.characteristics) && SizedParams(hidden) && |blob.keyDerivationInput| == 32
    requires EncryptSpec(mgr, a).1.Ok?
    requires blob.encryptedKeyMaterial == EncryptSpec(mgr, a).1.value.encryptedKeyMaterial
    requires Decrypt(later, a.crypto, root, blob, hidden).Ok?
    ensures blob.keyDerivationInput == a.draws.derivation
    ensures blob.characteristics == a.plain.characteristics && hidden == a.hidden
    ensures SddFor(later, blob.slot) == SddFor(EncryptSpec(mgr, a).0, EncryptSpec(mgr, a).1.value.slot)
  {
    var sdd := SealedWith(mgr, a);
    SealShape(a, sdd, EncryptSpec(mgr, a).1.value.slot);
    var sdd' := DecryptShape(later, a.crypto, root, blob, hidden);
    OpensOnlyInContext(a.crypto, a.root, root, IntoVec(a.plain.keyMaterial),
                       KekContext(a.draws.derivation, a.plain.characteristics, a.hidden, sdd),
                       KekContext(blob.keyDerivationInput, blob.characteristics, hidden, sdd'));
  }

  // ---- The code ----

  /** Holder of a reserved slot, which `Drop` gives back unless it was consumed. */
  class SlotHolder {
    const mgr: InMemorySlotManager
    var slot: Option<nat>

    constructor (mgr: InMemorySlotManager, slot: nat)
      ensures this.mgr == mgr && this.slot == Some(slot)
    {
      this.mgr := mgr;
      this.slot := Some(slot);
    }

    method Drop()
      modifies this, mgr.slots
      ensures slot == None
      ensures mgr.State() == if old(slot).Some? then DeleteSecret(old(mgr.State()), old(slot).value) else old(mgr.State())
    {
      if slot.Some? {
        var _ := mgr.DeleteSecret(slot.value);
        slot := None;
      }
    }

    method Consume() returns (s: nat)
      requires slot.Some?
      modifies this
      ensures s == old(slot).value && slot == None
    {
      s := slot.value;
      slot := None;
    }
  }

  function StateOf(mgr: InMemorySlotManager?): Option<SlotState>
    reads mgr, if mgr == null then {} else {mgr.slots}
  {
    if mgr == null then None else Some(mgr.State())
  }

  method DeriveKek(crypto: BlobCrypto, root: RootKey, context: KekContext) returns (kek: Result<Bytes>)
    ensures kek == crypto.kdf(root, Info(context))
  {
    var info := BuildInfo(context);
    kek := crypto.kdf(root, info);
  }

  /** `encrypt`: reserve a slot if one is needed, and release it again on every error below. */
  method Encrypt(mgr: InMemorySlotManager?, a: EncryptArgs) returns (r: Result<EncryptedKeyBlob>)
    modifies if mgr == null then {} else {mgr, mgr.slots}
    ensures (StateOf(mgr), r) == EncryptSpec(old(StateOf(mgr)), a)
  {
    var chars := Tags.CharacteristicsAt(a.plain.characteristics, a.level);
    if chars.Err? {
      return Err(chars.error);
    }
    var holder: SlotHolder? := null;
    var sdd: Option<SecureDeletionData> := None;
    var needsSlot := NeedsSlot(chars.value);
    if needsSlot && mgr != null {
      var reserved := mgr.NewSecret(a.draws.factory, a.draws.key);
      if reserved.Err? {
        return Err(reserved.error);
      }
      holder := new SlotHolder(mgr, reserved.value.0);
      sdd := Some(reserved.value.1);
    } else if needsSlot {
      return Err(RollbackResistanceUnavailable);
    } else if mgr != null {
      var factory := mgr.GetOrCreateFactoryResetSecret(a.draws.factory);
      sdd := Some(factory.value);
    }
    ghost var slot := if holder == null then None else holder.slot;
    var sealed := SealWith(a, sdd, slot);
    if sealed.Err? {
      if holder != null {
        holder.Drop();
      }
      return Err(sealed.error);
    }
    var blobSlot: Option<nat> := None;
    if holder != null {
      var s := holder.Consume();
      blobSlot := Some(s);
    }
    r := Ok(sealed.value.(slot := blobSlot));
  }

  /** The fallible middle of `encrypt`, up to the point where the slot is consumed. */
  method SealWith(a: EncryptArgs, sdd: Option<SecureDeletionData>, ghost slot: Option<nat>)
    returns (r: Result<EncryptedKeyBlob>)
    ensures match Seal(a, sdd, slot) {
              case Ok(blob) => r == Ok(blob.(slot := None))
              case Err(e) => r == Err(e)
            }
  {
    if a.faults.info {
      return Err(Alloc);
    }
    var kek := DeriveKek(a.crypto, a.root, KekContext(a.draws.derivation, a.plain.characteristics, a.hidden, sdd));
    if kek.Err? {
      return Err(kek.error);
    }
    if a.faults.plaintext {
      return Err(Alloc);
    }
    var ct := a.crypto.seal(kek.value, IntoVec(a.plain.keyMaterial));
    if ct.Err? {
      return Err(ct.error);
    }
    if a.faults.context {
      return Err(Alloc);
    }
    r := Ok(EncryptedKeyBlob(a.plain.characteristics, a.draws.derivation, a.kekContext, ct.value, None));
  }
}
