/** Two concrete runs on a device with ideal primitives and one slot: a single-use key that completes twice, and a key
    that loses its slot to an operation on the key that had it before. */
module SingleUseRun {
  import opened Base
  import opened KeyParams
  import opened KekInfo
  import opened KeyMaterials
  import opened Auth
  import opened OperationSpec
  import opened OperationRuns
  import opened Keyblob
  import opened KeyDeletion
  import opened SlotRuns
  import opened SingleUse
  import PresenceRuns
  import SlotSpec
  import Tags

  // ---- Ideal primitives exist ----

  /** A key in front of its plaintext, so that no key's form starts that of another. */
  function Headed(k: Bytes): Bytes { seq(|k|, _ => 1) + [0] + k }

  lemma HeadedPrefix(k: Bytes, k': Bytes, pt: Bytes)
    requires Headed(k') <= Headed(k) + pt
    ensures k == k'
  {
    var x := Headed(k) + pt;
    assert forall j :: 0 <= j < |k| ==> x[j] == 1;
    assert forall j :: 0 <= j < |k'| ==> Headed(k')[j] == 1;
    assert x[|k|] == 0 && Headed(k')[|k'|] == 0;
    assert |k| == |k'|;
    assert x[|k| + 1..|k| + 1 + |k|] == k && Headed(k')[|k'| + 1..] == k';
  }

  function Primitives(): BlobCrypto {
    BlobCrypto((root, info) => Ok(info), (k, pt) => Ok(Headed(k) + pt),
               (k, ct) => if Headed(k) <= ct then Ok(ct[|Headed(k)|..]) else Err(VerificationFailed))
  }

  lemma PrimitivesAreIdeal()
    ensures Ideal(Primitives()) && OpensWhatItSeals(Primitives())
  {
    var c := Primitives();
    forall k, k', pt | c.seal(k, pt).Ok? && c.open(k', c.seal(k, pt).value).Ok? ensures k == k' {
      HeadedPrefix(k, k', pt);
    }
    forall k, pt | c.seal(k, pt).Ok? ensures c.open(k, c.seal(k, pt).value) == Ok(pt) {
      assert (Headed(k) + pt)[|Headed(k)|..] == pt;
    }
  }

  // ---- The device and its keys ----

  function Phone(): Device<Bytes> {
    Device(PresenceRuns.EchoConfig().(capacity := 2), Primitives(), _ => Ok(ExplicitRoot([])), TrustedEnvironment)
  }

  const ONCE: seq<KeyParam> := [Uint(UsageCountLimit, 1)]

  /** The encryption of a single-use key with this byte in its secret. */
  function Encryption(byte: Byte): EncryptArgs {
    EncryptArgs(TrustedEnvironment, Primitives(), Draws(Zeros(32), seq(16, _ => byte), Zeros(32)), ExplicitRoot([]), [],
                PlaintextKeyBlob([KeyCharacteristics(TrustedEnvironment, ONCE)], HmacKey(Explicit([byte]))), [],
                AllocFaults(false, false, false))
  }

  /** One slot, empty, with the factory secret already drawn. */
  const EMPTY := SlotSpec.SlotState(Some(Zeros(32)), [None])

  function Taken(byte: Byte): SlotSpec.SlotState {
    SlotSpec.SlotState(Some(Zeros(32)), [Some(SecureDeletionData(Zeros(32), seq(16, _ => byte)))])
  }

  function BlobOf(byte: Byte): EncryptedKeyBlob {
    var r := EncryptSpec(Some(EMPTY), Encryption(byte)).1;
    if r.Ok? then r.value else EncryptedKeyBlob([], [], [], [], None)
  }

  lemma OnceIsSingleUse()
    ensures SlotRuns.SingleUse(ONCE) && NeedsSlot(ONCE)
    ensures Tags.GetBoolTagValue(ONCE, TrustedConfirmationRequired) == Ok(false)
    ensures Tags.GetBoolTagValue(ONCE, TrustedUserPresenceRequired) == Ok(false)
    ensures RequiredAuth(ONCE) == Ok(None)
  {
    assert Tags.Select(ONCE, UsageCountLimitOf) == [1];
    SingleUseNeedsSlot(ONCE);
  }

  lemma Seals(a: EncryptArgs, sdd: Option<SecureDeletionData>, slot: Option<nat>)
    requires a.crypto == Primitives() && a.faults == AllocFaults(false, false, false)
    ensures Seal(a, sdd, slot).Ok?
    ensures var blob := Seal(a, sdd, slot).value;
            && blob.characteristics == a.plain.characteristics && blob.keyDerivationInput == a.draws.derivation
            && blob.kekContext == a.kekContext && blob.slot == slot
  {
  }

  lemma Encrypts(s: SlotSpec.SlotState, a: EncryptArgs, sdd: SecureDeletionData)
    requires a.crypto == Primitives() && a.faults == AllocFaults(false, false, false)
    requires Tags.CharacteristicsAt(a.plain.characteristics, a.level) == Ok(ONCE) && NeedsSlot(ONCE)
    requires |s.slots| == 1 && s.slots[0] == None && s.factory == Some(sdd.factoryResetSecret) && a.draws.key == sdd.secureDeletionSecret
    ensures EncryptSpec(Some(s), a) == (Some(s.(slots := [Some(sdd)])), Seal(a, Some(sdd), Some(0)))
  {
    SlotSpec.FirstFreeIs(s.slots, 0);
    Seals(a, Some(sdd), Some(0));
    assert s.slots[0 := Some(sdd)] == [Some(sdd)];
  }

  lemma OnceAtLevel()
    ensures Tags.CharacteristicsAt([KeyCharacteristics(TrustedEnvironment, ONCE)], TrustedEnvironment) == Ok(ONCE)
  {
    assert Tags.AtLevel([KeyCharacteristics(TrustedEnvironment, ONCE)], TrustedEnvironment) == [ONCE];
  }

  lemma KeyIsMade(byte: Byte)
    ensures EncryptSpec(Some(EMPTY), Encryption(byte)) == (Some(Taken(byte)), Ok(BlobOf(byte))) && BlobOf(byte).slot == Some(0)
    ensures SizedBlob(BlobOf(byte), []) && BlobOf(byte).kekContext == []
    ensures Tags.CharacteristicsAt(BlobOf(byte).characteristics, TrustedEnvironment) == Ok(ONCE)
  {
    OnceIsSingleUse();
    OnceAtLevel();
    var sdd := SecureDeletionData(Zeros(32), seq(16, _ => byte));
    Encrypts(EMPTY, Encryption(byte), sdd);
    Seals(Encryption(byte), Some(sdd), Some(0));
  }

  lemma KeyOpens(byte: Byte)
    ensures Keyblob.Decrypt(Some(Taken(byte)), Primitives(), ExplicitRoot([]), BlobOf(byte), []) == Ok(Encryption(byte).plain)
    ensures Parse(Phone(), Taken(byte), BlobOf(byte), []) == Ok(ONCE)
  {
    KeyIsMade(byte);
    PrimitivesAreIdeal();
    DecryptUndoesEncrypt(Some(EMPTY), Encryption(byte), []);
  }

  // ---- Events ----

  function BeginOf(h: I64, blob: EncryptedKeyBlob): Event<Bytes> {
    Begun(BeginCall(Ok(()), [], true, None, None, 0, h, Ok(BegunCrypto(HmacSignOp(32), None, [])), PresenceRuns.AbsentEnv()), blob, [])
  }

  function FinishOf(h: I64): Event<Bytes> {
    Called(FinishCalled(OpArgs(h, None, None, PresenceRuns.AbsentEnv()), FinishArgs(None, None, None)))
  }

  /** A key with this byte in its secret takes the slot. */
  function Another(byte: Byte): Event<Bytes> { Managed(SlotSpec.Reserve(Zeros(32), seq(16, _ => byte))) }

  function OpOf(h: I64): Operation<Bytes> { Operation(h, false, Some(0), None, None, HmacSignOp(32), None, [], 0) }

  function Made(slots: SlotSpec.SlotState): World<Bytes> { World(Initial(), slots, map[], []) }

  function OneBegun(slots: SlotSpec.SlotState, ct: Bytes): World<Bytes> {
    World(TaState(map[1 := OpOf(1)], None, []), slots, map[1 := ct], [])
  }

  function BothBegun(slots: SlotSpec.SlotState, ct: Bytes): World<Bytes> {
    World(TaState(map[1 := OpOf(1), 2 := OpOf(2)], None, []), slots, map[1 := ct, 2 := ct], [])
  }

  function OneDone(slots: SlotSpec.SlotState, ct: Bytes): World<Bytes> {
    World(TaState(map[2 := OpOf(2)], None, [0]), slots, map[1 := ct, 2 := ct], [ct])
  }

  function BothDone(slots: SlotSpec.SlotState, ct: Bytes): World<Bytes> {
    World(TaState(map[], None, [0, 0]), slots, map[1 := ct, 2 := ct], [ct, ct])
  }

  // ---- Moves ----

  lemma BeginMoves(w: World<Bytes>, h: I64, blob: EncryptedKeyBlob)
    requires |w.ta.ops| < 2 && w.ta.presence == None && blob.slot == Some(0) && Parse(Phone(), w.slots, blob, []) == Ok(ONCE)
    ensures BeginMove(Phone(), w, BeginOf(h, blob).b, blob, []) ==
            (w.(ta := w.ta.(ops := w.ta.ops[h := OpOf(h)]), keys := w.keys[h := blob.encryptedKeyMaterial]), true)
  {
    OnceIsSingleUse();
  }

  lemma FinishSucceeds(s: TaState<Bytes>, h: I64)
    requires h in s.ops && s.ops[h] == OpOf(h) && s.presence == None
    ensures Finish(Phone().cfg, s, FinishOf(h).c.a, FinishOf(h).c.f) ==
            (TaState(s.ops - {h}, None, s.deletedSlots + [0]), Ok([]))
  {
  }

  /** A finish takes the operation out, empties the slot and is recorded. */
  lemma FinishMoves(w: World<Bytes>, h: I64)
    requires h in w.ta.ops && w.ta.ops[h] == OpOf(h) && w.ta.presence == None && h in w.keys && |w.slots.slots| == 1
    ensures CallMove(Phone(), w, FinishOf(h).c) ==
            (World(TaState(w.ta.ops - {h}, None, w.ta.deletedSlots + [0]), w.slots.(slots := [None]), w.keys,
                   w.completed + [w.keys[h]]), true)
  {
    FinishSucceeds(w.ta, h);
    assert w.slots.slots[0 := None] == [None];
  }

  lemma FirstFinishMoves(slots: SlotSpec.SlotState, ct: Bytes)
    requires |slots.slots| == 1
    ensures CallMove(Phone(), BothBegun(slots, ct), FinishOf(1).c) == (OneDone(slots.(slots := [None]), ct), true)
  {
    FinishMoves(BothBegun(slots, ct), 1);
    assert [] + [0] == [0] && [] + [ct] == [ct];
    assert map[1 := OpOf(1), 2 := OpOf(2)] - {1} == map[2 := OpOf(2)];
  }

  lemma SecondFinishMoves(slots: SlotSpec.SlotState, ct: Bytes)
    requires |slots.slots| == 1
    ensures CallMove(Phone(), OneDone(slots, ct), FinishOf(2).c) == (BothDone(slots.(slots := [None]), ct), true)
  {
    FinishMoves(OneDone(slots, ct), 2);
    assert [0] + [0] == [0, 0] && [ct] + [ct] == [ct, ct];
    assert map[2 := OpOf(2)] - {2} == map[];
  }

  lemma BeginsMove(slots: SlotSpec.SlotState, blob: EncryptedKeyBlob)
    requires blob.slot == Some(0) && Parse(Phone(), slots, blob, []) == Ok(ONCE)
    ensures BeginMove(Phone(), Made(slots), BeginOf(1, blob).b, blob, []) == (OneBegun(slots, blob.encryptedKeyMaterial), true)
    ensures BeginMove(Phone(), OneBegun(slots, blob.encryptedKeyMaterial), BeginOf(2, blob).b, blob, []) ==
            (BothBegun(slots, blob.encryptedKeyMaterial), true)
  {
    BeginMoves(Made(slots), 1, blob);
    BeginMoves(OneBegun(slots, blob.encryptedKeyMaterial), 2, blob);
  }

  /** Two operations begin, the first one finishes, and then `last` happens. */
  function Story(blob: EncryptedKeyBlob, last: Event<Bytes>): seq<Event<Bytes>> {
    [BeginOf(1, blob), BeginOf(2, blob), FinishOf(1), last]
  }

  lemma MovesFirst<S>(d: Device<S>, w: World<S>, e: Event<S>, es: seq<Event<S>>)
    requires ValidEvent(e) && ValidEvents(es)
    ensures ValidEvents([e] + es) && Moves(d, w, [e] + es) == Moves(d, Move(d, w, e).0, es)
  {
    assert ([e] + es)[1..] == es;
  }

  lemma FourMoves<S>(d: Device<S>, w: World<S>, e1: Event<S>, e2: Event<S>, e3: Event<S>, e4: Event<S>)
    requires ValidEvent(e1) && ValidEvent(e2) && ValidEvent(e3) && ValidEvent(e4)
    ensures ValidEvents([e1, e2, e3, e4])
    ensures Moves(d, w, [e1, e2, e3, e4]) == Move(d, Move(d, Move(d, Move(d, w, e1).0, e2).0, e3).0, e4).0
  {
    var w1 := Move(d, w, e1).0;
    var w2 := Move(d, w1, e2).0;
    var w3 := Move(d, w2, e3).0;
    MovesFirst(d, w3, e4, []);
    MovesFirst(d, w2, e3, [e4] + []);
    MovesFirst(d, w1, e2, [e3] + ([e4] + []));
    MovesFirst(d, w, e1, [e2] + ([e3] + ([e4] + [])));
    assert [e1] + ([e2] + ([e3] + ([e4] + []))) == [e1, e2, e3, e4];
  }

  lemma StoryMoves(slots: SlotSpec.SlotState, blob: EncryptedKeyBlob, last: Event<Bytes>)
    requires blob.slot == Some(0) && Parse(Phone(), slots, blob, []) == Ok(ONCE) && SizedBlob(blob, []) && ValidEvent(last)
    requires |slots.slots| == 1
    ensures ValidEvents(Story(blob, last))
    ensures Moves(Phone(), Made(slots), Story(blob, last)) ==
            Move(Phone(), OneDone(slots.(slots := [None]), blob.encryptedKeyMaterial), last).0
  {
    var d, ct := Phone(), blob.encryptedKeyMaterial;
    var b1, b2, f1 := BeginOf(1, blob), BeginOf(2, blob), FinishOf(1);
    BeginsMove(slots, blob);
    FirstFinishMoves(slots, ct);
    FourMoves(d, Made(slots), b1, b2, f1, last);
  }

  lemma FreshByte(byte: Byte)
    requires byte != 0
    ensures FreshSecret(EMPTY, Encryption(byte).draws.key)
  {
    assert Encryption(byte).draws.key[0] != Zeros(16)[0];
  }

  lemma SealedBy(a: EncryptArgs, w: World<Bytes>, blob: EncryptedKeyBlob)
    requires a.crypto == Primitives() && a.level == TrustedEnvironment && Ideal(Primitives())
    requires ValidDraws(a.draws) && FreshSecret(EMPTY, a.draws.key) && SizedChars(a.plain.characteristics) && a.hidden == []
    requires Tags.CharacteristicsAt(a.plain.characteristics, a.level) == Ok(ONCE) && SlotRuns.SingleUse(ONCE)
    requires EncryptSpec(Some(EMPTY), a) == (Some(w.slots), Ok(blob)) && w.keys == map[]
    ensures Sealed(Phone(), EMPTY, a, w)
  {
  }

  lemma KeyIsSealed(byte: Byte)
    requires byte != 0
    ensures Sealed(Phone(), EMPTY, Encryption(byte), Made(Taken(byte)))
  {
    KeyIsMade(byte);
    OnceIsSingleUse();
    OnceAtLevel();
    PrimitivesAreIdeal();
    FreshByte(byte);
    SealedBy(Encryption(byte), Made(Taken(byte)), BlobOf(byte));
  }

  /** Two operations begin on a single-use key, and both complete. */
  lemma CompletesTwice(byte: Byte)
    requires byte != 0
    ensures Sealed(Phone(), EMPTY, Encryption(byte), Made(Taken(byte)))
    ensures var es := Story(BlobOf(byte), FinishOf(2));
            && ValidEvents(es)
            && Completions(Moves(Phone(), Made(Taken(byte)), es).completed, BlobOf(byte).encryptedKeyMaterial) == 2
  {
    var ct := BlobOf(byte).encryptedKeyMaterial;
    KeyIsSealed(byte);
    KeyIsMade(byte);
    KeyOpens(byte);
    StoryMoves(Taken(byte), BlobOf(byte), FinishOf(2));
    SecondFinishMoves(EMPTY, ct);
    CompletionsSnoc([], ct, ct);
    CompletionsSnoc([ct], ct, ct);
  }

  lemma SlotIsReserved(byte: Byte)
    ensures SlotSpec.Step(EMPTY, Another(byte).op) == Taken(byte)
  {
    SlotSpec.FirstFreeIs(EMPTY.slots, 0);
  }

  /** Between the two completions another key is made, which gets the slot and can be used. The second completion
      empties the slot, and the other key is lost. */
  lemma OtherKeyIsLost(byte: Byte, other: Byte)
    requires byte != other
    ensures var es := Story(BlobOf(byte), Another(other));
            && ValidEvents(es)
            && var w0 := Moves(Phone(), Made(Taken(byte)), es);
            var w1 := CallMove(Phone(), w0, FinishOf(2).c).0;
            && Keyblob.Decrypt(Some(w0.slots), Primitives(), ExplicitRoot([]), BlobOf(other), []).Ok?
            && Robbed(w0.slots, w1.slots, 0, Encryption(byte).draws.key)
            && Keyblob.Decrypt(Some(w1.slots), Primitives(), ExplicitRoot([]), BlobOf(other), []) == Err(InvalidKeyBlob)
  {
    KeyIsMade(byte);
    KeyOpens(byte);
    StoryMoves(Taken(byte), BlobOf(byte), Another(other));
    SlotIsReserved(other);
    SecondFinishMoves(Taken(other), BlobOf(byte).encryptedKeyMaterial);
    KeyIsMade(other);
    KeyOpens(other);
    assert Encryption(byte).draws.key[0] != Encryption(other).draws.key[0];
    EmptySlotBlocksDecrypt(EMPTY, Primitives(), ExplicitRoot([]), BlobOf(other), []);
  }
}
