/** Operations and secure deletion slots together (ta/src/operation.rs, ta/src/lib.rs, common/src/keyblob/sdd_mem.rs):
    begins decrypt in the present slots, completed operations on single-use keys delete theirs, and keys come and go
    in between. */
module SlotRuns {
  import opened Base
  import opened KeyParams
  import opened Auth
  import opened OperationSpec
  import opened OperationRuns
  import opened KekInfo
  import opened Keyblob
  import opened KeyDeletion
  import SlotSpec
  import Tags

  /** What stays fixed: the operation layer, the keyblob primitives, the root key of each context, and the TA's level. */
  datatype Device<!S> = Device(cfg: Config<S>, crypto: BlobCrypto, roots: Bytes -> Result<RootKey>, level: SecurityLevel)

  /** The state of TA and slot manager. Two histories are kept beside it: the ciphertext that the operation under
      each handle began with, and the ciphertexts of completed operations. */
  datatype World<S> = World(ta: TaState<S>, slots: SlotSpec.SlotState, keys: map<I64, Bytes>, completed: seq<Bytes>)

  datatype Event<S> =
    | Begun(b: BeginCall<S>, blob: EncryptedKeyBlob, hidden: seq<KeyParam>)
    | Called(c: Call<S>)
    | Managed(op: SlotSpec.SlotOp)

  ghost predicate ValidEvent<S>(e: Event<S>) {
    match e
    case Begun(_, blob, hidden) => SizedBlob(blob, hidden)
    case Called(c) => !c.BeginCalled?
    case Managed(op) => SlotSpec.ValidOp(op)
  }

  /** `keyblob_parse_decrypt_backlevel`, for a blob that has been parsed. */
  function Parse<S>(d: Device<S>, slots: SlotSpec.SlotState, blob: EncryptedKeyBlob, hidden: seq<KeyParam>): Result<seq<KeyParam>> {
    var root :- d.roots(blob.kekContext);
    var plain :- Keyblob.Decrypt(Some(slots), d.crypto, root, blob, hidden);
    Tags.CharacteristicsAt(plain.characteristics, d.level)
  }

  /** The begin call with what decryption contributes; its own `checks` are those that come after. */
  function Resolved<S>(d: Device<S>, slots: SlotSpec.SlotState, b: BeginCall<S>, blob: EncryptedKeyBlob, hidden: seq<KeyParam>)
    : BeginCall<S>
  {
    match Parse(d, slots, blob, hidden)
    case Err(e) => b.(checks := Err(e))
    case Ok(chars) => b.(chars := chars, sddSlot := blob.slot)
  }

  /** The slot that a call deletes: that of a single-use key whose operation it completes. */
  function Deletes<S>(cfg: Config<S>, s: TaState<S>, c: Call<S>): Option<nat> {
    if c.FinishCalled? && c.a.handle in s.ops && Step(cfg, s, c).1 then s.ops[c.a.handle].slotToDelete else None
  }

  function Cleared(slots: SlotSpec.SlotState, slot: Option<nat>): SlotSpec.SlotState {
    if slot.Some? then SlotSpec.DeleteSecret(slots, slot.value) else slots
  }

  function BeginMove<S>(d: Device<S>, w: World<S>, b: BeginCall<S>, blob: EncryptedKeyBlob, hidden: seq<KeyParam>): (World<S>, bool) {
    var (ta, r) := Begin(d.cfg, w.ta, Resolved(d, w.slots, b, blob, hidden));
    (w.(ta := ta, keys := if r.Ok? then w.keys[b.handle := blob.encryptedKeyMaterial] else w.keys), r.Ok?)
  }

  function CallMove<S>(d: Device<S>, w: World<S>, c: Call<S>): (World<S>, bool) {
    var (ta, ok) := Step(d.cfg, w.ta, c);
    var completed := if c.FinishCalled? && ok && c.a.handle in w.keys then w.completed + [w.keys[c.a.handle]] else w.completed;
    (World(ta, Cleared(w.slots, Deletes(d.cfg, w.ta, c)), w.keys, completed), ok)
  }

  /** The new state, and whether the call succeeded. */
  ghost function Move<S>(d: Device<S>, w: World<S>, e: Event<S>): (World<S>, bool)
    requires ValidEvent(e)
  {
    match e
    case Begun(b, blob, hidden) => BeginMove(d, w, b, blob, hidden)
    case Called(c) => CallMove(d, w, c)
    case Managed(op) => (w.(slots := SlotSpec.Step(w.slots, op)), true)
  }

  ghost predicate ValidEvents<S>(es: seq<Event<S>>) { forall k :: 0 <= k < |es| ==> ValidEvent(es[k]) }

  ghost function Moves<S>(d: Device<S>, w: World<S>, es: seq<Event<S>>): World<S>
    requires ValidEvents(es)
    decreases |es|
  {
    if es == [] then w else Moves(d, Move(d, w, es[0]).0, es[1..])
  }

  // ---- The log of deletions ----

  /** A call logs exactly the slot it deletes. */
  lemma CallLogsDeletion<S>(cfg: Config<S>, s: TaState<S>, c: Call<S>)
    ensures var gone := Deletes(cfg, s, c);
            Step(cfg, s, c).0.deletedSlots == s.deletedSlots + (if gone.Some? then [gone.value] else [])
  {
    if c.UpdateCalled? {
      UpdateShape(cfg, s, c.a, c.data);
    }
  }

  lemma MoveLogs<S>(d: Device<S>, w: World<S>, e: Event<S>, i: nat)
    requires ValidEvent(e) && !e.Managed?
    ensures var w' := Move(d, w, e).0;
            && w.ta.deletedSlots <= w'.ta.deletedSlots
            && (Occupied(w'.slots, i) <==> Occupied(w.slots, i) && i !in w'.ta.deletedSlots[|w.ta.deletedSlots|..])
  {
    if e.Called? {
      CallLogsDeletion(d.cfg, w.ta, e.c);
    }
  }

  lemma LogsJoin(log: seq<nat>, log1: seq<nat>, log2: seq<nat>)
    requires log <= log1 && log1 <= log2
    ensures log <= log2 && log2[|log|..] == log1[|log|..] + log2[|log1|..]
  {
  }

  /** Without other slot operations, the slots that a run empties are those it logs. */
  lemma {:induction false} LogIsApplied<S>(d: Device<S>, w: World<S>, es: seq<Event<S>>, i: nat)
    requires ValidEvents(es) && forall k :: 0 <= k < |es| ==> !es[k].Managed?
    ensures var w' := Moves(d, w, es);
            && w.ta.deletedSlots <= w'.ta.deletedSlots
            && (Occupied(w'.slots, i) <==> Occupied(w.slots, i) && i !in w'.ta.deletedSlots[|w.ta.deletedSlots|..])
    decreases |es|
  {
    if es != [] {
      var w1 := Move(d, w, es[0]).0;
      MoveLogs(d, w, es[0], i);
      LogIsApplied(d, w1, es[1..], i);
      LogsJoin(w.ta.deletedSlots, w1.ta.deletedSlots, Moves(d, w1, es[1..]).ta.deletedSlots);
    }
  }

  // ---- Deletions are within the table ----

  /** The slots that live operations are to delete exist. */
  ghost predicate InRange<S>(w: World<S>) {
    forall h :: h in w.ta.ops && w.ta.ops[h].slotToDelete.Some? ==> w.ta.ops[h].slotToDelete.value < |w.slots.slots|
  }

  lemma CallKeepsSlots<S>(cfg: Config<S>, s: TaState<S>, c: Call<S>, h: I64)
    requires !c.BeginCalled?
    ensures var s' := Step(cfg, s, c).0; h in s'.ops ==> h in s.ops && s'.ops[h].slotToDelete == s.ops[h].slotToDelete
  {
    if c.UpdateCalled? {
      UpdateShape(cfg, s, c.a, c.data);
    }
  }

  lemma ParsedSlotExists<S>(d: Device<S>, slots: SlotSpec.SlotState, blob: EncryptedKeyBlob, hidden: seq<KeyParam>)
    requires Parse(d, slots, blob, hidden).Ok?
    ensures blob.slot.Some? ==> Occupied(slots, blob.slot.value)
  {
  }

  /** What `Begin` does to the table. */
  lemma BeginShape<S>(cfg: Config<S>, s: TaState<S>, b: BeginCall<S>)
    ensures var (s', r) := Begin(cfg, s, b);
            && (r.Err? ==> s' == s)
            && (r.Ok? ==>
                  && b.checks.Ok? && b.handle in s'.ops && s'.ops == s.ops[b.handle := s'.ops[b.handle]]
                  && s'.ops[b.handle].slotToDelete == SlotToDelete(b))
  {
  }

  lemma BeginKeepsInRange<S>(d: Device<S>, w: World<S>, b: BeginCall<S>, blob: EncryptedKeyBlob, hidden: seq<KeyParam>)
    requires InRange(w)
    ensures InRange(BeginMove(d, w, b, blob, hidden).0)
  {
    BeginShape(d.cfg, w.ta, Resolved(d, w.slots, b, blob, hidden));
    if Parse(d, w.slots, blob, hidden).Ok? {
      ParsedSlotExists(d, w.slots, blob, hidden);
    }
  }

  lemma CallKeepsInRange<S>(d: Device<S>, w: World<S>, c: Call<S>)
    requires InRange(w) && !c.BeginCalled?
    ensures InRange(CallMove(d, w, c).0)
  {
    var w' := CallMove(d, w, c).0;
    forall h | h in w'.ta.ops ensures h in w.ta.ops && w'.ta.ops[h].slotToDelete == w.ta.ops[h].slotToDelete {
      CallKeepsSlots(d.cfg, w.ta, c, h);
    }
    assert |w'.slots.slots| == |w.slots.slots|;
  }

  lemma MoveKeepsInRange<S>(d: Device<S>, w: World<S>, e: Event<S>)
    requires ValidEvent(e) && InRange(w)
    ensures InRange(Move(d, w, e).0)
  {
    match e {
      case Begun(b, blob, hidden) => BeginKeepsInRange(d, w, b, blob, hidden);
      case Called(c) => CallKeepsInRange(d, w, c);
      case Managed(op) =>
    }
  }

  /** In no run does a completed operation delete a slot outside the table, where the manager would panic. */
  lemma {:induction false} DeletionsInRange<S>(d: Device<S>, w: World<S>, es: seq<Event<S>>, c: Call<S>)
    requires ValidEvents(es) && InRange(w)
    ensures InRange(Moves(d, w, es))
    ensures var gone := Deletes(d.cfg, Moves(d, w, es).ta, c); gone.Some? ==> gone.value < |Moves(d, w, es).slots.slots|
    decreases |es|
  {
    if es != [] {
      MoveKeepsInRange(d, w, es[0]);
      DeletionsInRange(d, Move(d, w, es[0]).0, es[1..], c);
    }
  }

  // ---- A sealed key ----

  /** A key's ciphertext, its slot and the secret in it. */
  datatype Lock = Lock(ciphertext: Bytes, slot: nat, secret: Bytes)

  predicate SingleUse(chars: seq<KeyParam>) { Tags.GetOptTagValue(chars, UsageCountLimitOf, InvalidTag) == Ok(Some(1)) }

  predicate Holds(slots: SlotSpec.SlotState, slot: Option<nat>, secret: Bytes) {
    slot.Some? && Occupied(slots, slot.value) && slots.slots[slot.value].value.secureDeletionSecret == secret
  }

  /** Whatever blob carries the ciphertext, it is accepted only if its slot holds the secret, and then the key is
      for a single use. */
  ghost predicate Locked<S>(d: Device<S>, lock: Lock) {
    forall slots, blob, hidden ::
      SlotSpec.Coherent(slots) && SizedBlob(blob, hidden) && blob.encryptedKeyMaterial == lock.ciphertext
      && Parse(d, slots, blob, hidden).Ok? ==>
        Holds(slots, blob.slot, lock.secret) && SingleUse(Parse(d, slots, blob, hidden).value)
  }

  /** A single-use key, encrypted with a fresh secret. */
  ghost predicate Sealed<S>(d: Device<S>, s: SlotSpec.SlotState, a: EncryptArgs, w: World<S>) {
    && Ideal(d.crypto) && a.crypto == d.crypto && a.level == d.level
    && SlotSpec.Coherent(s) && ValidDraws(a.draws) && FreshSecret(s, a.draws.key)
    && SizedChars(a.plain.characteristics) && SizedParams(a.hidden)
    && Tags.CharacteristicsAt(a.plain.characteristics, a.level).Ok?
    && SingleUse(Tags.CharacteristicsAt(a.plain.characteristics, a.level).value)
    && EncryptSpec(Some(s), a).1.Ok?
    && EncryptSpec(Some(s), a).0 == Some(w.slots)
    && (forall h :: h in w.keys ==> w.keys[h] != EncryptSpec(Some(s), a).1.value.encryptedKeyMaterial)
  }

  lemma {:induction false} SelectedMember(chars: seq<KeyParam>)
    requires Tags.Select(chars, UsageCountLimitOf) != []
    ensures Uint(UsageCountLimit, Tags.Select(chars, UsageCountLimitOf)[0]) in chars
  {
    if UsageCountLimitOf(chars[0]).None? {
      SelectedMember(chars[1..]);
    }
  }

  lemma SingleUseNeedsSlot(chars: seq<KeyParam>)
    requires SingleUse(chars)
    ensures NeedsSlot(chars)
  {
    SelectedMember(chars);
  }

  /** Its ciphertext, slot and secret. */
  lemma LockOf<S>(d: Device<S>, s: SlotSpec.SlotState, a: EncryptArgs, w: World<S>) returns (lock: Lock)
    requires Sealed(d, s, a, w)
    ensures lock.ciphertext == EncryptSpec(Some(s), a).1.value.encryptedKeyMaterial
    ensures EncryptSpec(Some(s), a).1.value.slot == Some(lock.slot) && lock.secret == a.draws.key
    ensures Locked(d, lock) && Holds(w.slots, Some(lock.slot), lock.secret)
    ensures SlotSpec.Coherent(w.slots) && OnlyAt(w.slots, lock.slot, lock.secret)
  {
    var blob := EncryptSpec(Some(s), a).1.value;
    SingleUseNeedsSlot(Tags.CharacteristicsAt(a.plain.characteristics, a.level).value);
    SuccessfulEncryptTakesOneSlot(s, a);
    var sdd := SealedIn(s, a);
    lock := Lock(blob.encryptedKeyMaterial, blob.slot.value, a.draws.key);
    assert sdd.secureDeletionSecret == a.draws.key;
    forall slots, blob', hidden |
      SlotSpec.Coherent(slots) && SizedBlob(blob', hidden) && blob'.encryptedKeyMaterial == lock.ciphertext
      && Parse(d, slots, blob', hidden).Ok?
      ensures Holds(slots, blob'.slot, lock.secret) && SingleUse(Parse(d, slots, blob', hidden).value)
    {
      AcceptedIsSealed(d, s, a, w, sdd, slots, blob', hidden);
    }
  }

  lemma ParseShape<S>(d: Device<S>, slots: SlotSpec.SlotState, blob: EncryptedKeyBlob, hidden: seq<KeyParam>)
    requires Parse(d, slots, blob, hidden).Ok?
    ensures d.roots(blob.kekContext).Ok?
    ensures Keyblob.Decrypt(Some(slots), d.crypto, d.roots(blob.kekContext).value, blob, hidden).Ok?
    ensures Tags.CharacteristicsAt(blob.characteristics, d.level) == Parse(d, slots, blob, hidden)
  {
  }

  lemma FoundIsHeld(slots: SlotSpec.SlotState, slot: Option<nat>, sdd: SecureDeletionData)
    requires SddFor(Some(slots), slot) == Ok(Some(sdd)) && sdd.secureDeletionSecret != Zeros(16)
    ensures Holds(slots, slot, sdd.secureDeletionSecret)
  {
  }

  lemma AcceptedIsSealed<S>(d: Device<S>, s: SlotSpec.SlotState, a: EncryptArgs, w: World<S>, sdd: SecureDeletionData,
                            slots: SlotSpec.SlotState, blob: EncryptedKeyBlob, hidden: seq<KeyParam>)
    requires Sealed(d, s, a, w) && SlotSpec.Coherent(slots) && SizedBlob(blob, hidden)
    requires SddFor(Some(w.slots), EncryptSpec(Some(s), a).1.value.slot) == Ok(Some(sdd)) && sdd.secureDeletionSecret == a.draws.key
    requires blob.encryptedKeyMaterial == EncryptSpec(Some(s), a).1.value.encryptedKeyMaterial && Parse(d, slots, blob, hidden).Ok?
    ensures Holds(slots, blob.slot, a.draws.key) && SingleUse(Parse(d, slots, blob, hidden).value)
  {
    ParseShape(d, slots, blob, hidden);
    CiphertextIsBound(Some(s), a, Some(slots), d.roots(blob.kekContext).value, blob, hidden);
    FoundIsHeld(slots, blob.slot, sdd);
  }

  // ---- What every event keeps ----

  /** Live operations on the key. */
  function Users<S>(w: World<S>, ciphertext: Bytes): set<I64> {
    set h | h in w.ta.ops && h in w.keys && w.keys[h] == ciphertext
  }

  /** The secret is in no other slot, and the live operations on the key are to delete this one. */
  ghost predicate Tracked<S>(w: World<S>, lock: Lock) {
    && SlotSpec.Coherent(w.slots) && OnlyAt(w.slots, lock.slot, lock.secret)
    && forall h :: h in Users(w, lock.ciphertext) ==> w.ta.ops[h].slotToDelete == Some(lock.slot)
  }

  /** The random generator does not draw the secret again. */
  predicate NotRedrawn<S>(e: Event<S>, secret: Bytes) { e.Managed? && e.op.Reserve? ==> e.op.freshKey != secret }

  predicate NeverRedrawn<S>(es: seq<Event<S>>, secret: Bytes) { forall k :: 0 <= k < |es| ==> NotRedrawn(es[k], secret) }

  /** A begin on the key needs its secret, and then uses the slot that holds it. */
  lemma BeginNeedsSecret<S>(d: Device<S>, w: World<S>, b: BeginCall<S>, blob: EncryptedKeyBlob, hidden: seq<KeyParam>, lock: Lock)
    requires Locked(d, lock) && SlotSpec.Coherent(w.slots) && OnlyAt(w.slots, lock.slot, lock.secret)
    requires SizedBlob(blob, hidden) && blob.encryptedKeyMaterial == lock.ciphertext && BeginMove(d, w, b, blob, hidden).1
    ensures Holds(w.slots, Some(lock.slot), lock.secret)
    ensures BeginMove(d, w, b, blob, hidden).0.ta.ops[b.handle].slotToDelete == Some(lock.slot)
  {
    BeginShape(d.cfg, w.ta, Resolved(d, w.slots, b, blob, hidden));
    assert Parse(d, w.slots, blob, hidden).Ok?;
    assert Holds(w.slots, blob.slot, lock.secret);
  }

  lemma BeginKeepsTracked<S>(d: Device<S>, w: World<S>, b: BeginCall<S>, blob: EncryptedKeyBlob, hidden: seq<KeyParam>, lock: Lock)
    requires Locked(d, lock) && Tracked(w, lock) && SizedBlob(blob, hidden)
    ensures Tracked(BeginMove(d, w, b, blob, hidden).0, lock)
  {
    var (w', ok) := BeginMove(d, w, b, blob, hidden);
    if ok && blob.encryptedKeyMaterial == lock.ciphertext {
      BeginNeedsSecret(d, w, b, blob, hidden, lock);
    }
    forall h | h in Users(w', lock.ciphertext) ensures w'.ta.ops[h].slotToDelete == Some(lock.slot) {
      if !(ok && h == b.handle) {
        assert h in Users(w, lock.ciphertext);
      }
    }
  }

  lemma CallKeepsTracked<S>(d: Device<S>, w: World<S>, c: Call<S>, lock: Lock)
    requires Tracked(w, lock) && !c.BeginCalled?
    ensures Tracked(CallMove(d, w, c).0, lock)
  {
    var w' := CallMove(d, w, c).0;
    forall h | h in Users(w', lock.ciphertext) ensures w'.ta.ops[h].slotToDelete == Some(lock.slot) {
      CallKeepsSlots(d.cfg, w.ta, c, h);
      assert h in Users(w, lock.ciphertext);
    }
  }

  lemma ManagedKeepsTracked(slots: SlotSpec.SlotState, op: SlotSpec.SlotOp, lock: Lock)
    requires SlotSpec.ValidOp(op) && SlotSpec.Coherent(slots) && (op.Reserve? ==> op.freshKey != lock.secret)
    ensures var slots' := SlotSpec.Step(slots, op);
            && SlotSpec.Coherent(slots')
            && (OnlyAt(slots, lock.slot, lock.secret) ==> OnlyAt(slots', lock.slot, lock.secret))
            && (Nowhere(slots, lock.secret) ==> Nowhere(slots', lock.secret))
  {
  }

  lemma MoveKeepsTracked<S>(d: Device<S>, w: World<S>, e: Event<S>, lock: Lock)
    requires Locked(d, lock) && Tracked(w, lock) && ValidEvent(e) && NotRedrawn(e, lock.secret)
    ensures Tracked(Move(d, w, e).0, lock)
    ensures Nowhere(w.slots, lock.secret) ==> Nowhere(Move(d, w, e).0.slots, lock.secret)
  {
    match e {
      case Begun(b, blob, hidden) => BeginKeepsTracked(d, w, b, blob, hidden, lock);
      case Called(c) => CallKeepsTracked(d, w, c, lock);
      case Managed(op) =>
        ManagedKeepsTracked(w.slots, op, lock);
        assert Users(Move(d, w, e).0, lock.ciphertext) == Users(w, lock.ciphertext);
    }
  }

  lemma {:induction false} MovesKeepTracked<S>(d: Device<S>, w: World<S>, es: seq<Event<S>>, lock: Lock)
    requires Locked(d, lock) && Tracked(w, lock) && ValidEvents(es) && NeverRedrawn(es, lock.secret)
    ensures Tracked(Moves(d, w, es), lock)
    ensures Nowhere(w.slots, lock.secret) ==> Nowhere(Moves(d, w, es).slots, lock.secret)
    decreases |es|
  {
    if es != [] {
      MoveKeepsTracked(d, w, es[0], lock);
      MovesKeepTracked(d, Move(d, w, es[0]).0, es[1..], lock);
    }
  }

  // ---- How the slot is given up ----

  /** The event empties this slot. */
  ghost predicate Releases<S>(d: Device<S>, w: World<S>, e: Event<S>, slot: nat) {
    match e
    case Begun(_, _, _) => false
    case Called(c) => Deletes(d.cfg, w.ta, c) == Some(slot)
    case Managed(op) => op == SlotSpec.FactoryReset || op == SlotSpec.Delete(slot)
  }

  ghost predicate Released<S>(d: Device<S>, w: World<S>, es: seq<Event<S>>, slot: nat)
    requires ValidEvents(es)
    decreases |es|
  {
    es != [] && (Releases(d, w, es[0], slot) || Released(d, Move(d, w, es[0]).0, es[1..], slot))
  }

  lemma ReleaseIsExact<S>(d: Device<S>, w: World<S>, e: Event<S>, lock: Lock)
    requires ValidEvent(e) && OnlyAt(w.slots, lock.slot, lock.secret) && Holds(w.slots, Some(lock.slot), lock.secret)
    ensures if Releases(d, w, e, lock.slot) then Nowhere(Move(d, w, e).0.slots, lock.secret)
            else Holds(Move(d, w, e).0.slots, Some(lock.slot), lock.secret)
  {
  }

  /** After every run, the slot still holds the secret exactly if nothing released it; otherwise the secret is in
      no slot. */
  lemma {:induction false} HeldUnlessReleased<S>(d: Device<S>, w: World<S>, es: seq<Event<S>>, lock: Lock)
    requires Locked(d, lock) && Tracked(w, lock) && ValidEvents(es) && NeverRedrawn(es, lock.secret)
    requires Holds(w.slots, Some(lock.slot), lock.secret)
    ensures if Released(d, w, es, lock.slot) then Nowhere(Moves(d, w, es).slots, lock.secret)
            else Holds(Moves(d, w, es).slots, Some(lock.slot), lock.secret)
    decreases |es|
  {
    if es != [] {
      var w1 := Move(d, w, es[0]).0;
      MoveKeepsTracked(d, w, es[0], lock);
      ReleaseIsExact(d, w, es[0], lock);
      if Releases(d, w, es[0], lock.slot) {
        MovesKeepTracked(d, w1, es[1..], lock);
      } else {
        HeldUnlessReleased(d, w1, es[1..], lock);
      }
    }
  }
}
