/** How often a single-use key can complete an operation, and what that does to other keys (ta/src/operation.rs,
    common/src/keyblob/sdd_mem.rs): the first completion deletes the key's slot, which stops later begins but not
    operations that are already live, and these delete the slot again, whoever holds it by then. */
module SingleUse {
  import opened Base
  import opened KeyParams
  import opened Auth
  import opened OperationSpec
  import opened OperationRuns
  import opened Keyblob
  import opened KeyDeletion
  import opened SlotRuns
  import SlotSpec

  /** How many operations on a key have completed. */
  function Completions(completed: seq<Bytes>, ciphertext: Bytes): nat {
    if completed == [] then 0
    else Completions(completed[..|completed| - 1], ciphertext) + (if completed[|completed| - 1] == ciphertext then 1 else 0)
  }

  lemma CompletionsSnoc(completed: seq<Bytes>, one: Bytes, ciphertext: Bytes)
    ensures Completions(completed + [one], ciphertext) == Completions(completed, ciphertext) + (if one == ciphertext then 1 else 0)
  {
    var ext := completed + [one];
    assert ext[..|ext| - 1] == completed;
  }

  /** The event completes an operation on the key. */
  predicate Completes<S>(d: Device<S>, w: World<S>, e: Event<S>, ciphertext: Bytes) {
    e.Called? && e.c.FinishCalled? && e.c.a.handle in Users(w, ciphertext) && Step(d.cfg, w.ta, e.c).1
  }

  // ---- Completions are conserved ----

  lemma SubsetButOne<T>(a: set<T>, b: set<T>, x: T)
    requires a <= b && x in b && x !in a
    ensures |a| < |b|
  {
    CardinalityMonotone(a + {x}, b);
  }

  lemma BeginAddsNoUser<S>(d: Device<S>, w: World<S>, b: BeginCall<S>, blob: EncryptedKeyBlob, hidden: seq<KeyParam>, ciphertext: Bytes)
    requires blob.encryptedKeyMaterial == ciphertext ==> !BeginMove(d, w, b, blob, hidden).1
    ensures var w' := BeginMove(d, w, b, blob, hidden).0;
            Users(w', ciphertext) <= Users(w, ciphertext) && w'.completed == w.completed
  {
  }

  lemma CallAddsNoUser<S>(d: Device<S>, w: World<S>, c: Call<S>, ciphertext: Bytes)
    requires !c.BeginCalled?
    ensures var w' := CallMove(d, w, c).0;
            && Users(w', ciphertext) <= Users(w, ciphertext)
            && (if Completes(d, w, Called(c), ciphertext) then
                  w'.completed == w.completed + [ciphertext] && c.a.handle !in w'.ta.ops
                else Completions(w'.completed, ciphertext) == Completions(w.completed, ciphertext))
  {
    forall h | h in Users(CallMove(d, w, c).0, ciphertext) ensures h in Users(w, ciphertext) {
      CallKeepsSlots(d.cfg, w.ta, c, h);
    }
    if c.FinishCalled? && c.a.handle in w.keys {
      CompletionsSnoc(w.completed, w.keys[c.a.handle], ciphertext);
    }
  }

  function Budget<S>(w: World<S>, ciphertext: Bytes): nat { Completions(w.completed, ciphertext) + |Users(w, ciphertext)| }

  /** Unless an operation begins on the key, completions and live operations together do not grow. */
  lemma MoveConserves<S>(d: Device<S>, w: World<S>, e: Event<S>, ciphertext: Bytes)
    requires ValidEvent(e)
    requires e.Begun? && e.blob.encryptedKeyMaterial == ciphertext ==> !Move(d, w, e).1
    ensures Budget(Move(d, w, e).0, ciphertext) <= Budget(w, ciphertext)
  {
    var w' := Move(d, w, e).0;
    match e {
      case Begun(b, blob, hidden) => BeginAddsNoUser(d, w, b, blob, hidden, ciphertext);
      case Called(c) => CallAddsNoUser(d, w, c, ciphertext);
      case Managed(op) => assert Users(w', ciphertext) == Users(w, ciphertext);
    }
    CardinalityMonotone(Users(w', ciphertext), Users(w, ciphertext));
    if Completes(d, w, e, ciphertext) {
      CompletionsSnoc(w.completed, ciphertext, ciphertext);
      SubsetButOne(Users(w', ciphertext), Users(w, ciphertext), e.c.a.handle);
    }
  }

  lemma GoneCannotBegin<S>(d: Device<S>, w: World<S>, e: Event<S>, lock: Lock)
    requires Locked(d, lock) && Tracked(w, lock) && Nowhere(w.slots, lock.secret)
    requires ValidEvent(e) && e.Begun? && e.blob.encryptedKeyMaterial == lock.ciphertext
    ensures !Move(d, w, e).1
  {
    if Move(d, w, e).1 {
      BeginNeedsSecret(d, w, e.b, e.blob, e.hidden, lock);
    }
  }

  lemma {:induction false} GoneConserves<S>(d: Device<S>, w: World<S>, es: seq<Event<S>>, lock: Lock)
    requires Locked(d, lock) && Tracked(w, lock) && Nowhere(w.slots, lock.secret) && ValidEvents(es) && NeverRedrawn(es, lock.secret)
    ensures Budget(Moves(d, w, es), lock.ciphertext) <= Budget(w, lock.ciphertext)
    decreases |es|
  {
    if es != [] {
      if es[0].Begun? && es[0].blob.encryptedKeyMaterial == lock.ciphertext {
        GoneCannotBegin(d, w, es[0], lock);
      }
      MoveKeepsTracked(d, w, es[0], lock);
      MoveConserves(d, w, es[0], lock.ciphertext);
      GoneConserves(d, Move(d, w, es[0]).0, es[1..], lock);
    }
  }

  // ---- After the first completion ----

  /** A single-use key, the events since it was made up to a completion of it, and the events after. */
  ghost predicate Story<S>(d: Device<S>, s: SlotSpec.SlotState, a: EncryptArgs, w: World<S>, before: seq<Event<S>>, e: Event<S>,
                           after: seq<Event<S>>) {
    && Sealed(d, s, a, w) && ValidEvents(before) && ValidEvent(e) && ValidEvents(after)
    && NeverRedrawn(before, a.draws.key) && NeverRedrawn(after, a.draws.key)
    && Completes(d, Moves(d, w, before), e, EncryptSpec(Some(s), a).1.value.encryptedKeyMaterial)
  }

  lemma StoryGone<S>(d: Device<S>, s: SlotSpec.SlotState, a: EncryptArgs, w: World<S>, before: seq<Event<S>>, e: Event<S>,
                     after: seq<Event<S>>) returns (lock: Lock)
    requires Story(d, s, a, w, before, e, after)
    ensures lock.ciphertext == EncryptSpec(Some(s), a).1.value.encryptedKeyMaterial
    ensures Locked(d, lock) && NeverRedrawn(after, lock.secret)
    ensures var w1 := Move(d, Moves(d, w, before), e).0; Tracked(w1, lock) && Nowhere(w1.slots, lock.secret)
  {
    lock := LockOf(d, s, a, w);
    MovesKeepTracked(d, w, before, lock);
    MoveKeepsTracked(d, Moves(d, w, before), e, lock);
  }

  /** After its first completion no operation begins on the key any more, whatever blob carries its ciphertext and
      whoever has taken its slot since. */
  lemma NoBeginAfterCompletion<S>(d: Device<S>, s: SlotSpec.SlotState, a: EncryptArgs, w: World<S>, before: seq<Event<S>>, e: Event<S>,
                                  after: seq<Event<S>>, begin: Event<S>)
    requires Story(d, s, a, w, before, e, after) && ValidEvent(begin) && begin.Begun?
    requires begin.blob.encryptedKeyMaterial == EncryptSpec(Some(s), a).1.value.encryptedKeyMaterial
    ensures !Move(d, Moves(d, Move(d, Moves(d, w, before), e).0, after), begin).1
  {
    var lock := StoryGone(d, s, a, w, before, e, after);
    var w1 := Move(d, Moves(d, w, before), e).0;
    MovesKeepTracked(d, w1, after, lock);
    GoneCannotBegin(d, Moves(d, w1, after), begin, lock);
  }

  /** So from its first completion on, at most those operations complete that were live on the key just before. */
  lemma CompletionsBounded<S>(d: Device<S>, s: SlotSpec.SlotState, a: EncryptArgs, w: World<S>, before: seq<Event<S>>, e: Event<S>,
                              after: seq<Event<S>>)
    requires Story(d, s, a, w, before, e, after)
    ensures var ct := EncryptSpec(Some(s), a).1.value.encryptedKeyMaterial;
            var w0 := Moves(d, w, before);
            Completions(Moves(d, Move(d, w0, e).0, after).completed, ct) <= Completions(w0.completed, ct) + |Users(w0, ct)|
  {
    var lock := StoryGone(d, s, a, w, before, e, after);
    var w0 := Moves(d, w, before);
    MoveConserves(d, w0, e, lock.ciphertext);
    GoneConserves(d, Move(d, w0, e).0, after, lock);
  }

  // ---- The bound is reached ----

  /** A finish comes out the same after an operation under another handle has been finished. */
  lemma FinishesAreIndependent<S>(cfg: Config<S>, s: TaState<S>, a: OpArgs, f: FinishArgs, a': OpArgs, f': FinishArgs)
    requires a.handle != a'.handle
    ensures Finish(cfg, Finish(cfg, s, a, f).0, a', f').1 == Finish(cfg, s, a', f').1
    ensures a'.handle in Finish(cfg, s, a, f).0.ops <==> a'.handle in s.ops
  {
    var s1, h := Finish(cfg, s, a, f).0, a'.handle;
    assert h in s1.ops <==> h in s.ops;
    assert h in s.ops ==> s1.ops[h] == s.ops[h];
    assert s1.presence == Some(h) <==> s.presence == Some(h);
  }

  /** After one completion, another finish completes the key again exactly if it is of another operation and would
      have completed it before. */
  lemma CompletesAgainExactly<S>(d: Device<S>, w: World<S>, e: Event<S>, e': Event<S>, ciphertext: Bytes)
    requires Completes(d, w, e, ciphertext) && e'.Called? && e'.c.FinishCalled?
    ensures ValidEvent(e)
    ensures Completes(d, Move(d, w, e).0, e', ciphertext) <==>
            e'.c.a.handle != e.c.a.handle && Completes(d, w, e', ciphertext)
  {
    if e'.c.a.handle != e.c.a.handle {
      FinishesAreIndependent(d.cfg, w.ta, e.c.a, e.c.f, e'.c.a, e'.c.f);
    }
  }

  ghost predicate DistinctCompletions<S>(d: Device<S>, w: World<S>, es: seq<Event<S>>, ciphertext: Bytes) {
    && (forall k :: 0 <= k < |es| ==> Completes(d, w, es[k], ciphertext))
    && (forall j, k :: 0 <= j < k < |es| ==> es[j].c.a.handle != es[k].c.a.handle)
  }

  /** Operations that could each complete the key all do, one after the other. */
  lemma {:induction false} AllLiveComplete<S>(d: Device<S>, w: World<S>, es: seq<Event<S>>, ciphertext: Bytes)
    requires DistinctCompletions(d, w, es, ciphertext)
    ensures ValidEvents(es)
    ensures Completions(Moves(d, w, es).completed, ciphertext) == Completions(w.completed, ciphertext) + |es|
    decreases |es|
  {
    if es != [] {
      var w1 := Move(d, w, es[0]).0;
      forall k | 0 <= k < |es[1..]| ensures Completes(d, w1, es[1..][k], ciphertext) {
        CompletesAgainExactly(d, w, es[0], es[k + 1], ciphertext);
      }
      CompletionsSnoc(w.completed, ciphertext, ciphertext);
      AllLiveComplete(d, w1, es[1..], ciphertext);
    }
  }

  // ---- The slots of other keys ----

  /** Slot `i` is taken from a key with another secret. */
  predicate Robbed(slots: SlotSpec.SlotState, slots': SlotSpec.SlotState, i: nat, secret: Bytes) {
    Occupied(slots, i) && slots.slots[i].value.secureDeletionSecret != secret && !Occupied(slots', i)
  }

  /** When finishing an operation on a single-use key empties a slot of another key, over every run since the key was
      made: exactly if the finish succeeds, the key's slot was released meanwhile, by an earlier completion or a
      deletion, and it is in use again. */
  lemma RobsExactly<S>(d: Device<S>, s: SlotSpec.SlotState, a: EncryptArgs, w: World<S>, es: seq<Event<S>>, c: Call<S>)
    requires Sealed(d, s, a, w) && ValidEvents(es) && NeverRedrawn(es, a.draws.key) && c.FinishCalled?
    requires c.a.handle in Users(Moves(d, w, es), EncryptSpec(Some(s), a).1.value.encryptedKeyMaterial)
    ensures EncryptSpec(Some(s), a).1.value.slot.Some?
    ensures var slot, w0 := EncryptSpec(Some(s), a).1.value.slot.value, Moves(d, w, es);
            var w1 := CallMove(d, w0, c).0;
            (exists i :: Robbed(w0.slots, w1.slots, i, a.draws.key)) <==>
            Step(d.cfg, w0.ta, c).1 && Released(d, w, es, slot) && Occupied(w0.slots, slot)
  {
    var lock := LockOf(d, s, a, w);
    var w0 := Moves(d, w, es);
    var w1 := CallMove(d, w0, c).0;
    MovesKeepTracked(d, w, es, lock);
    HeldUnlessReleased(d, w, es, lock);
    assert w0.ta.ops[c.a.handle].slotToDelete == Some(lock.slot);
    if Step(d.cfg, w0.ta, c).1 && Released(d, w, es, lock.slot) && Occupied(w0.slots, lock.slot) {
      assert Robbed(w0.slots, w1.slots, lock.slot, a.draws.key);
    }
  }
}
