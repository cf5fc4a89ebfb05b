/** Secure deletion slots as values: what each manager operation does, and runs of them. */
module SlotSpec {
  import opened Base
  import opened KekInfo

  datatype SlotState = SlotState(factory: Option<Bytes>, slots: seq<Option<SecureDeletionData>>)

  /** Every occupied slot carries the current factory reset secret. */
  predicate Coherent(s: SlotState) {
    && (s.factory.Some? ==> |s.factory.value| == 32)
    && forall i :: 0 <= i < |s.slots| && s.slots[i].Some? ==>
         && ValidSdd(s.slots[i].value)
         && s.factory == Some(s.slots[i].value.factoryResetSecret)
  }

  function WithFactory(s: SlotState, drawn: Bytes): SlotState {
    if s.factory.None? then s.(factory := Some(drawn)) else s
  }

  function FactorySdd(s: SlotState): Result<SecureDeletionData> {
    if s.factory.Some? then Ok(SecureDeletionData(s.factory.value, Zeros(16))) else Err(UnknownError)
  }

  /** The first empty slot at or after `from`, or the number of slots if there is none. */
  function FirstFree(slots: seq<Option<SecureDeletionData>>, from: nat): (i: nat)
    requires from <= |slots|
    ensures from <= i <= |slots|
    ensures forall k :: from <= k < i ==> slots[k].Some?
    ensures i < |slots| ==> slots[i].None?
    decreases |slots| - from
  {
    if from == |slots| || slots[from].None? then from else FirstFree(slots, from + 1)
  }

  function NewSecret(s: SlotState, freshFactory: Bytes, freshKey: Bytes): (SlotState, Result<(nat, SecureDeletionData)>) {
    var i := FirstFree(s.slots, 0);
    if i == |s.slots| then (s, Err(RollbackResistanceUnavailable))
    else
      var s' := WithFactory(s, freshFactory);
      var sdd := SecureDeletionData(s'.factory.value, freshKey);
      (s'.(slots := s.slots[i := Some(sdd)]), Ok((i, sdd)))
  }

  function GetSecret(s: SlotState, slot: nat): Result<SecureDeletionData> {
    if slot < |s.slots| && s.slots[slot].Some? then Ok(s.slots[slot].value) else Err(InvalidKeyBlob)
  }

  /** A slot outside the table is an out-of-bounds access, which changes nothing. */
  function DeleteSecret(s: SlotState, slot: nat): SlotState {
    if slot < |s.slots| then s.(slots := s.slots[slot := None]) else s
  }

  function DeleteAll(s: SlotState): SlotState {
    SlotState(None, seq(|s.slots|, _ => None))
  }

  // ---- Runs ----

  /** What may happen to the manager between two uses of a keyblob. */
  datatype SlotOp =
    | CreateFactory(drawn: Bytes)
    | Reserve(freshFactory: Bytes, freshKey: Bytes)
    | Delete(slot: nat)
    | FactoryReset

  /** The random draws have their documented sizes. */
  predicate ValidOp(op: SlotOp) {
    match op
    case CreateFactory(f) => |f| == 32
    case Reserve(f, k) => |f| == 32 && |k| == 16
    case _ => true
  }

  predicate ValidOps(ops: seq<SlotOp>) {
    forall i :: 0 <= i < |ops| ==> ValidOp(ops[i])
  }

  function Step(s: SlotState, op: SlotOp): (s': SlotState)
    requires ValidOp(op)
    ensures |s'.slots| == |s.slots|
  {
    match op
    case CreateFactory(f) => WithFactory(s, f)
    case Reserve(f, k) => NewSecret(s, f, k).0
    case Delete(slot) => DeleteSecret(s, slot)
    case FactoryReset => DeleteAll(s)
  }

  function Run(s: SlotState, ops: seq<SlotOp>): (s': SlotState)
    requires ValidOps(ops)
    ensures |s'.slots| == |s.slots|
    decreases ops
  {
    if ops == [] then s else Run(Step(s, ops[0]), ops[1..])
  }

  /** All live slots share the current factory secret, after every run. */
  lemma {:induction false} RunKeepsCoherent(s: SlotState, ops: seq<SlotOp>)
    requires Coherent(s) && ValidOps(ops)
    ensures Coherent(Run(s, ops))
    decreases ops
  {
    if ops != [] {
      var s' := Step(s, ops[0]);
      assert Coherent(s');
      RunKeepsCoherent(s', ops[1..]);
    }
  }

  /** The run neither resets the device nor deletes this slot. */
  predicate Spares(ops: seq<SlotOp>, slot: Option<nat>) {
    forall i :: 0 <= i < |ops| ==> ops[i] != FactoryReset && (slot.Some? ==> ops[i] != Delete(slot.value))
  }

  /** What such a run leaves alone: the factory secret once it exists, and the slot once occupied. */
  lemma {:induction false} RunSpares(s: SlotState, ops: seq<SlotOp>, slot: Option<nat>)
    requires ValidOps(ops) && Spares(ops, slot)
    requires s.factory.Some?
    requires slot.Some? ==> slot.value < |s.slots| && s.slots[slot.value].Some?
    ensures Run(s, ops).factory == s.factory
    ensures slot.Some? ==> Run(s, ops).slots[slot.value] == s.slots[slot.value]
    decreases ops
  {
    if ops != [] {
      var s' := Step(s, ops[0]);
      assert s'.factory == s.factory;
      assert slot.Some? ==> s'.slots[slot.value] == s.slots[slot.value];
      RunSpares(s', ops[1..], slot);
    }
  }

  lemma FirstFreeIs(slots: seq<Option<SecureDeletionData>>, i: nat)
    requires i <= |slots| && (forall k :: 0 <= k < i ==> slots[k].Some?)
    requires i < |slots| ==> slots[i].None?
    ensures FirstFree(slots, 0) == i
  {
  }
}

/** In-memory manager of secure deletion secrets (common/src/keyblob/sdd_mem.rs). */
module SlotManager {
  import opened Base
  import opened KekInfo
  import opened SlotSpec

  class InMemorySlotManager {
    var factorySecret: Option<Bytes>
    const slots: array<Option<SecureDeletionData>>

    function State(): SlotState
      reads this, slots
    {
      SlotState(factorySecret, slots[..])
    }

    constructor (n: nat)
      ensures fresh(slots) && slots.Length == n
      ensures State() == SlotState(None, seq(n, _ => None))
    {
      factorySecret := None;
      slots := new Option<SecureDeletionData>[n](_ => None);
    }

    method GetOrCreateFactoryResetSecret(drawn: Bytes) returns (r: Result<SecureDeletionData>)
      modifies this`factorySecret
      ensures State() == WithFactory(old(State()), drawn)
      ensures r == FactorySdd(State()) && r.Ok?
    {
      if factorySecret.None? {
        factorySecret := Some(drawn);
      }
      r := Ok(SecureDeletionData(factorySecret.value, Zeros(16)));
    }

    method NewSecret(freshFactory: Bytes, freshKey: Bytes) returns (r: Result<(nat, SecureDeletionData)>)
      modifies this`factorySecret, slots
      ensures (State(), r) == SlotSpec.NewSecret(old(State()), freshFactory, freshKey)
    {
      for idx := 0 to slots.Length
        invariant forall k :: 0 <= k < idx ==> slots[k].Some?
        invariant State() == old(State())
      {
        if slots[idx].None? {
          FirstFreeIs(slots[..], idx);
          var base := GetOrCreateFactoryResetSecret(freshFactory);
          var sdd := base.value.(secureDeletionSecret := freshKey);
          slots[idx] := Some(sdd);
          return Ok((idx, sdd));
        }
      }
      FirstFreeIs(slots[..], slots.Length);
      r := Err(RollbackResistanceUnavailable);
    }

    method DeleteSecret(slot: nat) returns (r: Result<()>)
      modifies slots
      ensures State() == SlotSpec.DeleteSecret(old(State()), slot)
      ensures r.Ok? <==> GetSecret(old(State()), slot).Ok?
      ensures r == Err(Panic) <==> slot >= slots.Length
    {
      if slot >= slots.Length {
        return Err(Panic);
      }
      r := if slots[slot].Some? then Ok(()) else Err(InvalidKeyBlob);
      slots[slot] := None;
    }

    method DeleteAll()
      modifies this`factorySecret, slots
      ensures State() == SlotSpec.DeleteAll(old(State()))
    {
      factorySecret := None;
      for idx := 0 to slots.Length
        invariant factorySecret == None
        invariant forall k :: 0 <= k < idx ==> slots[k] == None
      {
        slots[idx] := None;
      }
    }
  }
}
