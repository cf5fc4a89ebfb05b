/** Per-boot use counts of keys (ta/src/lib.rs): a bounded map from key IDs to counts. */
module UseCountSpec {
  import opened Base

  type KeyId = Bytes

  const MAX_USE_COUNTED_KEYS := 32

  datatype Call = Call(keyId: KeyId, maxUses: U32)

  /** A key that is not yet counted needs room, and gets it even if its limit is zero. */
  function Step(m: map<KeyId, nat>, c: Call): (map<KeyId, nat>, Result<()>) {
    if c.keyId !in m && |m| >= MAX_USE_COUNTED_KEYS then (m, Err(TooManyOperations))
    else
      var count := if c.keyId in m then m[c.keyId] else 0;
      if count >= c.maxUses then (m[c.keyId := count], Err(KeyMaxOpsExceeded)) else (m[c.keyId := count + 1], Ok(()))
  }

  function After(calls: seq<Call>): map<KeyId, nat> {
    if calls == [] then map[] else Step(After(calls[..|calls| - 1]), calls[|calls| - 1]).0
  }

  function Succeeded(calls: seq<Call>): bool
    requires calls != []
  {
    Step(After(calls[..|calls| - 1]), calls[|calls| - 1]).1.Ok?
  }

  /** How often key `k` was used successfully. */
  function Successes(calls: seq<Call>, k: KeyId): nat {
    if calls == [] then 0
    else
      Successes(calls[..|calls| - 1], k) + (if calls[|calls| - 1].keyId == k && Succeeded(calls) then 1 else 0)
  }

  function Attempts(calls: seq<Call>, k: KeyId): nat {
    if calls == [] then 0 else Attempts(calls[..|calls| - 1], k) + (if calls[|calls| - 1].keyId == k then 1 else 0)
  }

  /** After every run each count is the number of successful uses, a key without a count has none, and
      the table stays within its size. */
  lemma {:induction false} CountsAreSuccesses(calls: seq<Call>, k: KeyId)
    ensures |After(calls)| <= MAX_USE_COUNTED_KEYS
    ensures Successes(calls, k) == if k in After(calls) then After(calls)[k] else 0
  {
    if calls != [] {
      CountsAreSuccesses(calls[..|calls| - 1], k);
    }
  }

  predicate Limited(calls: seq<Call>, k: KeyId, m: U32) {
    forall i :: 0 <= i < |calls| && calls[i].keyId == k ==> calls[i].maxUses == m
  }

  /** Under a fixed limit `m` no run uses a key more than `m` times. A key that got a place in the table is
      refused only by its limit; one that did not is never used. */
  lemma {:induction false} SuccessesExact(calls: seq<Call>, k: KeyId, m: U32)
    requires Limited(calls, k, m)
    ensures Successes(calls, k) == if k in After(calls) then Min(m, Attempts(calls, k)) else 0
  {
    if calls != [] {
      var init, last := calls[..|calls| - 1], calls[|calls| - 1];
      SuccessesExact(init, k, m);
      CountsAreSuccesses(init, k);
      NoRoomNoCount(init, k);
      assert last.keyId == k ==> last.maxUses == m;
    }
  }

  /** Places are never given up, so a key without one either was not tried or cannot get one any more. */
  lemma {:induction false} NoRoomNoCount(calls: seq<Call>, k: KeyId)
    ensures k !in After(calls) && Attempts(calls, k) > 0 ==> |After(calls)| >= MAX_USE_COUNTED_KEYS
  {
    if calls != [] {
      var init, last := calls[..|calls| - 1], calls[|calls| - 1];
      NoRoomNoCount(init, k);
      if |After(init)| >= MAX_USE_COUNTED_KEYS {
        assert After(calls).Keys >= After(init).Keys;
        LargerMap(After(init), After(calls));
      }
    }
  }

  lemma LargerMap(m: map<KeyId, nat>, n: map<KeyId, nat>)
    requires m.Keys <= n.Keys
    ensures |m| <= |n|
  {
    assert n.Keys == m.Keys + (n.Keys - m.Keys);
    assert |m| == |m.Keys| && |n| == |n.Keys|;
  }
}

module UseCounts {
  import opened Base
  import opened UseCountSpec

  datatype UseCount = UseCount(keyId: KeyId, count: nat)

  /** The first `used` entries are occupied, by distinct keys, and hold the counts of `m`. */
  ghost predicate Represents(s: seq<Option<UseCount>>, used: nat, m: map<KeyId, nat>) {
    && used <= |s|
    && (forall i :: 0 <= i < |s| ==> (s[i].Some? <==> i < used))
    && (forall i :: 0 <= i < used ==> s[i].value.keyId in m && m[s[i].value.keyId] == s[i].value.count)
    && (forall i, j :: 0 <= i < j < used ==> s[i].value.keyId != s[j].value.keyId)
    && (forall k :: k in m ==> exists i :: 0 <= i < used && s[i].value.keyId == k)
  }

  ghost function Ids(s: seq<Option<UseCount>>, n: nat): set<KeyId>
    requires n <= |s| && forall i :: 0 <= i < n ==> s[i].Some?
  {
    if n == 0 then {} else Ids(s, n - 1) + {s[n - 1].value.keyId}
  }

  lemma {:induction false} IdsMember(s: seq<Option<UseCount>>, n: nat, k: KeyId)
    requires n <= |s| && forall i :: 0 <= i < n ==> s[i].Some?
    ensures k in Ids(s, n) <==> exists i :: 0 <= i < n && s[i].value.keyId == k
  {
    if n > 0 {
      IdsMember(s, n - 1, k);
    }
  }

  lemma {:induction false} IdsSize(s: seq<Option<UseCount>>, n: nat)
    requires n <= |s| && forall i :: 0 <= i < n ==> s[i].Some?
    requires forall i, j :: 0 <= i < j < n ==> s[i].value.keyId != s[j].value.keyId
    ensures |Ids(s, n)| == n
  {
    if n > 0 {
      IdsSize(s, n - 1);
      IdsMember(s, n - 1, s[n - 1].value.keyId);
    }
  }

  /** So the map has as many keys as there are occupied entries. */
  lemma RepresentsSize(s: seq<Option<UseCount>>, used: nat, m: map<KeyId, nat>)
    requires Represents(s, used, m)
    ensures |m| == used
  {
    IdsSize(s, used);
    forall k
      ensures k in m.Keys <==> k in Ids(s, used)
    {
      IdsMember(s, used, k);
    }
    assert m.Keys == Ids(s, used);
    assert |m| == |m.Keys|;
  }

  /** Having just got a place, a key is in the same position as before. */
  lemma StepAfterTake(m: map<KeyId, nat>, c: Call)
    requires c.keyId !in m && |m| < MAX_USE_COUNTED_KEYS
    ensures Step(m[c.keyId := 0], c) == Step(m, c)
  {
    assert m[c.keyId := 0][c.keyId := 0] == m[c.keyId := 0];
    assert m[c.keyId := 0][c.keyId := 1] == m[c.keyId := 1];
  }

  class UseCountTable {
    const entries: array<Option<UseCount>>
    ghost var used: nat
    ghost var model: map<KeyId, nat>

    ghost predicate Valid()
      reads this, entries
    {
      entries.Length == MAX_USE_COUNTED_KEYS && Represents(entries[..], used, model)
    }

    constructor ()
      ensures Valid() && fresh(entries) && model == map[]
    {
      entries := new Option<UseCount>[MAX_USE_COUNTED_KEYS](_ => None);
      used := 0;
      model := map[];
    }

    /** The scan for an entry with this key, or else for a free one. */
    method FindSlot(keyId: KeyId) returns (slot: Option<nat>, free: Option<nat>)
      requires Valid()
      ensures slot.Some? ==> slot.value < used && entries[slot.value].value.keyId == keyId
      ensures slot.None? ==> keyId !in model && free == if used < entries.Length then Some(used) else None
    {
      slot, free := None, None;
      var i := 0;
      while i < entries.Length && slot.None?
        invariant 0 <= i <= entries.Length
        invariant slot.Some? ==> slot.value < used && entries[slot.value].value.keyId == keyId
        invariant slot.None? ==> forall j :: 0 <= j < i && j < used ==> entries[j].value.keyId != keyId
        invariant free == if used < i then Some(used) else None
        decreases entries.Length - i, slot.None?
      {
        assert entries[..][i] == entries[i];
        if entries[i].None? {
          if free.None? {
            free := Some(i);
          }
          i := i + 1;
        } else if entries[i].value.keyId == keyId {
          slot := Some(i);
        } else {
          i := i + 1;
        }
      }
    }

    /** Takes the first free entry for a key that has none. */
    method TakeSlot(keyId: KeyId, free: nat)
      requires Valid() && keyId !in model && free == used < entries.Length
      modifies this, entries
      ensures Valid() && model == old(model)[keyId := 0] && used == old(used) + 1
      ensures entries[free] == Some(UseCount(keyId, 0))
    {
      ghost var s := entries[..];
      entries[free] := Some(UseCount(keyId, 0));
      assert entries[..] == s[free := Some(UseCount(keyId, 0))];
      RepresentsTake(s, used, model, keyId);
      used, model := used + 1, model[keyId := 0];
    }

    /** Counts a use at an occupied entry, within the limit. */
    method CountUse(idx: nat, maxUses: U32) returns (r: Result<()>)
      requires Valid() && idx < used
      modifies this`model, entries
      ensures Valid()
      ensures (model, r) == Step(old(model), Call(old(entries[idx]).value.keyId, maxUses))
    {
      ghost var s := entries[..];
      assert s[idx] == entries[idx];
      var keyId, count := entries[idx].value.keyId, entries[idx].value.count;
      if count >= maxUses {
        assert model[keyId := count] == model;
        return Err(KeyMaxOpsExceeded);
      }
      entries[idx] := Some(UseCount(keyId, count + 1));
      assert entries[..] == s[idx := Some(UseCount(keyId, count + 1))];
      RepresentsCount(s, used, model, idx, count + 1);
      model := model[keyId := count + 1];
      r := Ok(());
    }

    method Update(keyId: KeyId, maxUses: U32) returns (r: Result<()>)
      requires Valid()
      modifies this, entries
      ensures Valid()
      ensures (model, r) == Step(old(model), Call(keyId, maxUses))
    {
      RepresentsSize(entries[..], used, model);
      var slot, free := FindSlot(keyId);
      if slot.None? {
        if free.None? {
          return Err(TooManyOperations);
        }
        StepAfterTake(model, Call(keyId, maxUses));
        TakeSlot(keyId, free.value);
        slot := free;
      }
      r := CountUse(slot.value, maxUses);
    }
  }

  lemma RepresentsTake(s: seq<Option<UseCount>>, used: nat, m: map<KeyId, nat>, k: KeyId)
    requires Represents(s, used, m) && used < |s| && k !in m
    ensures Represents(s[used := Some(UseCount(k, 0))], used + 1, m[k := 0])
  {
    var s', m' := s[used := Some(UseCount(k, 0))], m[k := 0];
    assert forall i :: 0 <= i < used ==> s'[i] == s[i];
    forall q | q in m'
      ensures exists i :: 0 <= i < used + 1 && s'[i].value.keyId == q
    {
      if q == k {
        assert s'[used].value.keyId == q;
      } else {
        var i :| 0 <= i < used && s[i].value.keyId == q;
        assert s'[i].value.keyId == q;
      }
    }
  }

  lemma RepresentsCount(s: seq<Option<UseCount>>, used: nat, m: map<KeyId, nat>, idx: nat, count: nat)
    requires Represents(s, used, m) && idx < used
    ensures Represents(s[idx := Some(UseCount(s[idx].value.keyId, count))], used, m[s[idx].value.keyId := count])
  {
    var k := s[idx].value.keyId;
    var s', m' := s[idx := Some(UseCount(k, count))], m[k := count];
    assert forall i :: 0 <= i < used ==> s'[i].Some? && s'[i].value.keyId == s[i].value.keyId;
    forall q | q in m'
      ensures exists i :: 0 <= i < used && s'[i].value.keyId == q
    {
      assert q in m;
      var i :| 0 <= i < used && s[i].value.keyId == q;
      assert s'[i].value.keyId == q;
    }
  }
}
