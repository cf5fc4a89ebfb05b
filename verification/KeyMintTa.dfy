/** The operation table of the TA and the methods that work on it (ta/src/operation.rs), proved to
    act on the table as the state machine of `OperationSpec` acts on a map. */
module KeyMintTa {
  import opened Base
  import opened KeyParams
  import opened Auth
  import opened OperationSpec
  import Tags

  /** The table holds exactly the operations of the map, each under its own handle. */
  ghost predicate Represents<S>(table: seq<Option<Operation<S>>>, ops: map<I64, Operation<S>>) {
    && (forall i :: 0 <= i < |table| && table[i].Some? ==>
          table[i].value.handle in ops && ops[table[i].value.handle] == table[i].value)
    && (forall h :: h in ops ==> exists i :: 0 <= i < |table| && table[i].Some? && table[i].value.handle == h)
    && (forall i, j :: 0 <= i < j < |table| && table[i].Some? && table[j].Some? ==>
          table[i].value.handle != table[j].value.handle)
  }

  lemma RepresentsPut<S>(table: seq<Option<Operation<S>>>, ops: map<I64, Operation<S>>, i: nat, op: Operation<S>)
    requires Represents(table, ops) && i < |table|
    requires if table[i].Some? then table[i].value.handle == op.handle else op.handle !in ops
    ensures Represents(table[i := Some(op)], ops[op.handle := op])
  {
    var t, m := table[i := Some(op)], ops[op.handle := op];
    forall h | h in m ensures exists k :: 0 <= k < |t| && t[k].Some? && t[k].value.handle == h {
      if h == op.handle {
        assert t[i].Some? && t[i].value.handle == h;
      } else {
        var k :| 0 <= k < |table| && table[k].Some? && table[k].value.handle == h;
        assert t[k].Some? && t[k].value.handle == h;
      }
    }
  }

  lemma RepresentsTake<S>(table: seq<Option<Operation<S>>>, ops: map<I64, Operation<S>>, i: nat)
    requires Represents(table, ops) && i < |table| && table[i].Some?
    ensures Represents(table[i := None], ops - {table[i].value.handle})
  {
    var t, m := table[i := None], ops - {table[i].value.handle};
    forall h | h in m ensures exists k :: 0 <= k < |t| && t[k].Some? && t[k].value.handle == h {
      var k :| 0 <= k < |table| && table[k].Some? && table[k].value.handle == h;
      assert t[k].Some? && t[k].value.handle == h;
    }
  }

  function CountSome<S>(table: seq<Option<Operation<S>>>): (n: nat)
    ensures n <= |table|
    ensures n == |table| <==> forall i :: 0 <= i < |table| ==> table[i].Some?
  {
    if table == [] then 0
    else
      assert table == [table[0]] + table[1..];
      (if table[0].Some? then 1 else 0) + CountSome(table[1..])
  }

  /** The map has as many entries as the table has occupied slots. */
  lemma {:induction false} RepresentsSize<S>(table: seq<Option<Operation<S>>>, ops: map<I64, Operation<S>>)
    requires Represents(table, ops)
    ensures |ops| == CountSome(table)
  {
    if table == [] {
      assert ops == map[];
    } else if table[0].None? {
      DropFirst(table, ops, {});
      assert ops - {} == ops;
      RepresentsSize(table[1..], ops);
    } else {
      var h := table[0].value.handle;
      DropFirst(table, ops, {h});
      RepresentsSize(table[1..], ops - {h});
      assert (ops - {h}).Keys == ops.Keys - {h};
      assert |ops.Keys| == |ops.Keys - {h}| + 1;
    }
  }

  lemma DropFirst<S>(table: seq<Option<Operation<S>>>, ops: map<I64, Operation<S>>, gone: set<I64>)
    requires table != [] && Represents(table, ops)
    requires gone == if table[0].Some? then {table[0].value.handle} else {}
    ensures Represents(table[1..], ops - gone)
  {
    var t, m := table[1..], ops - gone;
    forall h | h in m ensures exists k :: 0 <= k < |t| && t[k].Some? && t[k].value.handle == h {
      var k :| 0 <= k < |table| && table[k].Some? && table[k].value.handle == h;
      assert t[k - 1] == table[k];
    }
  }

  /** Some drawn handle is not in use. */
  predicate Supplies<S>(draws: seq<I64>, live: map<I64, Operation<S>>) { exists i :: 0 <= i < |draws| && draws[i] !in live }

  function FirstUnused<S>(draws: seq<I64>, live: map<I64, Operation<S>>): I64
    requires Supplies(draws, live)
  {
    if draws[0] !in live then draws[0]
    else
      assert Supplies(draws[1..], live) by {
        var i :| 0 <= i < |draws| && draws[i] !in live;
        assert draws[1..][i - 1] == draws[i];
      }
      FirstUnused(draws[1..], live)
  }

  lemma {:induction false} FirstUnusedIsUnused<S>(draws: seq<I64>, live: map<I64, Operation<S>>)
    requires Supplies(draws, live)
    ensures FirstUnused(draws, live) in draws && FirstUnused(draws, live) !in live
  {
    if draws[0] in live {
      var i :| 0 <= i < |draws| && draws[i] !in live;
      assert draws[1..][i - 1] == draws[i];
      FirstUnusedIsUnused(draws[1..], live);
    }
  }

  class KeyMintTa<S> {
    const cfg: Config<S>
    var operations: seq<Option<Operation<S>>>
    var presenceRequiredOp: Option<I64>
    var deletedSlots: seq<nat>
    /** The table as a map. */
    ghost var live: map<I64, Operation<S>>

    ghost predicate Valid()
      reads this
    {
      |operations| == cfg.capacity && Represents(operations, live)
    }

    ghost function State(): TaState<S>
      reads this
    {
      TaState(live, presenceRequiredOp, deletedSlots)
    }

    constructor (cfg: Config<S>)
      ensures Valid() && State() == Initial() && this.cfg == cfg
    {
      this.cfg := cfg;
      operations := seq(cfg.capacity, _ => None);
      presenceRequiredOp := None;
      deletedSlots := [];
      live := map[];
    }

    // ---- Table lookups ----

    method NewOperationIndex() returns (r: Result<nat>)
      requires Valid()
      ensures r.Ok? <==> |live| < cfg.capacity
      ensures r.Ok? ==> r.value < |operations| && operations[r.value].None?
      ensures r.Err? ==> r.error == TooManyOperations
    {
      RepresentsSize(operations, live);
      for i := 0 to |operations|
        invariant forall k :: 0 <= k < i ==> operations[k].Some?
      {
        if operations[i].None? {
          return Ok(i);
        }
      }
      r := Err(TooManyOperations);
    }

    method OpIndex(h: I64) returns (r: Result<nat>)
      requires Valid()
      ensures r.Ok? <==> h in live
      ensures r.Ok? ==> r.value < |operations| && operations[r.value] == Some(live[h])
                        && live[h].handle == h
      ensures r.Err? ==> r.error == InvalidOperation
    {
      for i := 0 to |operations|
        invariant forall k :: 0 <= k < i && operations[k].Some? ==> operations[k].value.handle != h
      {
        if operations[i].Some? && operations[i].value.handle == h {
          return Ok(i);
        }
      }
      r := Err(InvalidOperation);
    }

    /** Draw handles until one is not in use; the generator must eventually supply one. */
    method NewOpHandle(draws: seq<I64>) returns (h: I64)
      requires Valid() && Supplies(draws, live)
      ensures h in draws && h !in live
      ensures h == FirstUnused(draws, live)
    {
      var k := 0;
      while true
        invariant 0 <= k < |draws| && Supplies(draws[k..], live)
        invariant FirstUnused(draws[k..], live) == FirstUnused(draws, live)
        decreases |draws| - k
      {
        assert draws[k..][1..] == draws[k + 1..];
        var idx := OpIndex(draws[k]);
        if idx.Err? {
          return draws[k];
        }
        k := k + 1;
      }
    }

    // ---- begin ----

    /** `begin_operation`; the handle of `c` is not looked at, but drawn. */
    method BeginOperation(c: BeginCall<S>, draws: seq<I64>) returns (r: Result<I64>)
      requires Valid() && Supplies(draws, live)
      modifies this
      ensures Valid()
      ensures (State(), r) == Begin(cfg, old(State()), c.(handle := FirstUnused(draws, old(live))))
      ensures r.Ok? ==> r.value in draws && r.value !in old(live)
    {
      var idx := NewOperationIndex();
      if idx.Err? {
        return Err(idx.error);
      }
      var op := BuildOperation(c, draws);
      if op.Err? {
        return Err(op.error);
      }
      FirstUnusedIsUnused(draws, live);
      Insert(idx.value, op.value.0, op.value.1);
      r := Ok(op.value.0.handle);
    }

    method Insert(idx: nat, op: Operation<S>, needsPresence: bool)
      requires Valid() && idx < |operations| && operations[idx].None? && op.handle !in live && |live| < cfg.capacity
      modifies this
      ensures Valid() && live == old(live)[op.handle := op] && deletedSlots == old(deletedSlots)
      ensures presenceRequiredOp == if needsPresence then Some(op.handle) else old(presenceRequiredOp)
    {
      RepresentsPut(operations, live, idx, op);
      operations := operations[idx := Some(op)];
      live := live[op.handle := op];
      if needsPresence {
        presenceRequiredOp := Some(op.handle);
      }
    }

    /** The checks of `begin_operation` in their order, and the handle drawn after them. */
    method BuildOperation(c: BeginCall<S>, draws: seq<I64>) returns (r: Result<(Operation<S>, bool)>)
      requires Valid() && Supplies(draws, live)
      ensures r == NewOperation(cfg, presenceRequiredOp, c.(handle := FirstUnused(draws, live)))
    {
      if c.checks.Err? {
        return Err(c.checks.error);
      }
      var trustedConfData: Option<Bytes> := None;
      if c.signing {
        var confirm := Tags.GetBoolTagValue(c.chars, TrustedConfirmationRequired);
        if confirm.Err? {
          return Err(confirm.error);
        }
        if confirm.value {
          trustedConfData := Some(CONFIRMATION_DATA_PREFIX);
        }
      }
      var _, limit := Tags.ScanForTag(c.chars, UsageCountLimitOf, InvalidTag);
      if limit.Err? {
        return Err(limit.error);
      }
      var slotToDelete := if limit.value == Some(1) then c.sddSlot else None;
      var presence := Tags.GetBoolTagValue(c.chars, TrustedUserPresenceRequired);
      if presence.Err? {
        return Err(presence.error);
      }
      if presence.value && presenceRequiredOp.Some? {
        return Err(ConcurrentProofOfPresenceRequested);
      }
      var required := NewAuthInfo(c.chars);
      if required.Err? {
        return Err(required.error);
      }
      var left := CheckBeginAuth(cfg.hasClock, c.env.hmac, required.value, c.token, c.now);
      if left.Err? {
        return Err(left.error);
      }
      var h := NewOpHandle(draws);
      if c.begun.Err? {
        return Err(c.begun.error);
      }
      var b := c.begun.value;
      r := Ok((Operation(h, b.kind == AesGcmOp, slotToDelete, trustedConfData, left.value, b.kind, b.maxInput, b.crypto, 0),
               presence.value));
    }

    // ---- Calls on an operation ----

    /** Remove an operation that has failed. */
    method Destroy(idx: nat, h: I64)
      requires Valid() && idx < |operations| && operations[idx].Some? && operations[idx].value.handle == h
      modifies this
      ensures Valid() && live == old(live) - {h}
      ensures presenceRequiredOp == ClearPresence(old(presenceRequiredOp), h) && deletedSlots == old(deletedSlots)
    {
      if presenceRequiredOp == Some(h) {
        presenceRequiredOp := None;
      }
      RepresentsTake(operations, live, idx);
      operations := operations[idx := None];
      live := live - {h};
    }

    method Store(idx: nat, op: Operation<S>)
      requires Valid() && idx < |operations| && operations[idx].Some? && operations[idx].value.handle == op.handle
      modifies this
      ensures Valid() && live == old(live)[op.handle := op]
      ensures presenceRequiredOp == old(presenceRequiredOp) && deletedSlots == old(deletedSlots)
    {
      RepresentsPut(operations, live, idx, op);
      operations := operations[idx := Some(op)];
      live := live[op.handle := op];
    }

    method OpUpdateAad(a: OpArgs, data: Bytes) returns (r: Result<()>)
      requires Valid()
      modifies this
      ensures Valid()
      ensures (State(), r) == UpdateAad(cfg, old(State()), a, data)
    {
      var idx := OpIndex(a.handle);
      if idx.Err? {
        return Err(idx.error);
      }
      var op := Authorize(cfg, operations[idx.value].value, a);
      if op.Err? {
        return Err(op.error);
      }
      var result := AadBody(cfg, op.value, data);
      if result.Err? {
        Destroy(idx.value, a.handle);
        return Err(result.error);
      }
      Store(idx.value, result.value.0);
      r := Ok(());
    }

    method OpUpdate(a: OpArgs, data: Bytes) returns (r: Result<Bytes>)
      requires Valid()
      modifies this
      ensures Valid()
      ensures (State(), r) == Update(cfg, old(State()), a, data)
    {
      var checkPresence := presenceRequiredOp == Some(a.handle);
      if checkPresence {
        presenceRequiredOp := None;
      }
      var presenceOk := !checkPresence || a.env.tupAvailable;
      var idx := OpIndex(a.handle);
      if idx.Err? {
        return Err(idx.error);
      }
      var op := Authorize(cfg, operations[idx.value].value, a);
      if op.Err? {
        return Err(op.error);
      }
      var result := UpdateBody(cfg, op.value, data, presenceOk);
      if result.Err? {
        Destroy(idx.value, a.handle);
        return Err(result.error);
      }
      Store(idx.value, result.value.0);
      r := Ok(result.value.1);
    }

    /** `take_operation`. */
    method TakeOperation(h: I64) returns (r: Result<Operation<S>>)
      requires Valid()
      modifies this`operations, this`live
      ensures Valid()
      ensures r == if h in old(live) then Ok(old(live)[h]) else Err(InvalidOperation)
      ensures live == old(live) - {h}
    {
      var idx := OpIndex(h);
      if idx.Err? {
        assert live - {h} == live;
        return Err(idx.error);
      }
      r := Ok(operations[idx.value].value);
      RepresentsTake(operations, live, idx.value);
      operations := operations[idx.value := None];
      live := live - {h};
    }

    method OpFinish(a: OpArgs, f: FinishArgs) returns (r: Result<Bytes>)
      requires Valid()
      modifies this
      ensures Valid()
      ensures (State(), r) == Finish(cfg, old(State()), a, f)
    {
      var op := TakeOperation(a.handle);
      if op.Err? {
        assert old(live) - {a.handle} == old(live);
        return Err(op.error);
      }
      var auth := CheckSubsequentAuth(cfg.hasClock, a.env.hmac, op.value.handle, op.value.authInfo, a.token, a.timestamp);
      if auth.Err? {
        return Err(auth.error);
      }
      var presenceOk := true;
      if presenceRequiredOp == Some(a.handle) {
        presenceRequiredOp := None;
        presenceOk := a.env.tupAvailable;
      }
      r := FinishBody(cfg, op.value, a.env, presenceOk, f);
      if r.Ok? && op.value.slotToDelete.Some? {
        deletedSlots := deletedSlots + [op.value.slotToDelete.value];
      }
    }

    method OpAbort(h: I64) returns (r: Result<()>)
      requires Valid()
      modifies this
      ensures Valid()
      ensures (State(), r) == Abort(old(State()), h)
    {
      if presenceRequiredOp == Some(h) {
        presenceRequiredOp := None;
      }
      var op := TakeOperation(h);
      r := if op.Ok? then Ok(()) else Err(op.error);
      assert h !in old(live) ==> old(live) - {h} == old(live);
    }
  }
}
