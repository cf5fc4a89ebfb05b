/** Runs of the HAL seen from the TA: the calls that get through to it, whatever the channel loses, make up a
    run of its own, so all that holds of those holds here; and no held operation has had an update refused. */
module HalTraces {
  import opened Base
  import opened Auth
  import opened OperationSpec
  import opened OperationRuns
  import opened PresenceRuns
  import opened HalRequests
  import opened HalSpec
  import opened HalRefinement
  import opened HalRuns

  // ---- The calls that reach the TA ----

  function CallOf<S>(r: Request, env: Env): Call<S> {
    match r
    case UpdateAadRequest(h, input, token, timestamp) => AadCalled(OpArgs(h, token, timestamp, env), input)
    case UpdateRequest(h, input, token, timestamp) => UpdateCalled(OpArgs(h, token, timestamp, env), input)
    case FinishRequest(h, input, signature, token, timestamp, confirmation) =>
      FinishCalled(OpArgs(h, token, timestamp, env), FinishArgs(input, signature, confirmation))
    case AbortRequest(h) => AbortCalled(h)
  }

  function RequestCalls<S>(maxSize: nat, r: Request, trip: Trip): seq<Call<S>> {
    if |Encoded(r)| > maxSize || trip.fault.RequestLost? then [] else [CallOf(r, trip.env)]
  }

  function ChunkCalls<S>(cfg: Config<S>, maxSize: nat, s: TaState<S>, template: Request, data: Bytes, trips: nat -> Trip, k: nat)
    : seq<Call<S>>
    requires maxSize > MAX_CBOR_OVERHEAD && IsUpdate(template)
    decreases |data|
  {
    if data == [] then []
    else
      var n := Min(maxSize - MAX_CBOR_OVERHEAD, |data|);
      var chunk := WithInput(template, data[..n]);
      var (s1, r1) := Execute(cfg, maxSize, s, chunk, trips(k));
      RequestCalls(maxSize, chunk, trips(k))
      + if r1.Err? then [] else ChunkCalls(cfg, maxSize, s1, template, data[n..], trips, k + 1)
  }

  /** What remains of a finish when its first piece has gone ahead as an update. */
  function RestOf(maxSize: nat, f: Request): Request
    requires maxSize > MAX_CBOR_OVERHEAD && f.FinishRequest? && Cut(maxSize, f)
  {
    f.(lastInput := Some(f.lastInput.value[maxSize - MAX_CBOR_OVERHEAD..]))
  }

  function FinishCalls<S>(cfg: Config<S>, maxSize: nat, s: TaState<S>, f: Request, trips: nat -> Trip, k: nat): seq<Call<S>>
    requires maxSize > MAX_CBOR_OVERHEAD && f.FinishRequest?
    decreases if f.lastInput.Some? then |f.lastInput.value| else 0
  {
    if !Cut(maxSize, f) then RequestCalls(maxSize, f, trips(k))
    else
      var u := UpdateBefore(f, maxSize - MAX_CBOR_OVERHEAD);
      var (s1, r1) := Execute(cfg, maxSize, s, u, trips(k));
      RequestCalls(maxSize, u, trips(k))
      + if r1.Err? then [] else FinishCalls(cfg, maxSize, s1, RestOf(maxSize, f), trips, k + 1)
  }

  function SendCalls<S>(cfg: Config<S>, maxSize: nat, s: TaState<S>, r: Request, trips: nat -> Trip): seq<Call<S>>
    requires maxSize > MAX_CBOR_OVERHEAD
  {
    match r
    case FinishRequest(_, _, _, _, _, _) => FinishCalls(cfg, maxSize, s, r, trips, 0)
    case AbortRequest(_) => RequestCalls(maxSize, r, trips(0))
    case _ => ChunkCalls(cfg, maxSize, s, r, r.input, trips, 0)
  }

  function EventCalls<S>(cfg: Config<S>, maxSize: nat, sys: Sys<S>, e: Event<S>): seq<Call<S>>
    requires maxSize > MAX_CBOR_OVERHEAD
  {
    match e
    case BeginEvent(c, fault) => if fault.RequestLost? then [] else [BeginCalled(c)]
    case SendEvent(i, r, trips) =>
      if i >= |sys.held| || sys.held[i].None? then []
      else SendCalls(cfg, maxSize, sys.ta, WithHandle(r, sys.held[i].value), trips)
  }

  /** Everything that reaches the TA in a run of events. */
  function TraceOf<S>(cfg: Config<S>, maxSize: nat, sys: Sys<S>, es: seq<Event<S>>): seq<Call<S>>
    requires maxSize > MAX_CBOR_OVERHEAD
    decreases |es|
  {
    if es == [] then []
    else EventCalls(cfg, maxSize, sys, es[0]) + TraceOf(cfg, maxSize, HalStep(cfg, maxSize, sys, es[0]), es[1..])
  }

  // ---- Updates that succeed ----

  /** Chunks of `data`, from the `k`-th request on, as calls on the operation with the tokens of the request. */
  function AsChunks<S>(maxSize: nat, r: Request, h: I64, data: Bytes, trips: nat -> Trip, k: nat): seq<Call<S>>
    requires maxSize > MAX_CBOR_OVERHEAD && IsUpdate(r)
    decreases |data|
  {
    if data == [] then []
    else
      var n := Min(maxSize - MAX_CBOR_OVERHEAD, |data|);
      var a := OpArgs(h, r.token, r.timestamp, trips(k).env);
      [if r.UpdateRequest? then UpdateCalled(a, data[..n]) else AadCalled(a, data[..n])] + AsChunks(maxSize, r, h, data[n..], trips, k + 1)
  }

  lemma {:induction false} ChunksArrive<S>(cfg: Config<S>, maxSize: nat, s: TaState<S>, r: Request, data: Bytes, trips: nat -> Trip, k: nat)
    requires maxSize > MAX_CBOR_OVERHEAD && IsUpdate(r) && SendChunks(cfg, maxSize, s, r, data, trips, k).1.Ok?
    ensures ChunkCalls(cfg, maxSize, s, r, data, trips, k) == AsChunks(maxSize, r, r.handle, data, trips, k)
    decreases |data|
  {
    if data != [] {
      var n := Min(maxSize - MAX_CBOR_OVERHEAD, |data|);
      var chunk := WithInput(r, data[..n]);
      var (s1, r1) := Execute(cfg, maxSize, s, chunk, trips(k));
      assert r1.Ok?;
      assert RequestCalls<S>(maxSize, chunk, trips(k)) == [CallOf(chunk, trips(k).env)];
      ChunksArrive(cfg, maxSize, s1, r, data[n..], trips, k + 1);
    }
  }

  lemma {:induction false} SameChunks<S>(maxSize: nat, r: Request, r': Request, h: I64, data: Bytes, trips: nat -> Trip, k: nat)
    requires maxSize > MAX_CBOR_OVERHEAD && IsUpdate(r) && r' == WithHandle(r, h)
    ensures AsChunks<S>(maxSize, r, h, data, trips, k) == AsChunks<S>(maxSize, r', h, data, trips, k)
    decreases |data|
  {
    if data != [] {
      SameChunks<S>(maxSize, r, r', h, data[Min(maxSize - MAX_CBOR_OVERHEAD, |data|)..], trips, k + 1);
    }
  }

  function CallData<S>(cs: seq<Call<S>>): Bytes
    decreases |cs|
  {
    if cs == [] then [] else (if cs[0].UpdateCalled? || cs[0].AadCalled? then cs[0].data else []) + CallData(cs[1..])
  }

  /** All of the data, in order. */
  lemma {:induction false} ChunksMakeInput<S>(maxSize: nat, r: Request, h: I64, data: Bytes, trips: nat -> Trip, k: nat)
    requires maxSize > MAX_CBOR_OVERHEAD && IsUpdate(r)
    ensures CallData(AsChunks<S>(maxSize, r, h, data, trips, k)) == data
    decreases |data|
  {
    if data != [] {
      var n := Min(maxSize - MAX_CBOR_OVERHEAD, |data|);
      ChunksMakeInput<S>(maxSize, r, h, data[n..], trips, k + 1);
      var cs := AsChunks<S>(maxSize, r, h, data, trips, k);
      assert cs[1..] == AsChunks<S>(maxSize, r, h, data[n..], trips, k + 1);
      assert data[..n] + data[n..] == data;
    }
  }

  /** An update or additional data that the HAL reports as successful reached the TA as its chunks, all of its input in
      order, on the object's own operation and with the tokens of the call. */
  lemma HalUpdateReaches<S>(cfg: Config<S>, maxSize: nat, sys: Sys<S>, i: nat, r: Request, trips: nat -> Trip)
    requires maxSize > MAX_CBOR_OVERHEAD && IsUpdate(r) && i < |sys.held| && sys.held[i].Some?
    requires CallOn(cfg, maxSize, sys.ta, sys.held[i], r, trips).2.Ok?
    ensures var calls := EventCalls(cfg, maxSize, sys, SendEvent(i, r, trips));
            && calls == AsChunks(maxSize, r, sys.held[i].value, r.input, trips, 0)
            && CallData(calls) == r.input
  {
    var sent := WithHandle(r, sys.held[i].value);
    ChunksArrive(cfg, maxSize, sys.ta, sent, sent.input, trips, 0);
    SameChunks<S>(maxSize, r, sent, sent.handle, r.input, trips, 0);
    ChunksMakeInput<S>(maxSize, r, sent.handle, r.input, trips, 0);
  }

  // ---- Invalidated objects ----

  /** The events without the calls on object `i`. */
  function Without<S>(es: seq<Event<S>>, i: nat): seq<Event<S>>
    decreases |es|
  {
    if es == [] then [] else (if es[0].SendEvent? && es[0].i == i then [] else [es[0]]) + Without(es[1..], i)
  }

  /** An object that has dropped its handle never gets one again and never sends anything: every run goes on, and
      reaches the TA, as without the calls on it. */
  lemma {:induction false} DroppedStaysSilent<S>(cfg: Config<S>, maxSize: nat, sys: Sys<S>, es: seq<Event<S>>, i: nat)
    requires maxSize > MAX_CBOR_OVERHEAD && i < |sys.held| && sys.held[i].None?
    ensures i < |HalRun(cfg, maxSize, sys, es).held| && HalRun(cfg, maxSize, sys, es).held[i].None?
    ensures HalRun(cfg, maxSize, sys, es) == HalRun(cfg, maxSize, sys, Without(es, i))
    ensures TraceOf(cfg, maxSize, sys, es) == TraceOf(cfg, maxSize, sys, Without(es, i))
    decreases |es|
  {
    if es != [] {
      var sys' := HalStep(cfg, maxSize, sys, es[0]);
      DroppedStaysSilent(cfg, maxSize, sys', es[1..], i);
      if es[0].SendEvent? && es[0].i == i {
        assert sys'.held == sys.held;
        assert [] + Without(es[1..], i) == Without(es[1..], i);
        assert EventCalls(cfg, maxSize, sys, es[0]) == [];
      } else {
        assert ([es[0]] + Without(es[1..], i))[1..] == Without(es[1..], i);
      }
    }
  }

  // ---- Watching one handle ----

  /** What a run so far says: the state, whether its handles were unused, and of one handle whether an update
      was refused early and its operation's life. */
  datatype Watched<S> = Watched(ta: TaState<S>, valid: bool, refused: bool, life: Option<Life<S>>)

  function Watch<S>(cfg: Config<S>, w: Watched<S>, c: Call<S>, h: I64): Watched<S> {
    var (s', ok) := Step(cfg, w.ta, c);
    Watched(s', w.valid && (c.BeginCalled? ==> c.b.handle !in w.ta.ops), NextRefused(w.refused, w.life, c, ok, h),
            NextLife(w.life, c, ok, h))
  }

  function WatchAll<S>(cfg: Config<S>, w: Watched<S>, cs: seq<Call<S>>, h: I64): Watched<S>
    decreases |cs|
  {
    if cs == [] then w else WatchAll(cfg, Watch(cfg, w, cs[0], h), cs[1..], h)
  }

  lemma {:induction false} WatchJoins<S>(cfg: Config<S>, w: Watched<S>, a: seq<Call<S>>, b: seq<Call<S>>, h: I64)
    ensures WatchAll(cfg, w, a + b, h) == WatchAll(cfg, WatchAll(cfg, w, a, h), b, h)
    decreases |a|
  {
    if a == [] {
      assert a + b == b;
    } else {
      assert (a + b)[1..] == a[1..] + b;
      WatchJoins(cfg, Watch(cfg, w, a[0], h), a[1..], b, h);
    }
  }

  function Unwatched<S>(): Watched<S> { Watched(Initial(), true, false, None) }

  /** Watching a run from its start sees what is defined over whole runs. */
  lemma {:induction false} WatchedRun<S>(cfg: Config<S>, calls: seq<Call<S>>, h: I64)
    ensures WatchAll(cfg, Unwatched(), calls, h) ==
            Watched(After(cfg, calls), ValidRun(cfg, calls), RefusedEarly(cfg, calls, h), LifeOf(cfg, calls, h))
  {
    if calls != [] {
      var init, last := calls[..|calls| - 1], calls[|calls| - 1];
      WatchedRun(cfg, init, h);
      WatchJoins(cfg, Unwatched(), init, [last], h);
      assert init + [last] == calls;
      WatchOne(cfg, WatchAll(cfg, Unwatched(), init, h), last, h);
    }
  }

  lemma WatchOne<S>(cfg: Config<S>, w: Watched<S>, c: Call<S>, h: I64)
    ensures WatchAll(cfg, w, [c], h) == Watch(cfg, w, c, h)
  {
    assert [c][1..] == [];
  }

  // ---- The calls take the TA where the HAL takes it ----

  lemma ServeIsStep<S>(cfg: Config<S>, s: TaState<S>, r: Request, env: Env)
    ensures Step(cfg, s, CallOf<S>(r, env)) == (Serve(cfg, s, r, env).0, Serve(cfg, s, r, env).1.Ok?)
  {
  }

  /** Watching moved on to state `s'`, with nothing refused on the handle if it was `quiet`. */
  predicate Moved<S(==)>(w: Watched<S>, w': Watched<S>, s': TaState<S>, quiet: bool) {
    w'.ta == s' && (w.valid ==> w'.valid) && (quiet ==> w'.refused == w.refused)
  }

  lemma RequestMoves<S>(cfg: Config<S>, maxSize: nat, w: Watched<S>, r: Request, trip: Trip, h: I64)
    ensures var (s', out) := Execute(cfg, maxSize, w.ta, r, trip);
            Moved(w, WatchAll(cfg, w, RequestCalls(maxSize, r, trip), h), s', h != r.handle || out.Ok?)
  {
    if |Encoded(r)| <= maxSize && !trip.fault.RequestLost? {
      ServeIsStep(cfg, w.ta, r, trip.env);
      WatchOne(cfg, w, CallOf(r, trip.env), h);
    }
  }

  lemma MovedTwice<S>(cfg: Config<S>, w: Watched<S>, a: seq<Call<S>>, b: seq<Call<S>>, h: I64, s1: TaState<S>, s2: TaState<S>, quiet: bool)
    requires Moved(w, WatchAll(cfg, w, a, h), s1, true)
    requires Moved(WatchAll(cfg, w, a, h), WatchAll(cfg, WatchAll(cfg, w, a, h), b, h), s2, quiet)
    ensures Moved(w, WatchAll(cfg, w, a + b, h), s2, quiet)
  {
    WatchJoins(cfg, w, a, b, h);
  }

  lemma {:induction false} ChunksMove<S>(cfg: Config<S>, maxSize: nat, w: Watched<S>, template: Request, data: Bytes,
                                         trips: nat -> Trip, k: nat, h: I64)
    requires maxSize > MAX_CBOR_OVERHEAD && IsUpdate(template)
    ensures var (s', out) := SendChunks(cfg, maxSize, w.ta, template, data, trips, k);
            var cs := ChunkCalls(cfg, maxSize, w.ta, template, data, trips, k);
            Moved(w, WatchAll(cfg, w, cs, h), s', h != template.handle || out.Ok?)
    decreases |data|
  {
    if data != [] {
      var n := Min(maxSize - MAX_CBOR_OVERHEAD, |data|);
      var chunk := WithInput(template, data[..n]);
      RequestMoves(cfg, maxSize, w, chunk, trips(k), h);
      var first: seq<Call<S>> := RequestCalls(maxSize, chunk, trips(k));
      var (s1, r1) := Execute(cfg, maxSize, w.ta, chunk, trips(k));
      if r1.Err? {
        assert first + [] == first;
      } else {
        ChunksMove(cfg, maxSize, WatchAll(cfg, w, first, h), template, data[n..], trips, k + 1, h);
        var (s2, r2) := SendChunks(cfg, maxSize, s1, template, data[n..], trips, k + 1);
        MovedTwice(cfg, w, first, ChunkCalls(cfg, maxSize, s1, template, data[n..], trips, k + 1), h, s1, s2,
                   h != template.handle || r2.Ok?);
      }
    }
  }

  lemma {:induction false} FinishMoves<S>(cfg: Config<S>, maxSize: nat, w: Watched<S>, f: Request, trips: nat -> Trip, k: nat, h: I64)
    requires maxSize > MAX_CBOR_OVERHEAD && f.FinishRequest?
    ensures var cs := FinishCalls(cfg, maxSize, w.ta, f, trips, k);
            Moved(w, WatchAll(cfg, w, cs, h), SendFinish(cfg, maxSize, w.ta, f, trips, k).0, h != f.handle)
    decreases if f.lastInput.Some? then |f.lastInput.value| else 0
  {
    if Cut(maxSize, f) {
      var u, rest := UpdateBefore(f, maxSize - MAX_CBOR_OVERHEAD), RestOf(maxSize, f);
      RequestMoves(cfg, maxSize, w, u, trips(k), h);
      var first: seq<Call<S>> := RequestCalls(maxSize, u, trips(k));
      var (s1, r1) := Execute(cfg, maxSize, w.ta, u, trips(k));
      if r1.Err? {
        assert first + [] == first;
      } else {
        FinishMoves(cfg, maxSize, WatchAll(cfg, w, first, h), rest, trips, k + 1, h);
        MovedTwice(cfg, w, first, FinishCalls(cfg, maxSize, s1, rest, trips, k + 1), h, s1,
                   SendFinish(cfg, maxSize, s1, rest, trips, k + 1).0, h != f.handle);
      }
    } else {
      RequestMoves(cfg, maxSize, w, f, trips(k), h);
    }
  }

  lemma SendMoves<S>(cfg: Config<S>, maxSize: nat, w: Watched<S>, r: Request, trips: nat -> Trip, h: I64)
    requires maxSize > MAX_CBOR_OVERHEAD
    ensures var (s', out) := Send(cfg, maxSize, w.ta, r, trips);
            var cs := SendCalls(cfg, maxSize, w.ta, r, trips);
            Moved(w, WatchAll(cfg, w, cs, h), s', h != r.handle || (out.Ok? && IsUpdate(r)))
  {
    match r {
      case FinishRequest(_, _, _, _, _, _) => FinishMoves(cfg, maxSize, w, r, trips, 0, h);
      case AbortRequest(_) => RequestMoves(cfg, maxSize, w, r, trips(0), h);
      case UpdateRequest(_, input, _, _) => ChunksMove(cfg, maxSize, w, r, input, trips, 0, h);
      case UpdateAadRequest(_, input, _, _) => ChunksMove(cfg, maxSize, w, r, input, trips, 0, h);
    }
  }

  /** The watched run is valid, leads to the TA's present state, and has no early refusal on the handle if some
      object holds it. */
  predicate Follows<S(==)>(sys: Sys<S>, w: Watched<S>, h: I64) {
    w.valid && w.ta == sys.ta && (Some(h) in sys.held ==> !w.refused)
  }

  lemma BeginFollows<S>(cfg: Config<S>, sys: Sys<S>, c: BeginCall<S>, fault: Fault, w: Watched<S>, h: I64)
    requires Follows(sys, w, h) && c.handle !in sys.ta.ops
    ensures Follows(BeginOver(cfg, sys, c, fault), WatchAll(cfg, w, if fault.RequestLost? then [] else [BeginCalled(c)], h), h)
  {
    WatchOne(cfg, w, BeginCalled(c), h);
  }

  lemma SendFollows<S>(cfg: Config<S>, maxSize: nat, sys: Sys<S>, i: nat, r: Request, trips: nat -> Trip, w: Watched<S>, h: I64)
    requires maxSize > MAX_CBOR_OVERHEAD && HeldInv(sys) && Follows(sys, w, h) && i < |sys.held| && sys.held[i].Some?
    ensures var sent := WithHandle(r, sys.held[i].value);
            var (s', handle, _) := CallOn(cfg, maxSize, sys.ta, sys.held[i], r, trips);
            Follows(Sys(s', sys.held[i := handle]), WatchAll(cfg, w, SendCalls(cfg, maxSize, sys.ta, sent, trips), h), h)
  {
    var sent := WithHandle(r, sys.held[i].value);
    SendMoves(cfg, maxSize, w, sent, trips, h);
    var handle := CallOn(cfg, maxSize, sys.ta, sys.held[i], r, trips).1;
    var held' := sys.held[i := handle];
    if Some(h) in held' {
      var j :| 0 <= j < |held'| && held'[j] == Some(h);
      assert sys.held[j] == Some(h);
    }
  }

  lemma EventFollows<S>(cfg: Config<S>, maxSize: nat, sys: Sys<S>, e: Event<S>, w: Watched<S>, h: I64)
    requires maxSize > MAX_CBOR_OVERHEAD && HeldInv(sys) && ValidEvent(sys, e) && Follows(sys, w, h)
    ensures Follows(HalStep(cfg, maxSize, sys, e), WatchAll(cfg, w, EventCalls(cfg, maxSize, sys, e), h), h)
  {
    match e {
      case BeginEvent(c, fault) => BeginFollows(cfg, sys, c, fault, w, h);
      case SendEvent(i, r, trips) =>
        if i < |sys.held| && sys.held[i].Some? {
          SendFollows(cfg, maxSize, sys, i, r, trips, w, h);
        } else if i < |sys.held| {
          assert sys.held[i := None] == sys.held;
        }
    }
  }

  lemma {:induction false} TraceFollows<S>(cfg: Config<S>, maxSize: nat, sys: Sys<S>, es: seq<Event<S>>, w: Watched<S>, h: I64)
    requires maxSize > MAX_CBOR_OVERHEAD && HeldInv(sys) && ValidHalRun(cfg, maxSize, sys, es) && Follows(sys, w, h)
    ensures Follows(HalRun(cfg, maxSize, sys, es), WatchAll(cfg, w, TraceOf(cfg, maxSize, sys, es), h), h)
    decreases |es|
  {
    if es != [] {
      var first, next := EventCalls(cfg, maxSize, sys, es[0]), HalStep(cfg, maxSize, sys, es[0]);
      StepKeepsHeld(cfg, maxSize, sys, es[0]);
      EventFollows(cfg, maxSize, sys, es[0], w, h);
      TraceFollows(cfg, maxSize, next, es[1..], WatchAll(cfg, w, first, h), h);
      WatchJoins(cfg, w, first, TraceOf(cfg, maxSize, next, es[1..]), h);
    }
  }

  function Start<S>(): Sys<S> { Sys(Initial(), []) }

  /** Every run of HAL objects and TA, over a channel that may lose anything: the calls that reach the TA are a
      valid run of it, lead to its state, and include no early refusal on a handle still held. */
  lemma HalRunFollows<S>(cfg: Config<S>, maxSize: nat, es: seq<Event<S>>, h: I64)
    requires maxSize > MAX_CBOR_OVERHEAD && ValidHalRun(cfg, maxSize, Start(), es)
    ensures var sys, run := HalRun(cfg, maxSize, Start(), es), TraceOf(cfg, maxSize, Start(), es);
            ValidRun(cfg, run) && After(cfg, run) == sys.ta && (Some(h) in sys.held ==> !RefusedEarly(cfg, run, h))
  {
    TraceFollows(cfg, maxSize, Start(), es, Unwatched(), h);
    WatchedRun(cfg, TraceOf(cfg, maxSize, Start(), es), h);
  }

  // ---- A finish that succeeds ----

  /** The pieces of its input that go ahead as updates, as the TA gets them. */
  function Pieces(maxSize: nat, f: Request, trips: nat -> Trip, k: nat): seq<OpCall>
    requires maxSize > MAX_CBOR_OVERHEAD && f.FinishRequest?
    decreases if f.lastInput.Some? then |f.lastInput.value| else 0
  {
    if !Cut(maxSize, f) then []
    else
      [OpCall(false, ArgsOf(f, trips(k).env), f.lastInput.value[..maxSize - MAX_CBOR_OVERHEAD])]
      + Pieces(maxSize, RestOf(maxSize, f), trips, k + 1)
  }

  /** And the request that completes it. */
  function FinalRequest(maxSize: nat, f: Request): Request
    requires maxSize > MAX_CBOR_OVERHEAD && f.FinishRequest?
    decreases if f.lastInput.Some? then |f.lastInput.value| else 0
  {
    if Cut(maxSize, f) then FinalRequest(maxSize, RestOf(maxSize, f)) else f
  }

  function AsCalls<S>(ps: seq<OpCall>): seq<Call<S>> {
    if ps == [] then [] else [UpdateCalled(ps[0].a, ps[0].data)] + AsCalls(ps[1..])
  }

  function InputOf(f: Request): Bytes
    requires f.FinishRequest?
  {
    if f.lastInput.Some? then f.lastInput.value else []
  }

  lemma {:induction false} DataJoins(a: seq<OpCall>, b: seq<OpCall>)
    ensures Data(a + b) == Data(a) + Data(b)
    decreases |b|
  {
    if b == [] {
      assert a + b == a && Data(a) + [] == Data(a);
    } else {
      var init, last := b[..|b| - 1], b[|b| - 1];
      DataJoins(a, init);
      assert a + b == a + init + [last];
      DataSnoc(a + init, last);
      assert Data(a) + (Data(init) + last.data) == Data(a) + Data(init) + last.data;
    }
  }

  /** One more piece in front. */
  lemma PieceInFront(first: OpCall, later: seq<OpCall>, final: Bytes, rest: Bytes, input: Bytes)
    requires !first.aad && Data(later) + final == rest && first.data + rest == input
    ensures Data([first] + later) + final == input
  {
    DataJoins([first], later);
    assert [first][..0] == [] && Data([first]) == [] + first.data == first.data;
    assert first.data + Data(later) + final == first.data + (Data(later) + final);
  }

  /** Pieces and final request make up the input, and the final request has all else that was passed. */
  lemma {:induction false} PiecesMakeInput(maxSize: nat, f: Request, trips: nat -> Trip, k: nat)
    requires maxSize > MAX_CBOR_OVERHEAD && f.FinishRequest?
    ensures FinalRequest(maxSize, f).FinishRequest?
    ensures FinalRequest(maxSize, f) == f.(lastInput := FinalRequest(maxSize, f).lastInput)
    ensures Data(Pieces(maxSize, f, trips, k)) + InputOf(FinalRequest(maxSize, f)) == InputOf(f)
    decreases if f.lastInput.Some? then |f.lastInput.value| else 0
  {
    if Cut(maxSize, f) {
      var n, rest := maxSize - MAX_CBOR_OVERHEAD, RestOf(maxSize, f);
      PiecesMakeInput(maxSize, rest, trips, k + 1);
      var first := OpCall(false, ArgsOf(f, trips(k).env), f.lastInput.value[..n]);
      var later := Pieces(maxSize, rest, trips, k + 1);
      assert first.data + InputOf(rest) == InputOf(f);
      PieceInFront(first, later, InputOf(FinalRequest(maxSize, rest)), InputOf(rest), InputOf(f));
    }
  }

  /** A life continued by `ps`. */
  function Continued<S>(life: Option<Life<S>>, ps: seq<OpCall>): Option<Life<S>> {
    if life.Some? then Some(life.value.(calls := life.value.calls + ps)) else None
  }

  /** The state after the pieces, and that each of them succeeds. */
  function AfterPieces<S>(cfg: Config<S>, s: TaState<S>, ps: seq<OpCall>): TaState<S>
    decreases |ps|
  {
    if ps == [] then s else AfterPieces(cfg, Update(cfg, s, ps[0].a, ps[0].data).0, ps[1..])
  }

  predicate PiecesSucceed<S>(cfg: Config<S>, s: TaState<S>, ps: seq<OpCall>, h: I64)
    decreases |ps|
  {
    ps == [] ||
    (!ps[0].aad && ps[0].a.handle == h && Update(cfg, s, ps[0].a, ps[0].data).1.Ok?
     && PiecesSucceed(cfg, Update(cfg, s, ps[0].a, ps[0].data).0, ps[1..], h))
  }

  lemma UpdateWatched<S>(cfg: Config<S>, w: Watched<S>, p: OpCall)
    requires !p.aad && Update(cfg, w.ta, p.a, p.data).1.Ok?
    ensures Watch(cfg, w, UpdateCalled(p.a, p.data), p.a.handle) ==
            Watched(Update(cfg, w.ta, p.a, p.data).0, w.valid, w.refused, Continued(w.life, [p]))
  {
  }

  /** Seen from the TA, successful pieces just extend the operation's life. */
  lemma {:induction false} PiecesWatched<S>(cfg: Config<S>, w: Watched<S>, ps: seq<OpCall>, h: I64)
    requires PiecesSucceed(cfg, w.ta, ps, h)
    ensures WatchAll(cfg, w, AsCalls(ps), h) == Watched(AfterPieces(cfg, w.ta, ps), w.valid, w.refused, Continued(w.life, ps))
    decreases |ps|
  {
    if ps == [] {
      assert w.life.Some? ==> w.life.value.calls + [] == w.life.value.calls;
    } else {
      var p, c: Call<S> := ps[0], UpdateCalled(ps[0].a, ps[0].data);
      var w1 := Watched(Update(cfg, w.ta, p.a, p.data).0, w.valid, w.refused, Continued(w.life, [p]));
      UpdateWatched(cfg, w, p);
      PiecesWatched(cfg, w1, ps[1..], h);
      assert AsCalls<S>(ps)[1..] == AsCalls<S>(ps[1..]);
      ContinuedTwice(w.life, ps);
    }
  }

  lemma ContinuedTwice<S>(life: Option<Life<S>>, ps: seq<OpCall>)
    requires ps != []
    ensures Continued(Continued(life, [ps[0]]), ps[1..]) == Continued(life, ps)
  {
    assert life.Some? ==> life.value.calls + [ps[0]] + ps[1..] == life.value.calls + ps;
  }

  /** A finish that is cut and succeeds: its first piece succeeds, and so does the rest from there. */
  lemma CutFinish<S>(cfg: Config<S>, maxSize: nat, s: TaState<S>, f: Request, trips: nat -> Trip, k: nat)
    requires maxSize > MAX_CBOR_OVERHEAD && f.FinishRequest? && Cut(maxSize, f)
    requires SendFinish(cfg, maxSize, s, f, trips, k).1.Ok?
    ensures var a, chunk := ArgsOf(f, trips(k).env), f.lastInput.value[..maxSize - MAX_CBOR_OVERHEAD];
            var (s1, r1) := Update(cfg, s, a, chunk);
            var later := SendFinish(cfg, maxSize, s1, RestOf(maxSize, f), trips, k + 1);
            && trips(k).fault.Delivered? && r1.Ok? && later.1.Ok? && SendFinish(cfg, maxSize, s, f, trips, k).0 == later.0
            && FinishCalls(cfg, maxSize, s, f, trips, k) ==
               [UpdateCalled(a, chunk)] + FinishCalls(cfg, maxSize, s1, RestOf(maxSize, f), trips, k + 1)
  {
    var u := UpdateBefore(f, maxSize - MAX_CBOR_OVERHEAD);
    assert Execute(cfg, maxSize, s, u, trips(k)).1.Ok?;
    assert Execute(cfg, maxSize, s, u, trips(k)) == Update(cfg, s, ArgsOf(f, trips(k).env), u.input);
    assert RequestCalls<S>(maxSize, u, trips(k)) == [UpdateCalled(ArgsOf(f, trips(k).env), u.input)];
  }

  /** The request is delivered and completes the operation, leaving `s'`. */
  ghost predicate Completes<S>(cfg: Config<S>, s: TaState<S>, last: Request, trip: Trip, s': TaState<S>) {
    trip.fault.Delivered? && Serve(cfg, s, last, trip.env).0 == s' && Serve(cfg, s, last, trip.env).1.Ok?
  }

  lemma UncutFinish<S>(cfg: Config<S>, maxSize: nat, s: TaState<S>, f: Request, trips: nat -> Trip, k: nat)
    requires maxSize > MAX_CBOR_OVERHEAD && f.FinishRequest? && !Cut(maxSize, f)
    requires SendFinish(cfg, maxSize, s, f, trips, k).1.Ok?
    ensures Completes(cfg, s, f, trips(k), SendFinish(cfg, maxSize, s, f, trips, k).0)
    ensures FinishCalls(cfg, maxSize, s, f, trips, k) == [CallOf(f, trips(k).env)]
  {
  }

  lemma PieceFirst<S>(cfg: Config<S>, s: TaState<S>, s1: TaState<S>, p: OpCall, later: seq<OpCall>, h: I64)
    requires !p.aad && p.a.handle == h && Update(cfg, s, p.a, p.data).1.Ok? && s1 == Update(cfg, s, p.a, p.data).0
    requires PiecesSucceed(cfg, s1, later, h)
    ensures PiecesSucceed(cfg, s, [p] + later, h) && AfterPieces(cfg, s, [p] + later) == AfterPieces(cfg, s1, later)
  {
    assert ([p] + later)[1..] == later;
  }

  /** If a finish succeeds, its pieces succeed ... */
  lemma {:induction false} FinishPieces<S>(cfg: Config<S>, maxSize: nat, s: TaState<S>, f: Request, trips: nat -> Trip, k: nat)
    requires maxSize > MAX_CBOR_OVERHEAD && f.FinishRequest?
    requires SendFinish(cfg, maxSize, s, f, trips, k).1.Ok?
    ensures PiecesSucceed(cfg, s, Pieces(maxSize, f, trips, k), f.handle)
    decreases if f.lastInput.Some? then |f.lastInput.value| else 0
  {
    if Cut(maxSize, f) {
      CutFinish(cfg, maxSize, s, f, trips, k);
      var rest := RestOf(maxSize, f);
      var p := OpCall(false, ArgsOf(f, trips(k).env), f.lastInput.value[..maxSize - MAX_CBOR_OVERHEAD]);
      var s1 := Update(cfg, s, p.a, p.data).0;
      FinishPieces(cfg, maxSize, s1, rest, trips, k + 1);
      PieceFirst(cfg, s, s1, p, Pieces(maxSize, rest, trips, k + 1), f.handle);
    }
  }

  /** The calls of a finish when every one of its requests arrives. */
  function Delivery<S>(maxSize: nat, f: Request, trips: nat -> Trip, k: nat): seq<Call<S>>
    requires maxSize > MAX_CBOR_OVERHEAD && f.FinishRequest?
    decreases if f.lastInput.Some? then |f.lastInput.value| else 0
  {
    if !Cut(maxSize, f) then [CallOf(f, trips(k).env)]
    else
      [UpdateCalled(ArgsOf(f, trips(k).env), f.lastInput.value[..maxSize - MAX_CBOR_OVERHEAD])]
      + Delivery(maxSize, RestOf(maxSize, f), trips, k + 1)
  }

  lemma {:induction false} DeliveryIs<S>(maxSize: nat, f: Request, trips: nat -> Trip, k: nat)
    requires maxSize > MAX_CBOR_OVERHEAD && f.FinishRequest?
    ensures var ps := Pieces(maxSize, f, trips, k);
            Delivery<S>(maxSize, f, trips, k) == AsCalls(ps) + [CallOf(FinalRequest(maxSize, f), trips(k + |ps|).env)]
    decreases if f.lastInput.Some? then |f.lastInput.value| else 0
  {
    if Cut(maxSize, f) {
      var rest := RestOf(maxSize, f);
      DeliveryIs<S>(maxSize, rest, trips, k + 1);
      var p := OpCall(false, ArgsOf(f, trips(k).env), f.lastInput.value[..maxSize - MAX_CBOR_OVERHEAD]);
      var later := Pieces(maxSize, rest, trips, k + 1);
      assert Pieces(maxSize, f, trips, k) == [p] + later;
      assert trips(k + |[p] + later|) == trips(k + 1 + |later|);
      MorePieces(p, later, CallOf<S>(FinalRequest(maxSize, rest), trips(k + 1 + |later|).env));
    } else {
      assert [] + [CallOf<S>(f, trips(k).env)] == [CallOf<S>(f, trips(k).env)];
    }
  }

  /** ... the TA gets just them and then the final request ... */
  lemma {:induction false} FinishTrace<S>(cfg: Config<S>, maxSize: nat, s: TaState<S>, f: Request, trips: nat -> Trip, k: nat)
    requires maxSize > MAX_CBOR_OVERHEAD && f.FinishRequest?
    requires SendFinish(cfg, maxSize, s, f, trips, k).1.Ok?
    ensures FinishCalls(cfg, maxSize, s, f, trips, k) == Delivery(maxSize, f, trips, k)
    decreases if f.lastInput.Some? then |f.lastInput.value| else 0
  {
    if Cut(maxSize, f) {
      CutFinish(cfg, maxSize, s, f, trips, k);
      var a, chunk := ArgsOf(f, trips(k).env), f.lastInput.value[..maxSize - MAX_CBOR_OVERHEAD];
      FinishTrace(cfg, maxSize, Update(cfg, s, a, chunk).0, RestOf(maxSize, f), trips, k + 1);
    } else {
      UncutFinish(cfg, maxSize, s, f, trips, k);
    }
  }

  /** ... which is delivered and completes the operation. */
  lemma {:induction false} FinishCompletes<S>(cfg: Config<S>, maxSize: nat, s: TaState<S>, f: Request, trips: nat -> Trip, k: nat)
    requires maxSize > MAX_CBOR_OVERHEAD && f.FinishRequest?
    requires SendFinish(cfg, maxSize, s, f, trips, k).1.Ok?
    ensures var ps, last := Pieces(maxSize, f, trips, k), FinalRequest(maxSize, f);
            Completes(cfg, AfterPieces(cfg, s, ps), last, trips(k + |ps|), SendFinish(cfg, maxSize, s, f, trips, k).0)
    decreases if f.lastInput.Some? then |f.lastInput.value| else 0
  {
    if Cut(maxSize, f) {
      CutFinish(cfg, maxSize, s, f, trips, k);
      var rest := RestOf(maxSize, f);
      var p := OpCall(false, ArgsOf(f, trips(k).env), f.lastInput.value[..maxSize - MAX_CBOR_OVERHEAD]);
      var s1 := Update(cfg, s, p.a, p.data).0;
      FinishPieces(cfg, maxSize, s1, rest, trips, k + 1);
      FinishCompletes(cfg, maxSize, s1, rest, trips, k + 1);
      PieceFirst(cfg, s, s1, p, Pieces(maxSize, rest, trips, k + 1), f.handle);
    } else {
      UncutFinish(cfg, maxSize, s, f, trips, k);
    }
  }

  lemma {:induction false} FinishArrives<S>(cfg: Config<S>, maxSize: nat, s: TaState<S>, f: Request, trips: nat -> Trip, k: nat)
    requires maxSize > MAX_CBOR_OVERHEAD && f.FinishRequest?
    requires SendFinish(cfg, maxSize, s, f, trips, k).1.Ok?
    ensures forall j :: k <= j <= k + |Pieces(maxSize, f, trips, k)| ==> trips(j).fault.Delivered?
    decreases if f.lastInput.Some? then |f.lastInput.value| else 0
  {
    if Cut(maxSize, f) {
      CutFinish(cfg, maxSize, s, f, trips, k);
      var a, chunk := ArgsOf(f, trips(k).env), f.lastInput.value[..maxSize - MAX_CBOR_OVERHEAD];
      FinishArrives(cfg, maxSize, Update(cfg, s, a, chunk).0, RestOf(maxSize, f), trips, k + 1);
    } else {
      UncutFinish(cfg, maxSize, s, f, trips, k);
    }
  }

  lemma MorePieces<S>(p: OpCall, later: seq<OpCall>, final: Call<S>)
    ensures ([p] + later)[0] == p && ([p] + later)[1..] == later
    ensures [UpdateCalled(p.a, p.data)] + (AsCalls(later) + [final]) == AsCalls([p] + later) + [final]
  {
    assert ([p] + later)[1..] == later;
  }

  // ---- Protection end to end ----

  /** Presence was shown by the time of the finish: with the first data, or else with the finish. */
  ghost predicate HadPresence<S>(life: Life<S>, env: Env) {
    NeedsPresence(life.begin) ==>
      if FirstData(life.calls).Some? then FirstData(life.calls).value.a.env.tupAvailable else env.tupAvailable
  }

  /** The confirmation covers the whole message, if the key needs that. */
  ghost predicate WasConfirmed<S>(begin: BeginCall<S>, message: Bytes, confirmation: Option<Bytes>, env: Env) {
    NeedsConfirmation(begin) ==>
      && |message| <= CONFIRMATION_MESSAGE_MAX_LEN
      && env.hmac.Some? && confirmation == Some(env.hmac.value(CONFIRMATION_DATA_PREFIX + message))
  }

  /** What the TA's guarantees say of a finish that it completes. */
  lemma FinishedIsProtected<S>(cfg: Config<S>, calls: seq<Call<S>>, last: Request, env: Env)
    requires ValidRun(cfg, calls) && last.FinishRequest? && Serve(cfg, After(cfg, calls), last, env).1.Ok?
    requires !RefusedEarly(cfg, calls, last.handle)
    ensures LifeOf(cfg, calls, last.handle).Some?
    ensures var life := LifeOf(cfg, calls, last.handle).value;
            && Authenticated(cfg, life, ArgsOf(last, env)) && HadPresence(life, env)
            && WasConfirmed(life.begin, Data(life.calls) + InputOf(last), last.confirmation, env)
  {
    var args := FinishArgs(last.lastInput, last.signature, last.confirmation);
    FinishIsAuthenticated(cfg, calls, ArgsOf(last, env), args);
    FinishHadPresence(cfg, calls, ArgsOf(last, env), args);
    FinishIsConfirmed(cfg, calls, ArgsOf(last, env), args);
  }

  /** A successful finish of request `f` on handle `h`, whose operation has lived `life` so far, with its pieces
      `ps` sent ahead and its final request delivered in environment `env`. */
  ghost predicate Protected<S>(cfg: Config<S>, life: Life<S>, h: I64, f: Request, ps: seq<OpCall>, env: Env)
    requires f.FinishRequest?
  {
    && var whole := life.(calls := life.calls + ps);
    && Authenticated(cfg, whole, OpArgs(h, f.token, f.timestamp, env))
    && HadPresence(whole, env)
    && WasConfirmed(life.begin, Data(life.calls) + InputOf(f), f.confirmation, env)
  }

  lemma ProtectedByPieces<S>(cfg: Config<S>, life: Life<S>, f: Request, ps: seq<OpCall>, last: Request, env: Env)
    requires f.FinishRequest? && last.FinishRequest? && last == f.(lastInput := last.lastInput) && Data(ps) + InputOf(last) == InputOf(f)
    requires var whole := life.(calls := life.calls + ps);
             && Authenticated(cfg, whole, ArgsOf(last, env)) && HadPresence(whole, env)
             && WasConfirmed(whole.begin, Data(whole.calls) + InputOf(last), last.confirmation, env)
    ensures Protected(cfg, life, f.handle, f, ps, env)
  {
    DataJoins(life.calls, ps);
    assert Data(life.calls) + Data(ps) + InputOf(last) == Data(life.calls) + (Data(ps) + InputOf(last));
  }

  /** Runs and watching agree on what successful pieces mean. */
  lemma RunWithPieces<S>(cfg: Config<S>, calls: seq<Call<S>>, ps: seq<OpCall>, h: I64) returns (whole: seq<Call<S>>)
    requires PiecesSucceed(cfg, After(cfg, calls), ps, h)
    ensures After(cfg, whole) == AfterPieces(cfg, After(cfg, calls), ps) && ValidRun(cfg, whole) == ValidRun(cfg, calls)
    ensures RefusedEarly(cfg, whole, h) == RefusedEarly(cfg, calls, h)
    ensures LifeOf(cfg, whole, h) == Continued(LifeOf(cfg, calls, h), ps)
  {
    whole := calls + AsCalls(ps);
    WatchedRun(cfg, calls, h);
    WatchedRun(cfg, whole, h);
    WatchJoins(cfg, Unwatched(), calls, AsCalls(ps), h);
    PiecesWatched(cfg, WatchAll(cfg, Unwatched(), calls, h), ps, h);
  }

  lemma CompletedIsProtected<S>(cfg: Config<S>, calls: seq<Call<S>>, f: Request, ps: seq<OpCall>, last: Request, trip: Trip, s': TaState<S>)
    requires f.FinishRequest? && last.FinishRequest? && last == f.(lastInput := last.lastInput) && Data(ps) + InputOf(last) == InputOf(f)
    requires ValidRun(cfg, calls) && !RefusedEarly(cfg, calls, f.handle)
    requires PiecesSucceed(cfg, After(cfg, calls), ps, f.handle)
    requires Completes(cfg, AfterPieces(cfg, After(cfg, calls), ps), last, trip, s')
    ensures LifeOf(cfg, calls, f.handle).Some? && Protected(cfg, LifeOf(cfg, calls, f.handle).value, f.handle, f, ps, trip.env)
  {
    var whole := RunWithPieces(cfg, calls, ps, f.handle);
    FinishedIsProtected(cfg, whole, last, trip.env);
    ProtectedByPieces(cfg, LifeOf(cfg, calls, f.handle).value, f, ps, last, trip.env);
  }

  lemma SucceededIsProtected<S>(cfg: Config<S>, maxSize: nat, calls: seq<Call<S>>, f: Request, trips: nat -> Trip)
    requires maxSize > MAX_CBOR_OVERHEAD && f.FinishRequest? && ValidRun(cfg, calls) && !RefusedEarly(cfg, calls, f.handle)
    requires SendFinish(cfg, maxSize, After(cfg, calls), f, trips, 0).1.Ok?
    ensures var ps := Pieces(maxSize, f, trips, 0);
            && trips(|ps|).fault.Delivered? && LifeOf(cfg, calls, f.handle).Some?
            && Protected(cfg, LifeOf(cfg, calls, f.handle).value, f.handle, f, ps, trips(|ps|).env)
  {
    var s := After(cfg, calls);
    var ps := Pieces(maxSize, f, trips, 0);
    FinishPieces(cfg, maxSize, s, f, trips, 0);
    FinishCompletes(cfg, maxSize, s, f, trips, 0);
    PiecesMakeInput(maxSize, f, trips, 0);
    CompletedIsProtected(cfg, calls, f, ps, FinalRequest(maxSize, f), trips(|ps|), SendFinish(cfg, maxSize, s, f, trips, 0).0);
  }

  lemma ProtectedWithHandle<S>(cfg: Config<S>, life: Life<S>, h: I64, f: Request, ps: seq<OpCall>, env: Env)
    requires f.FinishRequest? && Protected(cfg, life, h, WithHandle(f, h), ps, env)
    ensures Protected(cfg, life, h, f, ps, env)
  {
  }

  lemma HeldFinishCalls<S>(cfg: Config<S>, maxSize: nat, sys: Sys<S>, i: nat, f: Request, trips: nat -> Trip)
    requires maxSize > MAX_CBOR_OVERHEAD && f.FinishRequest? && i < |sys.held| && sys.held[i].Some?
    requires CallOn(cfg, maxSize, sys.ta, sys.held[i], f, trips).2.Ok?
    ensures var sent := WithHandle(f, sys.held[i].value);
            var ps, last := Pieces(maxSize, sent, trips, 0), FinalRequest(maxSize, sent);
            && EventCalls(cfg, maxSize, sys, SendEvent(i, f, trips)) == AsCalls(ps) + [CallOf(last, trips(|ps|).env)]
            && forall j :: 0 <= j <= |ps| ==> trips(j).fault.Delivered?
  {
    var sent := WithHandle(f, sys.held[i].value);
    FinishArrives(cfg, maxSize, sys.ta, sent, trips, 0);
    DeliveryIs<S>(maxSize, sent, trips, 0);
    FinishTrace(cfg, maxSize, sys.ta, sent, trips, 0);
  }

  /** Through the HAL, from a fresh start and over whatever channel: if `finish` succeeds on an object, the TA
      got exactly the pieces of its input and then its final request, and these were delivered; the operation
      had been authenticated as its key demands with the tokens of this call, had user presence if the key
      needs it, and if it needs confirmation, the confirmation passed in covers all data ever fed to it. */
  lemma HalFinishIsProtected<S>(cfg: Config<S>, maxSize: nat, es: seq<Event<S>>, i: nat, f: Request, trips: nat -> Trip)
    requires maxSize > MAX_CBOR_OVERHEAD && ValidHalRun(cfg, maxSize, Start(), es) && f.FinishRequest?
    requires var sys := HalRun(cfg, maxSize, Start(), es);
             && i < |sys.held| && sys.held[i].Some?
             && CallOn(cfg, maxSize, sys.ta, sys.held[i], f, trips).2.Ok?
    ensures var sys := HalRun(cfg, maxSize, Start(), es);
            var sent := WithHandle(f, sys.held[i].value);
            var ps, last := Pieces(maxSize, sent, trips, 0), FinalRequest(maxSize, sent);
            && EventCalls(cfg, maxSize, sys, SendEvent(i, f, trips)) == AsCalls(ps) + [CallOf(last, trips(|ps|).env)]
            && (forall j :: 0 <= j <= |ps| ==> trips(j).fault.Delivered?)
            && last.FinishRequest? && last == f.(handle := sys.held[i].value, lastInput := last.lastInput)
            && Data(ps) + InputOf(last) == InputOf(f)
    ensures var h, run := HalRun(cfg, maxSize, Start(), es).held[i].value, TraceOf(cfg, maxSize, Start(), es);
            var ps := Pieces(maxSize, WithHandle(f, h), trips, 0);
            && LifeOf(cfg, run, h).Some?
            && Protected(cfg, LifeOf(cfg, run, h).value, h, f, ps, trips(|ps|).env)
  {
    var sys, run := HalRun(cfg, maxSize, Start(), es), TraceOf(cfg, maxSize, Start(), es);
    HeldFinishCalls(cfg, maxSize, sys, i, f, trips);
    PiecesMakeInput(maxSize, WithHandle(f, sys.held[i].value), trips, 0);
    assert Some(sys.held[i].value) in sys.held;
    HalRunFollows(cfg, maxSize, es, sys.held[i].value);
    HeldFinishIsProtected(cfg, maxSize, sys, run, i, f, trips);
  }

  lemma HeldFinishIsProtected<S>(cfg: Config<S>, maxSize: nat, sys: Sys<S>, run: seq<Call<S>>, i: nat, f: Request, trips: nat -> Trip)
    requires maxSize > MAX_CBOR_OVERHEAD && f.FinishRequest? && i < |sys.held| && sys.held[i].Some?
    requires CallOn(cfg, maxSize, sys.ta, sys.held[i], f, trips).2.Ok?
    requires ValidRun(cfg, run) && After(cfg, run) == sys.ta && !RefusedEarly(cfg, run, sys.held[i].value)
    ensures var h := sys.held[i].value;
            var ps := Pieces(maxSize, WithHandle(f, h), trips, 0);
            && trips(|ps|).fault.Delivered? && LifeOf(cfg, run, h).Some?
            && Protected(cfg, LifeOf(cfg, run, h).value, h, f, ps, trips(|ps|).env)
  {
    var h := sys.held[i].value;
    var sent := WithHandle(f, h);
    SucceededIsProtected(cfg, maxSize, run, sent, trips);
    var ps := Pieces(maxSize, sent, trips, 0);
    ProtectedWithHandle(cfg, LifeOf(cfg, run, h).value, h, f, ps, trips(|ps|).env);
  }
}
