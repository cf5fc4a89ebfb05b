/** The HAL's operation object (hal/src/keymint.rs), sending over a channel that may lose messages. */
module HalOperations {
  import opened Base
  import opened Auth
  import opened OperationSpec
  import opened HalRequests
  import opened HalSpec
  import HalRuns

  /** Output collected so far in front of what is still to come. */
  function Prepend<S>(out: Bytes, rest: (TaState<S>, Result<Bytes>)): (TaState<S>, Result<Bytes>) {
    match rest
    case (s, Err(e)) => (s, Err(e))
    case (s, Ok(more)) => (s, Ok(out + more))
  }

  lemma PrependTwice<S>(a: Bytes, b: Bytes, rest: (TaState<S>, Result<Bytes>))
    ensures Prepend(a, Prepend(b, rest)) == Prepend(a + b, rest)
  {
    if rest.1.Ok? {
      assert a + (b + rest.1.value) == a + b + rest.1.value;
    }
  }

  lemma PrependNothing<S>(rest: (TaState<S>, Result<Bytes>))
    ensures Prepend([], rest) == rest
  {
    if rest.1.Ok? {
      assert [] + rest.1.value == rest.1.value;
    }
  }

  /** The channel, with the TA at its far end. */
  class Channel<!S> {
    const cfg: Config<S>
    const maxSize: nat
    var ta: TaState<S>

    constructor (cfg: Config<S>, maxSize: nat, ta: TaState<S>)
      ensures this.cfg == cfg && this.maxSize == maxSize && this.ta == ta
    {
      this.cfg := cfg;
      this.maxSize := maxSize;
      this.ta := ta;
    }

    method Transmit(r: Request, trip: Trip) returns (out: Result<Bytes>)
      modifies this
      ensures (ta, out) == Execute(cfg, maxSize, old(ta), r, trip)
    {
      if |Encoded(r)| > maxSize {
        return Err(InvalidInputLength);
      }
      if trip.fault.RequestLost? {
        return Err(CommFailure);
      }
      var (s, response) := Serve(cfg, ta, r, trip.env);
      ta := s;
      out := if trip.fault.ResponseLost? then Err(CommFailure) else response;
    }
  }

  class HalOperation<!S> {
    const channel: Channel<S>
    var handle: Option<I64>

    /** The channel has room for data beside the request's overhead. */
    predicate Valid() { channel.maxSize > MAX_CBOR_OVERHEAD }

    constructor (channel: Channel<S>, handle: I64)
      requires channel.maxSize > MAX_CBOR_OVERHEAD
      ensures this.channel == channel && this.handle == Some(handle) && Valid()
    {
      this.channel := channel;
      this.handle := Some(handle);
    }

    /** `Operation::execute`: a failure invalidates the object. */
    method Attempt(r: Request, trip: Trip) returns (out: Result<Bytes>)
      modifies this, channel
      ensures (channel.ta, out) == Execute(channel.cfg, channel.maxSize, old(channel.ta), r, trip)
      ensures handle == if out.Ok? then old(handle) else None
    {
      out := channel.Transmit(r, trip);
      if out.Err? {
        handle := None;
      }
    }

    /** `update` and `updateAad`, by the kind of request in `template`. */
    method SendInput(template: Request, trips: nat -> Trip) returns (out: Result<Bytes>)
      requires Valid() && HalRuns.IsUpdate(template)
      modifies this, channel
      ensures (channel.ta, handle, out) ==
              HalRuns.CallOn(channel.cfg, channel.maxSize, old(channel.ta), old(handle), template, trips)
    {
      if handle.None? {
        return Err(InvalidOperationHandle);
      }
      var request := HalRuns.WithHandle(template, handle.value);
      var input, output, k := template.input, [], 0;
      ghost var cfg, maxSize := channel.cfg, channel.maxSize;
      ghost var whole := SendChunks(cfg, maxSize, channel.ta, request, input, trips, 0);
      PrependNothing(whole);
      while input != []
        invariant handle == old(handle) && handle.Some?
        invariant whole == Prepend(output, SendChunks(cfg, maxSize, channel.ta, request, input, trips, k))
        decreases |input|
      {
        var n := Min(channel.maxSize - MAX_CBOR_OVERHEAD, |input|);
        ghost var s := channel.ta;
        var response := Attempt(WithInput(request, input[..n]), trips(k));
        if response.Err? {
          return response;
        }
        PrependTwice(output, response.value, SendChunks(cfg, maxSize, channel.ta, request, input[n..], trips, k + 1));
        assert SendChunks(cfg, maxSize, s, request, input, trips, k) ==
               Prepend(response.value, SendChunks(cfg, maxSize, channel.ta, request, input[n..], trips, k + 1));
        output := output + response.value;
        input := input[n..];
        k := k + 1;
      }
      assert output + [] == output;
      out := Ok(output);
    }

    /** `finish`: the object is invalid afterwards, whatever happened. */
    method Finish(template: Request, trips: nat -> Trip) returns (out: Result<Bytes>)
      requires Valid() && template.FinishRequest?
      modifies this, channel
      ensures (channel.ta, handle, out) ==
              HalRuns.CallOn(channel.cfg, channel.maxSize, old(channel.ta), old(handle), template, trips)
    {
      if handle.None? {
        return Err(InvalidOperationHandle);
      }
      var request := HalRuns.WithHandle(template, handle.value);
      var output, k := [], 0;
      ghost var cfg, maxSize := channel.cfg, channel.maxSize;
      ghost var whole := SendFinish(cfg, maxSize, channel.ta, request, trips, 0);
      PrependNothing(whole);
      while request.lastInput.Some? && |request.lastInput.value| > channel.maxSize - MAX_CBOR_OVERHEAD
        invariant request.FinishRequest? && handle == old(handle)
        invariant whole == Prepend(output, SendFinish(cfg, maxSize, channel.ta, request, trips, k))
        decreases if request.lastInput.Some? then |request.lastInput.value| else 0
      {
        var n := channel.maxSize - MAX_CBOR_OVERHEAD;
        ghost var s := channel.ta;
        var response := Attempt(UpdateBefore(request, n), trips(k));
        if response.Err? {
          return response;
        }
        var rest := request.(lastInput := Some(request.lastInput.value[n..]));
        PrependTwice(output, response.value, SendFinish(cfg, maxSize, channel.ta, rest, trips, k + 1));
        assert SendFinish(cfg, maxSize, s, request, trips, k) ==
               Prepend(response.value, SendFinish(cfg, maxSize, channel.ta, rest, trips, k + 1));
        output := output + response.value;
        request := rest;
        k := k + 1;
      }
      out := Attempt(request, trips(k));
      handle := None;
      if out.Ok? {
        out := Ok(output + out.value);
      }
    }

    /** `abort`, which dropping the object also performs. */
    method Abort(trips: nat -> Trip) returns (out: Result<Bytes>)
      requires Valid()
      modifies this, channel
      ensures (channel.ta, handle, out) ==
              HalRuns.CallOn(channel.cfg, channel.maxSize, old(channel.ta), old(handle), AbortRequest(0), trips)
    {
      if handle.None? {
        return Err(InvalidOperationHandle);
      }
      out := Attempt(AbortRequest(handle.value), trips(0));
      handle := None;
    }
  }
}
