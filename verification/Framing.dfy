/** Messages over channels with limits: responses split into flagged fragments (ta/src/lib.rs) and
    messages framed by their length (hal/src/lib.rs). */
module Framing {
  import opened Base

  const NEXT_MESSAGE_SIGNAL_TRUE: Byte := 1
  const NEXT_MESSAGE_SIGNAL_FALSE: Byte := 0

  // ---- Fragments ----

  /** Pieces of `n` bytes, the last one perhaps shorter, each behind its flag. */
  function Fragments(data: Bytes, n: nat): (fs: seq<Bytes>)
    requires n > 0
    ensures |fs| >= 1
    decreases |data|
  {
    if |data| <= n then [[NEXT_MESSAGE_SIGNAL_FALSE] + data]
    else [[NEXT_MESSAGE_SIGNAL_TRUE] + data[..n]] + Fragments(data[n..], n)
  }

  method SplitRsp(data: Bytes, maxSize: nat) returns (r: Result<seq<Bytes>>)
    ensures r == if data == [] || maxSize < 2 then Err(InvalidArgument) else Ok(Fragments(data, maxSize - 1))
  {
    if data == [] || maxSize < 2 {
      return Err(InvalidArgument);
    }
    var allowed := maxSize - 1;
    var rest, parts: seq<Bytes> := data, [];
    while |rest| > allowed
      invariant parts + Fragments(rest, allowed) == Fragments(data, allowed)
      decreases |rest|
    {
      var part: Bytes := [NEXT_MESSAGE_SIGNAL_TRUE] + rest[..allowed];
      assert parts + ([part] + Fragments(rest[allowed..], allowed)) == parts + [part] + Fragments(rest[allowed..], allowed);
      parts := parts + [part];
      rest := rest[allowed..];
    }
    r := Ok(parts + [[NEXT_MESSAGE_SIGNAL_FALSE] + rest]);
  }

  /** Every fragment has between 2 and `n + 1` bytes, only the last one is not flagged, and there are as
      many as announced. */
  lemma {:induction false} FragmentsShape(data: Bytes, n: nat)
    requires n > 0 && data != []
    ensures var fs := Fragments(data, n);
            && |fs| == |data| / n + (if |data| % n > 0 then 1 else 0)
            && (forall i :: 0 <= i < |fs| ==> 2 <= |fs[i]| <= n + 1)
            && (forall i :: 0 <= i < |fs| ==> fs[i][0] == if i < |fs| - 1 then NEXT_MESSAGE_SIGNAL_TRUE else NEXT_MESSAGE_SIGNAL_FALSE)
    decreases |data|
  {
    if |data| <= n {
      OneFragment(|data|, n);
    } else {
      FragmentsShape(data[n..], n);
      OneLess(|data|, n);
    }
  }

  lemma OneFragment(len: nat, n: nat)
    requires 0 < len <= n
    ensures len / n + (if len % n > 0 then 1 else 0) == 1
  {
    if len < n {
      assert len / n == 0 && len % n == len;
    }
  }

  lemma QuotientIsUnique(n: nat, q: int, r: nat, q': int, r': nat)
    requires q * n + r == q' * n + r' && r < n && r' < n
    ensures q == q' && r == r'
  {
    if q < q' {
      LargerQuotient(n, q, r, q', r');
    } else if q > q' {
      LargerQuotient(n, q', r', q, r);
    }
  }

  lemma LargerQuotient(n: nat, q: int, r: nat, q': int, r': nat)
    requires q < q' && r < n
    ensures q * n + r < q' * n + r'
  {
    var d := q' - q - 1;
    assert d * n >= 0;
    assert q' * n == q * n + n + d * n;
  }

  lemma OneLess(len: nat, n: nat)
    requires len > n > 0
    ensures len / n == (len - n) / n + 1 && len % n == (len - n) % n
  {
    var q, r := (len - n) / n, (len - n) % n;
    assert (q + 1) * n + r == q * n + r + n;
    QuotientIsUnique(n, len / n, len % n, q + 1, r);
  }

  /** `extract_rsp` */
  function ExtractRsp(rsp: Bytes): Result<(bool, Bytes)> {
    if |rsp| < 2 then Err(InvalidArgument) else Ok((rsp[0] == NEXT_MESSAGE_SIGNAL_TRUE, rsp[1..]))
  }

  /** A receiver takes fragments as long as they announce another one. */
  function Receive(fs: seq<Bytes>): Result<(Bytes, seq<Bytes>)> {
    if fs == [] then Err(CommFailure)
    else
      var (more, part) :- ExtractRsp(fs[0]);
      if !more then Ok((part, fs[1..]))
      else
        var (rest, left) :- Receive(fs[1..]);
        Ok((part + rest, left))
  }

  /** A response comes back from its fragments, and what follows them is left alone. */
  lemma {:induction false} ReceiveUndoesSplit(data: Bytes, n: nat, later: seq<Bytes>)
    requires n > 0 && data != []
    ensures Receive(Fragments(data, n) + later) == Ok((data, later))
    decreases |data|
  {
    var fs := Fragments(data, n);
    if |data| <= n {
      assert (fs + later)[1..] == later;
      assert fs[0][1..] == data;
    } else {
      ReceiveUndoesSplit(data[n..], n, later);
      assert (fs + later)[1..] == Fragments(data[n..], n) + later;
      assert fs[0][1..] == data[..n];
      assert data[..n] + data[n..] == data;
    }
  }

  // ---- Length framing ----

  /** What `write_msg` adds to the stream. */
  function WriteMsg(data: Bytes): Result<Bytes> {
    if |data| >= 0x1_0000_0000 then Err(CommFailure) else Ok(BigEndian(|data|, 4) + data)
  }

  /** `read_msg`: the message, and the stream after it. */
  function ReadMsg(stream: Bytes): Result<(Bytes, Bytes)> {
    if |stream| < 4 then Err(CommFailure)
    else
      var len := FromBigEndian(stream[..4]);
      var rest := stream[4..];
      if |rest| < len then Err(CommFailure) else Ok((rest[..len], rest[len..]))
  }

  lemma ReadUndoesWrite(data: Bytes, later: Bytes)
    requires |data| < 0x1_0000_0000
    ensures ReadMsg(WriteMsg(data).value + later) == Ok((data, later))
  {
    var stream := WriteMsg(data).value + later;
    Pow256Values();
    BigEndianRoundTrip(|data|, 4);
    assert stream[..4] == BigEndian(|data|, 4) && stream[4..] == data + later;
    assert (data + later)[..|data|] == data && (data + later)[|data|..] == later;
  }

  function WriteAll(msgs: seq<Bytes>): Result<Bytes> {
    if msgs == [] then Ok([])
    else
      var first :- WriteMsg(msgs[0]);
      var rest :- WriteAll(msgs[1..]);
      Ok(first + rest)
  }

  function ReadAll(stream: Bytes, n: nat): Result<(seq<Bytes>, Bytes)> {
    if n == 0 then Ok(([], stream))
    else
      var (first, rest) :- ReadMsg(stream);
      var (msgs, later) :- ReadAll(rest, n - 1);
      Ok(([first] + msgs, later))
  }

  /** Any sequence of framed messages reads back as that sequence. */
  lemma {:induction false} ReadAllUndoesWriteAll(msgs: seq<Bytes>, later: Bytes)
    requires WriteAll(msgs).Ok?
    ensures ReadAll(WriteAll(msgs).value + later, |msgs|) == Ok((msgs, later))
  {
    if msgs == [] {
      assert [] + later == later;
    } else {
      var rest := WriteAll(msgs[1..]).value;
      assert WriteAll(msgs).value + later == WriteMsg(msgs[0]).value + (rest + later);
      ReadUndoesWrite(msgs[0], rest + later);
      ReadAllUndoesWriteAll(msgs[1..], later);
      assert [msgs[0]] + msgs[1..] == msgs;
    }
  }

  /** A message that has not arrived completely is not delivered. */
  lemma PartialMessageFails(data: Bytes, k: nat)
    requires |data| < 0x1_0000_0000 && k < |WriteMsg(data).value|
    ensures ReadMsg(WriteMsg(data).value[..k]).Err?
  {
    if k >= 4 {
      Pow256Values();
      BigEndianRoundTrip(|data|, 4);
      assert WriteMsg(data).value[..k][..4] == BigEndian(|data|, 4);
    }
  }
}
