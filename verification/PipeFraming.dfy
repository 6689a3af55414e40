/** `sys_write_pipe` and `sys_read_pipe`: descriptors as four raw bytes in a shared byte pipe. */
module PipeFraming {
  import opened Bytes

  /** What one read finds at the front of the pipe, and what it leaves. -1 stands for a short read and for
      a number that is no descriptor. */
  function Receive(pipe: seq<byte>): (int32, seq<byte>) {
    if |pipe| < 4 then (-1, []) else
    var n := DecodeInt(pipe[..4]);
    (if n <= 0 then -1 else n, pipe[4..])
  }

  function Send(pipe: seq<byte>, n: int32): seq<byte> {
    pipe + EncodeInt(n)
  }

  function SendAll(pipe: seq<byte>, ns: seq<int32>): seq<byte>
    decreases |ns|
  {
    if ns == [] then pipe else SendAll(Send(pipe, ns[0]), ns[1..])
  }

  /** What `count` reads return, and what they leave. */
  function ReceiveAll(pipe: seq<byte>, count: nat): (seq<int32>, seq<byte>)
    decreases count
  {
    if count == 0 then ([], pipe) else
    var (n, rest) := Receive(pipe);
    var (ns, left) := ReceiveAll(rest, count - 1);
    ([n] + ns, left)
  }

  class MessagePipe {
    var bytes: seq<byte>

    constructor ()
      ensures bytes == []
    {
      bytes := [];
    }

    method WritePipe(data: int32) returns (written: int)
      modifies this
      ensures bytes == Send(old(bytes), data) && written == 4
      ensures |bytes| == |old(bytes)| + 4 && old(bytes) <= bytes
      ensures HoldsWord(bytes, |old(bytes)|, if data < 0 then data + 0x1_0000_0000 else data)
    {
      var buf := EncodeInt(data);
      IntValue(data);
      bytes := bytes + buf;
      written := |buf|;
    }

    method ReadPipe() returns (data: int32)
      modifies this
      ensures (data, bytes) == Receive(old(bytes))
      ensures |old(bytes)| < 4 ==> data == -1 && bytes == []
      ensures |old(bytes)| >= 4 ==>
                && bytes == old(bytes)[4..]
                && (data == -1 || (data > 0 && HoldsWord(old(bytes), 0, data)))
                && forall n: int :: 0 < n < 0x8000_0000 && HoldsWord(old(bytes), 0, n) ==> data == n
    {
      if |bytes| >= 4 { IntDecoded(bytes[..4]); }
      var buf := new byte[4](_ => 0);
      var ret := if |bytes| < 4 then |bytes| else 4;
      for i := 0 to ret
        invariant bytes == old(bytes)
        invariant forall k :: 0 <= k < i ==> buf[k] == bytes[k]
      {
        buf[i] := bytes[i];
      }
      ghost var before := bytes;
      assert ret == 4 ==> buf[..] == before[..4];
      bytes := bytes[ret..];
      assert |before| < 4 ==> bytes == [];
      if ret != 4 || DecodeInt(buf[..]) <= 0 {
        data := -1;
      } else {
        data := DecodeInt(buf[..]);
      }
    }
  }

  lemma {:induction false} SendAllAppends(pipe: seq<byte>, ns: seq<int32>)
    ensures SendAll(pipe, ns) == pipe + SendAll([], ns)
    decreases |ns|
  {
    if ns == [] {
      assert pipe + [] == pipe;
    } else {
      SendAllAppends(Send(pipe, ns[0]), ns[1..]);
      SendAllAppends(Send([], ns[0]), ns[1..]);
      assert (pipe + EncodeInt(ns[0])) + SendAll([], ns[1..]) == pipe + (EncodeInt(ns[0]) + SendAll([], ns[1..]));
      assert [] + EncodeInt(ns[0]) == EncodeInt(ns[0]);
    }
  }

  /** What a number becomes on its way: -1 unless it is a positive descriptor. */
  function Marked(n: int32): int32 {
    if n > 0 then n else -1
  }

  lemma FrontIsFirst(ns: seq<int32>)
    requires ns != []
    ensures Receive(SendAll([], ns)) == (Marked(ns[0]), SendAll([], ns[1..]))
    ensures |SendAll([], ns)| >= 4
  {
    SendAllAppends(Send([], ns[0]), ns[1..]);
    assert [] + EncodeInt(ns[0]) == EncodeInt(ns[0]);
    IntRoundTrip(ns[0], EncodeInt(ns[0]));
    var pipe := SendAll([], ns);
    assert pipe[..4] == EncodeInt(ns[0]) && pipe[4..] == SendAll([], ns[1..]);
  }

  /** Reading as often as was written gives back the numbers in order, leaves the pipe as empty as it was,
      and a number is given back unchanged exactly when it is a positive descriptor or -1 itself. */
  lemma {:induction false} ReceivesWhatWasSent(ns: seq<int32>)
    ensures var (got, left) := ReceiveAll(SendAll([], ns), |ns|);
            && left == [] && |got| == |ns|
            && forall k :: 0 <= k < |ns| ==>
                 && got[k] == (if ns[k] > 0 then ns[k] else -1)
                 && (got[k] == ns[k] <==> ns[k] > 0 || ns[k] == -1)
  {
    if ns != [] {
      FrontIsFirst(ns);
      ReceivesWhatWasSent(ns[1..]);
    }
  }

  // ---- Any interleaving ----

  datatype Op = Write(n: int32) | Read

  /** What the reads of an interleaving return, and what is left. With the write end open, a read of an
      empty pipe waits: it takes effect later or not at all. */
  function Exchange(pipe: seq<byte>, ops: seq<Op>): (seq<int32>, seq<byte>)
    decreases |ops|
  {
    if ops == [] then ([], pipe) else
    match ops[0]
    case Write(n) => Exchange(Send(pipe, n), ops[1..])
    case Read =>
      if pipe == [] then Exchange(pipe, ops[1..]) else
      var (n, rest) := Receive(pipe);
      var (ns, left) := Exchange(rest, ops[1..]);
      ([n] + ns, left)
  }

  function Sent(ops: seq<Op>): seq<int32> {
    if ops == [] then [] else (if ops[0].Write? then [ops[0].n] else []) + Sent(ops[1..])
  }

  lemma {:induction false} SendAllLast(ns: seq<int32>, n: int32)
    ensures SendAll([], ns + [n]) == Send(SendAll([], ns), n)
  {
    if ns == [] {
      assert [n][1..] == [];
    } else {
      assert (ns + [n])[1..] == ns[1..] + [n];
      SendAllLast(ns[1..], n);
      SendAllAppends(Send([], ns[0]), ns[1..]);
      SendAllAppends(Send([], ns[0]), ns[1..] + [n]);
      var (head, rest) := (Send([], ns[0]), SendAll([], ns[1..]));
      assert head + (rest + EncodeInt(n)) == (head + rest) + EncodeInt(n);
    }
  }

  /** What was received are the first numbers sent, in order and each marked; what is left are whole messages,
      exactly those sent and not yet received. */
  predicate InOrder(got: seq<int32>, left: seq<byte>, sent: seq<int32>) {
    && |got| <= |sent|
    && (forall k :: 0 <= k < |got| ==> got[k] == Marked(sent[k]))
    && left == SendAll([], sent[|got|..])
  }

  lemma OneMore(got: seq<int32>, left: seq<byte>, sent: seq<int32>)
    requires sent != [] && InOrder(got, left, sent[1..])
    ensures InOrder([Marked(sent[0])] + got, left, sent)
  {
    var more := [Marked(sent[0])] + got;
    assert sent[|more|..] == sent[1..][|got|..];
    forall k | 0 <= k < |more| ensures more[k] == Marked(sent[k]) {
      if k > 0 { assert more[k] == got[k - 1] && sent[k] == sent[1..][k - 1]; }
    }
  }

  /** However writes and reads interleave, and whatever was queued before, numbers arrive in order. */
  lemma {:induction false} ReceivedIsPrefixOfSent(queued: seq<int32>, ops: seq<Op>)
    ensures var (got, left) := Exchange(SendAll([], queued), ops);
            InOrder(got, left, queued + Sent(ops))
    decreases |ops|
  {
    var sent := queued + Sent(ops);
    if ops == [] {
      assert sent == queued && sent[0..] == queued;
    } else if ops[0].Write? {
      SendAllLast(queued, ops[0].n);
      ReceivedIsPrefixOfSent(queued + [ops[0].n], ops[1..]);
      assert sent == (queued + [ops[0].n]) + Sent(ops[1..]);
    } else if queued == [] {
      ReceivedIsPrefixOfSent(queued, ops[1..]);
      assert sent == queued + Sent(ops[1..]);
    } else {
      FrontIsFirst(queued);
      ReceivedIsPrefixOfSent(queued[1..], ops[1..]);
      var (got, left) := Exchange(SendAll([], queued[1..]), ops[1..]);
      assert sent[1..] == queued[1..] + Sent(ops[1..]);
      OneMore(got, left, sent);
    }
  }
}
