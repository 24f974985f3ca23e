/** Length-prefixed framing: the receive handler that the three sockets share reassembles frames in
    a fixed buffer, two counters telling it how far it is and how much to ask for next. */
module Framing {
  import opened Bytes

  const HEADER_SIZE := 4
  const BUFSIZE := 8192

  /** A 16-bit length in the byte order of the platform. */
  function U16(lo: byte, hi: byte): nat { lo + 256 * hi }

  /** The same two bytes as a `short`. */
  function Short(lo: byte, hi: byte): int
  {
    if U16(lo, hi) < 0x8000 then U16(lo, hi) else U16(lo, hi) - 0x1_0000
  }

  /** Size of the frame whose header starts `s`. */
  function FrameSize(s: seq<byte>): nat
    requires |s| >= HEADER_SIZE
  {
    HEADER_SIZE + U16(s[0], s[1])
  }

  /** The bytes of a frame that is not complete. */
  predicate IsPartial(s: seq<byte>)
  {
    |s| < HEADER_SIZE || |s| < FrameSize(s)
  }

  /** The complete frames of a stream, and the rest. */
  datatype Frames = Frames(packets: seq<seq<byte>>, tail: seq<byte>)

  function Deframe(s: seq<byte>): (f: Frames)
    ensures IsPartial(f.tail)
    decreases |s|
  {
    if IsPartial(s) then Frames([], s)
    else Frames([s[..FrameSize(s)]] + Deframe(s[FrameSize(s)..]).packets, Deframe(s[FrameSize(s)..]).tail)
  }

  /** A message: its type, a 16-bit number, and its body. */
  datatype Message = Message(kind: nat, body: seq<byte>)

  /** The packet as it is sent: length and type, low byte first, and the body. */
  function Pack(m: Message): (s: seq<byte>)
    requires |m.body| < 0x1_0000 && m.kind < 0x1_0000
    ensures |s| == HEADER_SIZE + |m.body| && FrameSize(s) == |s|
  {
    [|m.body| % 256, |m.body| / 256, m.kind % 256, m.kind / 256] + m.body
  }

  /** A 16-bit number from its low and its high byte. */
  function Word(lo: int, hi: int): int { lo + 256 * hi }

  /** What a handler reads from an enqueued packet: the type behind the length, and as many bytes of the
      body as the length says. */
  function Unpack(p: seq<byte>): Message
    requires |p| >= 4 && |p| >= 4 + Word(p[0], p[1])
  {
    Message(Word(p[2], p[3]), p[4..4 + Word(p[0], p[1])])
  }

  lemma UnpackInvertsPack(m: Message)
    requires |m.body| < 0x1_0000 && m.kind < 0x1_0000
    ensures var p := Pack(m);
            |p| >= 4 && |p| == 4 + Word(p[0], p[1]) && Unpack(p) == m
  {
    assert Pack(m)[4..] == m.body;
  }

  /** Two packets, byte for byte. */
  lemma KnownPackets()
    ensures Pack(Message(2, [65])) == [1, 0, 2, 0, 65]
    ensures Pack(Message(258, seq(300, _ => 7)))[..4] == [44, 1, 2, 1]
    ensures FrameSize([44, 1, 2, 1]) == 304 && FrameSize([255, 255, 0, 0]) == 65539
  {
  }

  predicate Sendable(ms: seq<Message>, limit: nat)
  {
    limit < 0x1_0000 && forall i :: 0 <= i < |ms| ==> |ms[i].body| <= limit && ms[i].kind < 0x1_0000
  }

  function PackEach(ms: seq<Message>): (r: seq<seq<byte>>)
    requires Sendable(ms, 0xFFFF)
  {
    if ms == [] then [] else [Pack(ms[0])] + PackEach(ms[1..])
  }

  // ---------------------------------------------------------------------------------------

  /** Frames that are complete stay as they are when more bytes follow. */
  lemma {:induction false} DeframeAppend(a: seq<byte>, b: seq<byte>)
    ensures var f, g := Deframe(a), Deframe(Deframe(a).tail + b);
            Deframe(a + b) == Frames(f.packets + g.packets, g.tail)
    decreases |a|
  {
    hide Deframe;
    DeframeStep(a);
    if IsPartial(a) {
      var g := Deframe(a + b);
      assert [] + g.packets == g.packets;
    } else {
      var n := FrameSize(a);
      assert (a + b)[..n] == a[..n] && (a + b)[n..] == a[n..] + b;
      DeframeStep(a + b);
      DeframeAppend(a[n..], b);
      var f, g := Deframe(a[n..]), Deframe(Deframe(a[n..]).tail + b);
      assert [a[..n]] + (f.packets + g.packets) == [a[..n]] + f.packets + g.packets;
    }
  }

  lemma DeframeStep(s: seq<byte>)
    ensures Deframe(s) == if IsPartial(s) then Frames([], s)
                          else var f := Deframe(s[FrameSize(s)..]); Frames([s[..FrameSize(s)]] + f.packets, f.tail)
  {
  }

  /** What one completed read does to a partial frame it does not overshoot. */
  lemma DeframeOneRead(tail: seq<byte>, data: seq<byte>)
    requires IsPartial(tail) && data != []
    requires |tail| < HEADER_SIZE ==> |tail + data| <= HEADER_SIZE
    requires |tail| >= HEADER_SIZE ==> |tail + data| <= FrameSize(tail)
    ensures Deframe(tail + data) == if IsPartial(tail + data) then Frames([], tail + data)
                                    else Frames([tail + data], [])
    ensures !IsPartial(tail + data) ==> FrameSize(tail + data) == |tail + data|
  {
    var s := tail + data;
    if !IsPartial(s) {
      assert s[..|s|] == s && s[|s|..] == [];
    }
  }

  /** Round trip: the frames of any messages, one after another, are exactly those messages. */
  lemma {:induction false} DeframeInvertsPack(ms: seq<Message>)
    requires Sendable(ms, 0xFFFF)
    ensures Deframe(Concat(PackEach(ms))) == Frames(PackEach(ms), [])
    decreases |ms|
  {
    if ms != [] {
      var p, rest := Pack(ms[0]), Concat(PackEach(ms[1..]));
      assert PackEach(ms)[1..] == PackEach(ms[1..]);
      assert Concat(PackEach(ms)) == p + rest;
      assert (p + rest)[..|p|] == p && (p + rest)[|p|..] == rest;
      DeframeInvertsPack(ms[1..]);
    }
  }

  /** A handler reads the messages `ms`, as far as packets have come. */
  ghost predicate Reads(packets: seq<seq<byte>>, ms: seq<Message>)
  {
    && |packets| <= |ms|
    && forall i :: 0 <= i < |packets| ==>
         var p := packets[i];
         |p| >= 4 && |p| == 4 + Word(p[0], p[1]) && Unpack(p) == ms[i]
  }

  lemma ReadsPrefix(some: seq<seq<byte>>, all: seq<seq<byte>>, ms: seq<Message>)
    requires some <= all && Reads(all, ms)
    ensures Reads(some, ms)
  {
  }

  lemma {:induction false} EachUnpacks(ms: seq<Message>)
    requires Sendable(ms, 0xFFFF)
    ensures |PackEach(ms)| == |ms| && Reads(PackEach(ms), ms)
    decreases |ms|
  {
    if ms != [] {
      UnpackInvertsPack(ms[0]);
      EachUnpacks(ms[1..]);
    }
  }

  /** The buffer suffices for the frame that `tail` begins. */
  predicate Fits(tail: seq<byte>)
  {
    |tail| < HEADER_SIZE || FrameSize(tail) <= BUFSIZE
  }

  /** Wherever a stream of messages is cut, what has arrived is a prefix of the messages, and the
      buffer suffices for the next one if no body is longer than 8188 bytes. */
  lemma {:induction false} CutStream(ms: seq<Message>, stream: seq<byte>)
    requires Sendable(ms, BUFSIZE - HEADER_SIZE) && stream <= Concat(PackEach(ms))
    ensures Deframe(stream).packets <= PackEach(ms) && Fits(Deframe(stream).tail)
    ensures stream == Concat(PackEach(ms)) ==> Deframe(stream).packets == PackEach(ms)
    decreases |ms|
  {
    if ms == [] {
      assert stream == [];
    } else {
      var p, rest := Pack(ms[0]), Concat(PackEach(ms[1..]));
      assert PackEach(ms)[1..] == PackEach(ms[1..]);
      assert Concat(PackEach(ms)) == p + rest;
      if |stream| >= |p| {
        assert stream[..|p|] == p && stream[|p|..] <= rest;
        CutStream(ms[1..], stream[|p|..]);
      } else {
        assert forall i :: 0 <= i < |stream| ==> stream[i] == p[i];
      }
    }
  }

  // ---------------------------------------------------------------------------------------

  class FrameReceiver {
    const recvBuf: array<byte>
    var position: int
    var remainBytes: int
    /** The read that is posted: where it writes and how many bytes it asks for. */
    var receiving: bool
    var recvAt: int
    var recvLen: int
    var disconnected: bool
    var operationQueue: seq<seq<byte>>
    ghost var stream: seq<byte>

    /** AcceptProcess: the first read asks for a header. */
    constructor ()
      ensures Valid() && receiving && stream == [] && fresh(recvBuf) && InBuffer()
      ensures recvBuf.Length == 8192 && recvAt == 0 && recvLen == 4
    {
      recvBuf := new byte[BUFSIZE];
      position, remainBytes := 0, HEADER_SIZE;
      receiving, recvAt, recvLen := true, 0, HEADER_SIZE;
      disconnected := false;
      operationQueue, stream := [], [];
    }

    /** The counters: while a read is posted it asks for at least one byte, and what is there plus
        what is asked for is a header, or the frame its header announces. */
    ghost predicate Valid()
      reads this, recvBuf
    {
      && recvBuf.Length == BUFSIZE
      && (receiving ==>
            && recvAt == position && recvLen == remainBytes
            && 0 <= position <= BUFSIZE && 1 <= remainBytes
            && position + remainBytes == (if position < HEADER_SIZE then HEADER_SIZE
                                          else HEADER_SIZE + U16(recvBuf[0], recvBuf[1]))
            && Deframe(stream) == Frames(operationQueue, recvBuf[..position]))
    }

    /** The posted read stays inside the buffer. */
    ghost predicate InBuffer()
      reads this
    {
      recvAt + recvLen <= BUFSIZE
    }

    method Recv(at: int, len: int)
      modifies this`receiving, this`recvAt, this`recvLen
      ensures receiving && recvAt == at && recvLen == len
    {
      receiving, recvAt, recvLen := true, at, len;
    }

    /** The kernel's part of a completed read. */
    method Store(data: seq<byte>)
      requires 0 <= recvAt && recvAt + |data| <= recvBuf.Length
      modifies recvBuf
      ensures recvBuf[..recvAt + |data|] == old(recvBuf[..recvAt]) + data
    {
      forall i | 0 <= i < |data| {
        recvBuf[recvAt + i] := data[i];
      }
    }

    /** RecvProcess for a posted read that has completed with `data`, in place. Whatever the sizes
        of the completions, exactly the complete frames of the stream are enqueued, in order; the
        next read stays inside the buffer if and only if the announced frame does. */
    method RecvProcess(isError: bool, data: seq<byte>)
      requires Valid() && receiving && InBuffer() && |data| <= recvLen
      modifies this, recvBuf
      ensures Valid()
      ensures isError || data == [] ==>
                disconnected && !receiving && operationQueue == old(operationQueue) && stream == old(stream)
      ensures !isError && data != [] ==>
                && receiving && recvLen >= 1 && disconnected == old(disconnected)
                && stream == old(stream) + data && operationQueue == Deframe(stream).packets
                && (InBuffer() <==> Fits(Deframe(stream).tail))
    {
      hide Deframe;
      receiving := false;
      if isError {
        disconnected := true;
        return;
      }
      if |data| == 0 {
        disconnected := true;
        return;
      }
      ghost var tail := recvBuf[..position];
      assert IsPartial(tail) by { assert tail == Deframe(stream).tail; }
      Store(data);
      stream := stream + data;
      position := position + |data|;
      remainBytes := remainBytes - |data|;
      ghost var now := recvBuf[..position];
      assert now == tail + data;
      DeframeAppend(old(stream), data);
      DeframeOneRead(tail, data);

      // at least one byte has arrived, so `position` is never 0 here and the counter needs no reset
      if position >= HEADER_SIZE {
        if position == HEADER_SIZE && remainBytes == 0 {
          remainBytes := U16(recvBuf[0], recvBuf[1]);
        }
        if remainBytes == 0 {
          // the frame is inside the buffer, so its length is not negative as a short
          var length := Short(recvBuf[0], recvBuf[1]);
          assert recvBuf[..HEADER_SIZE + length] == now;
          position := 0;
          remainBytes := HEADER_SIZE;
          operationQueue := operationQueue + [recvBuf[..HEADER_SIZE + length]];
        }
      }
      assert operationQueue + [] == operationQueue;
      Recv(position, remainBytes);
    }
  }

  /** A connection that carries the messages `ms`, its reads completing with as many bytes as the
      network likes: between one and what was asked for, as far as there are any (every such
      behaviour is a choice of `sizes`). All messages arrive whole and in order, nothing else does,
      and no read leaves the buffer. */
  method ReceiveMessages(receiver: FrameReceiver, ms: seq<Message>, sizes: seq<nat>) returns (arrived: nat)
    requires receiver.Valid() && receiver.receiving && receiver.InBuffer() && receiver.stream == []
    requires Sendable(ms, 8188)
    modifies receiver, receiver.recvBuf
    ensures receiver.Valid() && receiver.receiving && receiver.InBuffer()
    ensures arrived <= |Concat(PackEach(ms))| && receiver.operationQueue <= PackEach(ms)
    ensures arrived == |Concat(PackEach(ms))| ==> receiver.operationQueue == PackEach(ms)
    ensures arrived == |Concat(PackEach(ms))| || arrived >= |sizes|
    ensures Reads(receiver.operationQueue, ms)
    ensures arrived == |Concat(PackEach(ms))| ==> |receiver.operationQueue| == |ms|
  {
    hide PackEach, Concat, Deframe, Reads;
    ghost var wire := Concat(PackEach(ms));
    var pending := Concat(PackEach(ms));
    arrived := 0;
    CutStream(ms, []);
    var i := 0;
    while i < |sizes| && pending != []
      invariant 0 <= i <= |sizes| && i <= arrived <= |wire|
      invariant receiver.Valid() && receiver.receiving && receiver.InBuffer()
      invariant receiver.stream == wire[..arrived] && pending == wire[arrived..]
    {
      var most := if receiver.recvLen < |pending| then receiver.recvLen else |pending|;
      var n := 1 + sizes[i] % most;
      assert wire[..arrived] + wire[arrived..][..n] == wire[..arrived + n];
      CutStream(ms, wire[..arrived + n]);
      receiver.RecvProcess(false, pending[..n]);
      pending := pending[n..];
      arrived := arrived + n;
      i := i + 1;
    }
    CutStream(ms, receiver.stream);
    assert pending == [] ==> wire[..arrived] == wire;
    EachUnpacks(ms);
    ReadsPrefix(receiver.operationQueue, PackEach(ms), ms);
  }
}
