/** Packets of type, length and value over a byte stream, with reads and writes that may come
    out short, fail, or run out of memory at any point. */
module TlvStream {

  import opened Arith
  import opened Wrappers

  type Byte = x: int | 0 <= x < 256
  type Bytes = seq<Byte>

  const METADATA_SIZE: nat := 16
  const SSIZE_MAX: nat := 0x7FFF_FFFF_FFFF_FFFF

  datatype Packet = Packet(kind: nat, payload: Bytes)

  /** The enum fits 4 bytes, and the length one read or write can report. */
  predicate Sendable(p: Packet) {
    p.kind < 0x1_0000_0000 && |p.payload| <= SSIZE_MAX
  }

  // ---------------------------------------------------------------------------------------
  // The metadata record in memory
  // ---------------------------------------------------------------------------------------

  function Le(n: nat, size: nat): (s: Bytes)
    ensures |s| == size
  {
    if size == 0 then [] else [n % 256] + Le(n / 256, size - 1)
  }

  function FromLe(s: Bytes): nat {
    if s == [] then 0 else s[0] + 256 * FromLe(s[1..])
  }

  function Pow256(k: nat): (p: nat)
    ensures p > 0
  {
    if k == 0 then 1 else 256 * Pow256(k - 1)
  }

  lemma {:induction false} LeRoundTrip(n: nat, size: nat)
    requires n < Pow256(size)
    ensures FromLe(Le(n, size)) == n
  {
    if size > 0 {
      LeRoundTrip(n / 256, size - 1);
    }
  }

  /** Type, four bytes of alignment padding with any contents, length. */
  function Metadata(kind: nat, pad: Bytes, length: nat): (s: Bytes)
    requires |pad| == 4
    ensures |s| == METADATA_SIZE
  {
    Le(kind, 4) + pad + Le(length, 8)
  }

  function KindOf(s: Bytes): nat
    requires |s| == METADATA_SIZE
  {
    FromLe(s[..4])
  }

  function LengthOf(s: Bytes): nat
    requires |s| == METADATA_SIZE
  {
    FromLe(s[8..])
  }

  lemma {:induction false} MetadataRoundTrip(kind: nat, pad: Bytes, length: nat)
    requires |pad| == 4 && kind < 0x1_0000_0000 && length <= SSIZE_MAX
    ensures KindOf(Metadata(kind, pad, length)) == kind
    ensures LengthOf(Metadata(kind, pad, length)) == length
  {
    var s := Metadata(kind, pad, length);
    assert s[..4] == Le(kind, 4) && s[8..] == Le(length, 8);
    assert Pow256(4) == 0x1_0000_0000 by {
      assert Pow256(2) == 0x1_0000;
    }
    assert Pow256(8) == 0x1_0000_0000_0000_0000 by {
      assert Pow256(6) == 256 * (256 * Pow256(4));
    }
    LeRoundTrip(kind, 4);
    LeRoundTrip(length, 8);
  }

  lemma {:induction false} LeByte(n: nat, size: nat, i: nat)
    requires i < size
    ensures Le(n, size)[i] == n / Pow256(i) % 256
  {
    if i == 0 {
      assert n / Pow256(0) == n;
    } else {
      LeByte(n / 256, size - 1, i - 1);
      DivTwice(n, Pow256(i - 1));
    }
  }

  lemma {:induction false} DivTwice(n: nat, d: nat)
    requires d > 0
    ensures n / 256 / d == n / (256 * d)
  {
    var q := n / 256 / d;
    var r := n / 256 % d;
    assert n / 256 == d * q + r;
    assert n == (256 * d) * q + (256 * r + n % 256);
    DivUnique(n, 256 * d, q);
  }

  /** The record in memory: the type in bytes 0 to 3, padding up to 7, the length in bytes 8 to 15,
      each with its lowest byte first. */
  lemma {:induction false} MetadataLayout(kind: nat, pad: Bytes, length: nat)
    requires |pad| == 4
    ensures var s := Metadata(kind, pad, length);
      && |s| == 16
      && (forall i: nat :: i < 4 ==> s[i] == kind / Pow256(i) % 256 && s[4 + i] == pad[i])
      && (forall i: nat :: i < 8 ==> s[8 + i] == length / Pow256(i) % 256)
  {
    var s := Metadata(kind, pad, length);
    forall i: nat | i < 4
      ensures s[i] == kind / Pow256(i) % 256 && s[4 + i] == pad[i]
    {
      LeByte(kind, 4, i);
    }
    forall i: nat | i < 8
      ensures s[8 + i] == length / Pow256(i) % 256
    {
      LeByte(length, 8, i);
    }
  }

  function Encode(p: Packet, pad: Bytes): Bytes
    requires |pad| == 4
  {
    Metadata(p.kind, pad, |p.payload|) + p.payload
  }

  // ---------------------------------------------------------------------------------------
  // The two operations
  // ---------------------------------------------------------------------------------------

  /** What the system does during one recv_payload: whether the two allocations succeed, and the
      results of the two reads. */
  datatype Oracle = Oracle(packetOk: bool, read1: int, payloadOk: bool, read2: int)

  function Available(stream: Bytes, n: nat): nat {
    if |stream| < n then |stream| else n
  }

  /** A read reports -1, or at most what was asked for and what is there. */
  predicate ReadResult(stream: Bytes, n: nat, result: int) {
    -1 <= result <= Available(stream, n)
  }

  function Taken(result: int): nat {
    if result > 0 then result else 0
  }

  predicate OracleOk(stream: Bytes, o: Oracle) {
    && ReadResult(stream, METADATA_SIZE, o.read1)
    && (o.read1 == METADATA_SIZE ==>
          ReadResult(stream[METADATA_SIZE..], LengthOf(stream[..METADATA_SIZE]), o.read2))
  }

  /** recv_payload: the packet or NULL, and the stream left. */
  function Recv(stream: Bytes, o: Oracle): (Option<Packet>, Bytes)
    requires OracleOk(stream, o)
  {
    if !o.packetOk then (None, stream)
    else if o.read1 != METADATA_SIZE then (None, stream[Taken(o.read1)..])
    else
      var head, rest := stream[..METADATA_SIZE], stream[METADATA_SIZE..];
      var length := LengthOf(head);
      if length == 0 then (Some(Packet(KindOf(head), [])), rest)
      else if !o.payloadOk then (None, rest)
      else if o.read2 != length then (None, rest[Taken(o.read2)..])
      else (Some(Packet(KindOf(head), rest[..length])), rest[length..])
  }

  class Connection {
    var stream: Bytes

    constructor ()
      ensures stream == []
    {
      stream := [];
    }

    method Write(data: Bytes, result: int) returns (numBytes: int)
      requires -1 <= result <= |data|
      modifies this
      ensures numBytes == result && stream == old(stream) + data[..Taken(result)]
    {
      stream := stream + data[..Taken(result)];
      numBytes := result;
    }

    method Read(n: nat, result: int) returns (numBytes: int, data: Bytes)
      requires ReadResult(stream, n, result)
      modifies this
      ensures numBytes == result
      ensures data == old(stream)[..Taken(result)] && stream == old(stream)[Taken(result)..]
    {
      data := stream[..Taken(result)];
      stream := stream[Taken(result)..];
      numBytes := result;
    }

    /** Whatever the writes do, the stream receives a prefix of the encoding, and all of it
        exactly when 0 is returned. */
    method SendPacket(p: Packet, pad: Bytes, write1: int, write2: int) returns (ret: int)
      requires |pad| == 4 && -1 <= write1 <= METADATA_SIZE && -1 <= write2 <= |p.payload|
      modifies this
      ensures ret == 0 || ret == -1
      ensures ret == 0 <==> write1 == METADATA_SIZE && (|p.payload| == 0 || write2 == |p.payload|)
      ensures ret == 0 ==> stream == old(stream) + Encode(p, pad)
      ensures ret == -1 ==> exists k: nat :: k < |Encode(p, pad)| && stream == old(stream) + Encode(p, pad)[..k]
    {
      var metadata := Metadata(p.kind, pad, |p.payload|);
      var numBytes := Write(metadata, write1);
      if numBytes != METADATA_SIZE {
        assert Encode(p, pad)[..Taken(write1)] == metadata[..Taken(write1)];
        return -1;
      }
      assert metadata[..METADATA_SIZE] == metadata;
      if |p.payload| == 0 {
        assert Encode(p, pad) == metadata;
        return 0;
      }
      numBytes := Write(p.payload, write2);
      if numBytes != |p.payload| {
        assert Encode(p, pad)[..METADATA_SIZE + Taken(write2)] == metadata + p.payload[..Taken(write2)];
        return -1;
      }
      assert p.payload[..|p.payload|] == p.payload;
      return 0;
    }

    method RecvPayload(o: Oracle) returns (packet: Option<Packet>)
      requires OracleOk(stream, o)
      modifies this
      ensures (packet, stream) == Recv(old(stream), o)
    {
      if !o.packetOk {
        return None;
      }
      var numBytes, head := Read(METADATA_SIZE, o.read1);
      if numBytes != METADATA_SIZE {
        return None;
      }
      var length := LengthOf(head);
      if length == 0 {
        return Some(Packet(KindOf(head), []));
      }
      if !o.payloadOk {
        return None;
      }
      var payload;
      numBytes, payload := Read(length, o.read2);
      if numBytes != length {
        return None;
      }
      return Some(Packet(KindOf(head), payload));
    }
  }

  // ---------------------------------------------------------------------------------------
  // One packet
  // ---------------------------------------------------------------------------------------

  /** The system lets a packet with this payload through. */
  predicate Complete(o: Oracle, length: nat) {
    o.packetOk && o.read1 == METADATA_SIZE && (length == 0 || (o.payloadOk && o.read2 == length))
  }

  lemma {:induction false} HeadOfStream(p: Packet, pad: Bytes, rest: Bytes)
    requires Sendable(p) && |pad| == 4
    ensures var s := Encode(p, pad) + rest;
            |s| >= METADATA_SIZE
            && KindOf(s[..METADATA_SIZE]) == p.kind && LengthOf(s[..METADATA_SIZE]) == |p.payload|
            && s[METADATA_SIZE..] == p.payload + rest
  {
    var s := Encode(p, pad) + rest;
    var m := Metadata(p.kind, pad, |p.payload|);
    assert s == m + (p.payload + rest);
    assert s[..METADATA_SIZE] == m;
    MetadataRoundTrip(p.kind, pad, |p.payload|);
  }

  /** At a packet boundary, recv_payload returns exactly the packet that was sent, and leaves the
      stream at the next boundary, if and only if the allocations succeed and the reads are
      complete. */
  lemma {:induction false} RecvReturnsSent(p: Packet, pad: Bytes, rest: Bytes, o: Oracle)
    requires Sendable(p) && |pad| == 4 && OracleOk(Encode(p, pad) + rest, o)
    ensures Recv(Encode(p, pad) + rest, o).0.Some? <==> Complete(o, |p.payload|)
    ensures Complete(o, |p.payload|) ==> Recv(Encode(p, pad) + rest, o) == (Some(p), rest)
  {
    HeadOfStream(p, pad, rest);
    assert (p.payload + rest)[..|p.payload|] == p.payload;
    assert (p.payload + rest)[|p.payload|..] == rest;
  }

  /** A NULL leaves the stream at the packet boundary exactly when nothing was read: the first
      allocation failed, or the first read failed or found nothing. */
  lemma {:induction false} FailedRecvKeepsFraming(stream: Bytes, o: Oracle)
    requires OracleOk(stream, o) && Recv(stream, o).0.None?
    ensures Recv(stream, o).1 == stream <==> !o.packetOk || o.read1 <= 0
  {
  }

  // ---------------------------------------------------------------------------------------
  // Whole conversations
  // ---------------------------------------------------------------------------------------

  /** Successful sends and calls of recv_payload, in the order in which they happen. */
  datatype Op = Send(p: Packet, pad: Bytes) | Receive(o: Oracle)

  predicate OpOk(stream: Bytes, op: Op) {
    match op
    case Send(p, pad) => Sendable(p) && |pad| == 4
    case Receive(o) => OracleOk(stream, o)
  }

  function After(stream: Bytes, op: Op): Bytes
    requires OpOk(stream, op)
  {
    match op
    case Send(p, pad) => stream + Encode(p, pad)
    case Receive(o) => Recv(stream, o).1
  }

  predicate ConversationOk(stream: Bytes, ops: seq<Op>)
    decreases |ops|
  {
    ops == [] || (OpOk(stream, ops[0]) && ConversationOk(After(stream, ops[0]), ops[1..]))
  }

  /** The packets returned before the first NULL. */
  function Received(stream: Bytes, ops: seq<Op>): seq<Packet>
    requires ConversationOk(stream, ops)
    decreases |ops|
  {
    if ops == [] then []
    else if ops[0].Send? then Received(After(stream, ops[0]), ops[1..])
    else
      var got := Recv(stream, ops[0].o).0;
      if got.None? then [] else [got.value] + Received(After(stream, ops[0]), ops[1..])
  }

  function Sent(ops: seq<Op>): seq<Packet> {
    if ops == [] then []
    else (if ops[0].Send? then [ops[0].p] else []) + Sent(ops[1..])
  }

  /** A packet on its way, with the padding its metadata carries. */
  type InFlight = (Packet, Bytes)

  predicate QueueOk(queue: seq<InFlight>) {
    forall i :: 0 <= i < |queue| ==> Sendable(queue[i].0) && |queue[i].1| == 4
  }

  function Wire(queue: seq<InFlight>): Bytes
    requires QueueOk(queue)
  {
    if queue == [] then [] else Encode(queue[0].0, queue[0].1) + Wire(queue[1..])
  }

  function Packets(queue: seq<InFlight>): seq<Packet> {
    if queue == [] then [] else [queue[0].0] + Packets(queue[1..])
  }

  lemma {:induction false} WireAppend(queue: seq<InFlight>, p: Packet, pad: Bytes)
    requires QueueOk(queue) && Sendable(p) && |pad| == 4
    ensures QueueOk(queue + [(p, pad)])
    ensures Wire(queue + [(p, pad)]) == Wire(queue) + Encode(p, pad)
    ensures Packets(queue + [(p, pad)]) == Packets(queue) + [p]
  {
    hide Encode, Sendable;
    if queue == [] {
      assert queue + [(p, pad)] == [(p, pad)];
      assert Wire([]) == [];
    } else {
      var q := queue + [(p, pad)];
      assert q[0] == queue[0] && q[1..] == queue[1..] + [(p, pad)];
      WireAppend(queue[1..], p, pad);
      ConcatAssociative(Encode(queue[0].0, queue[0].1), Wire(queue[1..]), Encode(p, pad));
    }
  }

  lemma {:induction false} ConcatAssociative(a: Bytes, b: Bytes, c: Bytes)
    ensures (a + b) + c == a + (b + c)
  {
  }

  predicate IsPrefix(a: seq<Packet>, b: seq<Packet>) {
    |a| <= |b| && a == b[..|a|]
  }

  lemma {:induction false} EmptyIsPrefix(b: seq<Packet>)
    ensures IsPrefix([], b)
  {
  }

  lemma {:induction false} PrefixPrepend(p: Packet, a: seq<Packet>, b: seq<Packet>)
    requires IsPrefix(a, b)
    ensures IsPrefix([p] + a, [p] + b)
  {
  }

  lemma {:induction false} NothingToReceive(o: Oracle)
    requires OracleOk([], o)
    ensures Recv([], o).0.None?
  {
  }

  /** One step of a conversation, apart from how the stream is encoded. */
  lemma {:induction false} ReceivedAfterSend(stream: Bytes, ops: seq<Op>)
    requires ConversationOk(stream, ops) && ops != [] && ops[0].Send?
    ensures Sendable(ops[0].p) && |ops[0].pad| == 4
    ensures var after := stream + Encode(ops[0].p, ops[0].pad);
            ConversationOk(after, ops[1..]) && Received(stream, ops) == Received(after, ops[1..])
  {
    hide Encode, OracleOk, Recv;
  }

  lemma {:induction false} ReceivedAfterReceive(stream: Bytes, ops: seq<Op>)
    requires ConversationOk(stream, ops) && ops != [] && ops[0].Receive?
    ensures OracleOk(stream, ops[0].o)
    ensures var (got, after) := Recv(stream, ops[0].o);
            ConversationOk(after, ops[1..])
            && Received(stream, ops) == if got.None? then [] else [got.value] + Received(after, ops[1..])
  {
    hide Encode, OracleOk, Recv;
  }

  /** Sending moves a packet from what is to be sent to what is in flight. */
  lemma {:induction false} SentIsInFlight(inFlight: seq<Packet>, ops: seq<Op>)
    requires ops != [] && ops[0].Send?
    ensures inFlight + Sent(ops) == (inFlight + [ops[0].p]) + Sent(ops[1..])
  {
  }

  lemma {:induction false} FirstInFlight(first: Packet, queued: seq<Packet>, ops: seq<Op>)
    requires ops != [] && ops[0].Receive?
    ensures ([first] + queued) + Sent(ops) == [first] + (queued + Sent(ops[1..]))
  {
  }

  lemma {:induction false} SendStep(queue: seq<InFlight>, ops: seq<Op>)
    requires QueueOk(queue) && ConversationOk(Wire(queue), ops) && ops != [] && ops[0].Send?
    ensures var q := queue + [(ops[0].p, ops[0].pad)];
      && QueueOk(q) && ConversationOk(Wire(q), ops[1..])
      && Received(Wire(queue), ops) == Received(Wire(q), ops[1..])
      && Packets(queue) + Sent(ops) == Packets(q) + Sent(ops[1..])
      && Packets(q) == Packets(queue) + [ops[0].p]
  {
    hide *;
    ReceivedAfterSend(Wire(queue), ops);
    WireAppend(queue, ops[0].p, ops[0].pad);
    SentIsInFlight(Packets(queue), ops);
  }

  lemma {:induction false} ReceiveStep(queue: seq<InFlight>, ops: seq<Op>)
    requires QueueOk(queue) && ConversationOk(Wire(queue), ops) && ops != [] && ops[0].Receive? && queue != []
    ensures QueueOk(queue[1..])
    ensures !Complete(ops[0].o, |queue[0].0.payload|) ==> Received(Wire(queue), ops) == []
    ensures Complete(ops[0].o, |queue[0].0.payload|) ==>
      && ConversationOk(Wire(queue[1..]), ops[1..])
      && Received(Wire(queue), ops) == [queue[0].0] + Received(Wire(queue[1..]), ops[1..])
    ensures Packets(queue) + Sent(ops) == [queue[0].0] + (Packets(queue[1..]) + Sent(ops[1..]))
  {
    hide *;
    QueueParts(queue);
    ReceivedAfterReceive(Wire(queue), ops);
    RecvReturnsSent(queue[0].0, queue[0].1, Wire(queue[1..]), ops[0].o);
    FirstInFlight(queue[0].0, Packets(queue[1..]), ops);
  }

  lemma {:induction false} QueueParts(queue: seq<InFlight>)
    requires QueueOk(queue) && queue != []
    ensures Sendable(queue[0].0) && |queue[0].1| == 4 && QueueOk(queue[1..])
    ensures Wire(queue) == Encode(queue[0].0, queue[0].1) + Wire(queue[1..])
    ensures Packets(queue) == [queue[0].0] + Packets(queue[1..])
  {
  }

  /** For any interleaving of sends and receives and any behaviour of the reads, what is received
      before the first NULL is a prefix of what was in flight and what was sent after. */
  lemma {:induction false} ReceivedIsPrefix(queue: seq<InFlight>, ops: seq<Op>)
    requires QueueOk(queue) && ConversationOk(Wire(queue), ops)
    ensures IsPrefix(Received(Wire(queue), ops), Packets(queue) + Sent(ops))
    decreases |ops|
  {
    EmptyIsPrefix(Packets(queue) + Sent(ops));
    if ops != [] && ops[0].Receive? && queue == [] {
      NothingToReceive(ops[0].o);
    } else if ops != [] {
      hide Wire, Received, Packets, Sent, ConversationOk, Complete, IsPrefix;
      if ops[0].Send? {
        SendStep(queue, ops);
        ReceivedIsPrefix(queue + [(ops[0].p, ops[0].pad)], ops[1..]);
      } else {
        ReceiveStep(queue, ops);
        if Complete(ops[0].o, |queue[0].0.payload|) {
          ReceivedIsPrefix(queue[1..], ops[1..]);
          PrefixPrepend(queue[0].0, Received(Wire(queue[1..]), ops[1..]), Packets(queue[1..]) + Sent(ops[1..]));
        }
      }
    }
  }

  /** Every receive finds a packet and is let through. */
  predicate AllComplete(queue: seq<Packet>, ops: seq<Op>)
    decreases |ops|
  {
    ops == [] ||
    match ops[0]
    case Send(p, _) => AllComplete(queue + [p], ops[1..])
    case Receive(o) => queue != [] && Complete(o, |queue[0].payload|) && AllComplete(queue[1..], ops[1..])
  }

  function Receives(ops: seq<Op>): nat {
    if ops == [] then 0 else (if ops[0].Receive? then 1 else 0) + Receives(ops[1..])
  }

  /** With complete reads nothing is missing: every call returns a packet. */
  lemma {:induction false} EveryReceiveReturns(queue: seq<InFlight>, ops: seq<Op>)
    requires QueueOk(queue) && ConversationOk(Wire(queue), ops) && AllComplete(Packets(queue), ops)
    ensures |Received(Wire(queue), ops)| == Receives(ops)
    decreases |ops|
  {
    if ops != [] {
      hide Wire, Received, Sent, ConversationOk, Complete;
      if ops[0].Send? {
        SendStep(queue, ops);
        EveryReceiveReturns(queue + [(ops[0].p, ops[0].pad)], ops[1..]);
      } else {
        ReceiveStep(queue, ops);
        assert Packets(queue)[1..] == Packets(queue[1..]);
        EveryReceiveReturns(queue[1..], ops[1..]);
      }
    }
  }

  /** From an empty stream, as many calls with complete reads as packets sent return the whole
      sequence. */
  lemma {:induction false} CompleteReadsReceiveAll(ops: seq<Op>)
    requires ConversationOk([], ops) && AllComplete([], ops) && Receives(ops) == |Sent(ops)|
    ensures Received([], ops) == Sent(ops)
  {
    hide Received, Sent, ConversationOk, AllComplete, Receives, IsPrefix;
    ReceivedIsPrefix([], ops);
    EveryReceiveReturns([], ops);
    assert Packets([]) + Sent(ops) == Sent(ops);
    WholePrefix(Received([], ops), Sent(ops));
  }

  lemma {:induction false} WholePrefix(a: seq<Packet>, b: seq<Packet>)
    requires IsPrefix(a, b)
    ensures |a| == |b| ==> a == b
  {
  }

  /** A payload that spells a packet of its own. */
  const INNER: Packet := Packet(7, [])
  const PAD: Bytes := [0, 0, 0, 0]
  const OUTER: Packet := Packet(1, Encode(INNER, PAD))

  /** What a receive after NULL can return: when the receive of the outer packet fails after its
      metadata, the next one reads the payload as a packet, which was never sent. */
  lemma {:induction false} DesynchronisedWitness()
    ensures var fail, again := Oracle(true, 16, false, 0), Oracle(true, 16, true, 0);
            var sent := Encode(OUTER, PAD);
            && OpOk([], Send(OUTER, PAD)) && After([], Send(OUTER, PAD)) == sent
            && OpOk(sent, Receive(fail)) && Recv(sent, fail) == (None, Encode(INNER, PAD))
            && OpOk(Encode(INNER, PAD), Receive(again)) && Recv(Encode(INNER, PAD), again).0 == Some(INNER)
            && INNER != OUTER
  {
    hide LengthOf, KindOf, Le;
    assert OUTER.payload + [] == OUTER.payload && Encode(OUTER, PAD) + [] == Encode(OUTER, PAD);
    assert [] + Encode(OUTER, PAD) == Encode(OUTER, PAD) && Encode(INNER, PAD) + [] == Encode(INNER, PAD);
    HeadOfStream(OUTER, PAD, []);
    HeadOfStream(INNER, PAD, []);
  }
}
