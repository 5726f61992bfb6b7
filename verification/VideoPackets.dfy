// A video frame as packets of 1200 bytes with one XOR parity packet per group
// of five (src/client/video_engine.cpp, src/common/udp_packet.hpp).
module VideoPackets {
  const MAX_PAYLOAD: nat := 1200
  const GROUP_SIZE: nat := 5
  const UINT16: nat := 0x1_0000
  // The largest frame whose packet count fits the uint16 fields.
  const MAX_FRAME: nat := 65535 * MAX_PAYLOAD

  datatype Frame = Frame(id: nat, data: seq<bv8>, isKeyframe: bool, codec: nat)

  datatype Packet =
    | Data(frameId: nat, index: nat, total: nat, payload: seq<bv8>, isKeyframe: bool, codec: nat)
    | Fec(frameId: nat, groupStart: nat, groupCount: nat, sizeXor: nat, payload: seq<bv8>)

  function PacketCount(size: nat): nat { (size + MAX_PAYLOAD - 1) / MAX_PAYLOAD }

  function ChunkEnd(size: nat, i: nat): nat { if (i + 1) * MAX_PAYLOAD < size then (i + 1) * MAX_PAYLOAD else size }

  function Chunk(data: seq<bv8>, i: nat): (c: seq<bv8>)
    requires i < PacketCount(|data|)
    ensures 0 < |c| <= MAX_PAYLOAD
  {
    data[i * MAX_PAYLOAD..ChunkEnd(|data|, i)]
  }

  // The frame's byte at `k`, zero past its end: what a padded chunk holds.
  function Padded(data: seq<bv8>, k: nat): bv8 { if k < |data| then data[k] else 0 }

  // XOR of two unsigned integers, bit by bit from the lowest.
  function Xor(a: nat, b: nat): nat
  {
    if a == 0 then b else if b == 0 then a else (a % 2 + b % 2) % 2 + 2 * Xor(a / 2, b / 2)
  }

  function Low(a: nat): nat { a % 2 }

  function Flip(x: nat, y: nat): nat { if x == y then 0 else 1 }

  lemma FromHalves(low: nat, half: nat)
    requires low < 2
    ensures (low + 2 * half) / 2 == half && Low(low + 2 * half) == low
  {
  }

  lemma LowSum(a: nat, b: nat)
    ensures (a % 2 + b % 2) % 2 == Flip(Low(a), Low(b))
  {
  }

  lemma {:induction false} XorHalves(a: nat, b: nat)
    ensures Xor(a, b) / 2 == Xor(a / 2, b / 2) && Low(Xor(a, b)) == Flip(Low(a), Low(b))
  {
    if a != 0 && b != 0 {
      LowSum(a, b);
      FromHalves(Flip(Low(a), Low(b)), Xor(a / 2, b / 2));
    }
  }

  lemma {:induction false} XorSelf(a: nat)
    ensures Xor(a, a) == 0
  {
    if a != 0 { XorSelf(a / 2); }
  }

  lemma {:induction false} XorCommutes(a: nat, b: nat)
    ensures Xor(a, b) == Xor(b, a)
  {
    if a != 0 && b != 0 { XorCommutes(a / 2, b / 2); }
  }

  lemma SameHalves(a: nat, b: nat)
    requires a / 2 == b / 2 && Low(a) == Low(b)
    ensures a == b
  {
  }

  lemma FlipAssociates(x: nat, y: nat, z: nat)
    requires x < 2 && y < 2 && z < 2
    ensures Flip(Flip(x, y), z) == Flip(x, Flip(y, z))
  {
  }

  lemma LowAssociates(a: nat, b: nat, c: nat)
    ensures Low(Xor(Xor(a, b), c)) == Low(Xor(a, Xor(b, c)))
  {
    XorHalves(a, b);
    XorHalves(b, c);
    XorHalves(Xor(a, b), c);
    XorHalves(a, Xor(b, c));
    FlipAssociates(Low(a), Low(b), Low(c));
  }

  lemma HalfAssociates(a: nat, b: nat, c: nat)
    requires Xor(Xor(a / 2, b / 2), c / 2) == Xor(a / 2, Xor(b / 2, c / 2))
    ensures Xor(Xor(a, b), c) / 2 == Xor(a, Xor(b, c)) / 2
  {
    XorHalves(a, b);
    XorHalves(b, c);
    XorHalves(Xor(a, b), c);
    XorHalves(a, Xor(b, c));
  }

  lemma {:induction false} XorAssociates(a: nat, b: nat, c: nat)
    ensures Xor(Xor(a, b), c) == Xor(a, Xor(b, c))
    decreases a + b + c
  {
    if a + b + c > 0 {
      XorAssociates(a / 2, b / 2, c / 2);
      HalfAssociates(a, b, c);
      LowAssociates(a, b, c);
      SameHalves(Xor(Xor(a, b), c), Xor(a, Xor(b, c)));
    }
  }

  function ChunkSize(data: seq<bv8>, i: nat): nat
    requires i < PacketCount(|data|)
  {
    |Chunk(data, i)|
  }

  // XOR over the chunks lo..hi of a frame, of the padded bytes at one place
  // and of the sizes.
  function XorBytes(data: seq<bv8>, lo: nat, hi: nat, b: nat): bv8
    decreases hi
  {
    if hi <= lo then 0 else XorBytes(data, lo, hi - 1, b) ^ Padded(data, (hi - 1) * MAX_PAYLOAD + b)
  }

  function XorSizes(data: seq<bv8>, lo: nat, hi: nat): nat
    requires hi <= PacketCount(|data|)
    decreases hi
  {
    if hi <= lo then 0 else Xor(XorSizes(data, lo, hi - 1), ChunkSize(data, hi - 1))
  }

  function Parity(data: seq<bv8>, lo: nat, hi: nat): (p: seq<bv8>)
    ensures |p| == MAX_PAYLOAD
  {
    seq(MAX_PAYLOAD, b requires 0 <= b < MAX_PAYLOAD => XorBytes(data, lo, hi, b))
  }

  function DataPacket(f: Frame, i: nat): Packet
    requires i < PacketCount(|f.data|)
  {
    Data(f.id, i % UINT16, PacketCount(|f.data|) % UINT16, Chunk(f.data, i), f.isKeyframe, f.codec)
  }

  function FecPacket(f: Frame, lo: nat, hi: nat): Packet
    requires lo <= hi <= PacketCount(|f.data|)
  {
    Fec(f.id, lo % UINT16, hi - lo, XorSizes(f.data, lo, hi), Parity(f.data, lo, hi))
  }

  // What is sent for chunks i.. when the current group started at `group`: a
  // parity packet closes each full group, and a trailing group of two or more.
  function WireFrom(f: Frame, group: nat, i: nat): (w: seq<Packet>)
    requires group <= i <= PacketCount(|f.data|)
    ensures forall p :: p in w && p.Fec? ==> |p.payload| == MAX_PAYLOAD
    decreases PacketCount(|f.data|) - i
  {
    if i == PacketCount(|f.data|) then if i - group > 1 then [FecPacket(f, group, i)] else []
    else if i + 1 - group == GROUP_SIZE then [DataPacket(f, i), FecPacket(f, group, i + 1)] + WireFrom(f, i + 1, i + 1)
    else [DataPacket(f, i)] + WireFrom(f, group, i + 1)
  }

  function Wire(f: Frame): (w: seq<Packet>)
    ensures forall p :: p in w && p.Fec? ==> |p.payload| == MAX_PAYLOAD
  {
    WireFrom(f, 0, 0)
  }

  // The header carries the true packet count exactly up to this frame size.
  lemma TotalFitsIff(size: nat)
    ensures PacketCount(size) % UINT16 == PacketCount(size) <==> size <= MAX_FRAME
  {
  }

  // ---- the sender ----

  class VideoSender {
    var frameId: nat
    var sent: seq<Packet>

    constructor ()
      ensures frameId == 0 && sent == []
    {
      frameId, sent := 0, [];
    }

    // fragmentAndSend
    method FragmentAndSend(data: seq<bv8>, isKeyframe: bool, codec: nat)
      modifies this
      ensures data == [] ==> sent == old(sent) && frameId == old(frameId)
      ensures data != [] ==> sent == old(sent) + Wire(Frame(old(frameId), data, isKeyframe, codec))
      ensures data != [] ==> frameId == (old(frameId) + 1) % 0x1_0000_0000
    {
      if |data| == 0 { return; }
      var packets := Fragment(Frame(frameId, data, isKeyframe, codec));
      sent := sent + packets;
      frameId := (frameId + 1) % 0x1_0000_0000;
    }
  }

  // The parity accumulator of the current group, XORed in place.
  class ParityGroup {
    const payload: array<bv8>
    var sizeXor: nat
    var start: nat
    var count: nat

    // It covers the chunks group..i of a frame.
    ghost predicate Covers(data: seq<bv8>, group: nat, i: nat)
      reads this, payload
    {
      && group <= i <= PacketCount(|data|)
      && start == group % UINT16 && count == i - group
      && sizeXor == XorSizes(data, group, i) && payload[..] == Parity(data, group, i)
    }

    constructor (ghost data: seq<bv8>)
      ensures Covers(data, 0, 0) && fresh(payload)
    {
      payload := new bv8[MAX_PAYLOAD](_ => 0);
      sizeXor, start, count := 0, 0, 0;
    }

    method Add(chunk: seq<bv8>, ghost data: seq<bv8>, ghost group: nat, ghost i: nat)
      requires Covers(data, group, i) && i < PacketCount(|data|) && chunk == Chunk(data, i)
      modifies this, payload
      ensures Covers(data, group, i + 1)
    {
      AddChunk(payload, chunk, data, group, i);
      sizeXor := Xor(sizeXor, |chunk|);
      count := count + 1;
    }

    method Restart(at: nat, ghost data: seq<bv8>, ghost i: nat)
      requires at == i % UINT16 && i <= PacketCount(|data|) && payload.Length == MAX_PAYLOAD
      modifies this, payload
      ensures Covers(data, i, i)
    {
      Clear(payload);
      sizeXor, start, count := 0, at, 0;
    }

    method Emit(f: Frame, ghost group: nat, ghost i: nat) returns (p: Packet)
      requires Covers(f.data, group, i)
      ensures p == FecPacket(f, group, i)
    {
      p := Fec(f.id, start, count, sizeXor, payload[..]);
    }
  }

  // The loop body: the data packet of chunk `i`, and the parity of its group
  // when that is full.
  method SendChunk(f: Frame, fec: ParityGroup, packetIndex: nat, totalPackets: nat, chunk: seq<bv8>, ghost group: nat, ghost i: nat)
      returns (sent: seq<Packet>, nextIndex: nat, ghost group': nat)
    requires i < PacketCount(|f.data|) && chunk == Chunk(f.data, i)
    requires packetIndex == i % UINT16 && totalPackets == PacketCount(|f.data|) % UINT16
    requires fec.Covers(f.data, group, i) && fec.count < GROUP_SIZE
    modifies fec, fec.payload
    ensures nextIndex == (i + 1) % UINT16
    ensures fec.Covers(f.data, group', i + 1) && fec.count < GROUP_SIZE
    ensures WireFrom(f, group, i) == sent + WireFrom(f, group', i + 1)
  {
    sent, group' := [Data(f.id, packetIndex, totalPackets, chunk, f.isKeyframe, f.codec)], group;
    fec.Add(chunk, f.data, group, i);
    NextIndex(i);
    nextIndex := (packetIndex + 1) % UINT16;
    if fec.count == GROUP_SIZE {
      var parity := fec.Emit(f, group, i + 1);
      sent := sent + [parity];
      fec.Restart(nextIndex, f.data, i + 1);
      group' := i + 1;
    }
  }

  // One turn of the loop: the chunk at the read pointer is cut and sent.
  method SendNext(f: Frame, fec: ParityGroup, readPtr: nat, packetIndex: nat, totalPackets: nat, ghost group: nat, ghost i: nat)
      returns (sent: seq<Packet>, nextPtr: nat, nextIndex: nat, ghost group': nat)
    requires i <= PacketCount(|f.data|) && packetIndex == i % UINT16 && totalPackets == PacketCount(|f.data|) % UINT16
    requires readPtr < |f.data| && readPtr == if i == PacketCount(|f.data|) then |f.data| else i * MAX_PAYLOAD
    requires fec.Covers(f.data, group, i) && fec.count < GROUP_SIZE
    modifies fec, fec.payload
    ensures i < PacketCount(|f.data|) && nextIndex == (i + 1) % UINT16
    ensures nextPtr == if i + 1 == PacketCount(|f.data|) then |f.data| else (i + 1) * MAX_PAYLOAD
    ensures fec.Covers(f.data, group', i + 1) && fec.count < GROUP_SIZE
    ensures WireFrom(f, group, i) == sent + WireFrom(f, group', i + 1)
  {
    var remaining := |f.data| - readPtr;
    var chunkSize := if remaining < MAX_PAYLOAD then remaining else MAX_PAYLOAD;
    ChunkAt(f.data, i, readPtr, chunkSize);
    nextPtr := readPtr + chunkSize;
    sent, nextIndex, group' := SendChunk(f, fec, packetIndex, totalPackets, f.data[readPtr..nextPtr], group, i);
  }

  // The loop over the frame: one data packet per chunk, and the parity of each
  // full group.
  method Fragment(f: Frame) returns (out: seq<Packet>)
    requires f.data != []
    ensures out == Wire(f)
  {
    out := [];
    var readPtr, packetIndex: nat := 0, 0;
    var totalPackets := (|f.data| + MAX_PAYLOAD - 1) / MAX_PAYLOAD % UINT16;
    var fec := new ParityGroup(f.data);
    ghost var i, group: nat := 0, 0;
    while readPtr < |f.data|
      invariant i <= PacketCount(|f.data|) && packetIndex == i % UINT16
      invariant readPtr == if i == PacketCount(|f.data|) then |f.data| else i * MAX_PAYLOAD
      invariant fec.Covers(f.data, group, i) && fec.count < GROUP_SIZE && fresh(fec) && fresh(fec.payload)
      invariant out + WireFrom(f, group, i) == Wire(f)
      decreases PacketCount(|f.data|) - i
    {
      ghost var sofar := out;
      var sent;
      sent, readPtr, packetIndex, group := SendNext(f, fec, readPtr, packetIndex, totalPackets, group, i);
      i := i + 1;
      out := out + sent;
      assert out + WireFrom(f, group, i) == sofar + (sent + WireFrom(f, group, i));
    }
    var tail := CloseGroup(f, fec, group);
    out := out + tail;
  }

  // The parity of what is left in a group of two or more.
  method CloseGroup(f: Frame, fec: ParityGroup, ghost group: nat) returns (tail: seq<Packet>)
    requires fec.Covers(f.data, group, PacketCount(|f.data|))
    ensures tail == WireFrom(f, group, PacketCount(|f.data|))
  {
    tail := [];
    if fec.count > 1 {
      var parity := fec.Emit(f, group, PacketCount(|f.data|));
      tail := [parity];
    }
  }

  lemma NextIndex(i: nat)
    ensures (i % UINT16 + 1) % UINT16 == (i + 1) % UINT16
  {
  }

  method AddChunk(acc: array<bv8>, chunk: seq<bv8>, ghost data: seq<bv8>, ghost group: nat, ghost i: nat)
    requires acc[..] == Parity(data, group, i) && group <= i < PacketCount(|data|) && chunk == Chunk(data, i)
    modifies acc
    ensures acc[..] == Parity(data, group, i + 1)
  {
    ghost var was := acc[..];
    XorInto(acc, chunk);
    ParityMore(data, group, i);
    assert forall b :: 0 <= b < MAX_PAYLOAD ==> was[b] == Parity(data, group, i)[b];
  }

  // fec_payload[i] ^= vp.payload[i] over the chunk.
  method XorInto(acc: array<bv8>, chunk: seq<bv8>)
    requires |chunk| <= acc.Length
    modifies acc
    ensures forall b :: 0 <= b < acc.Length ==> acc[b] == if b < |chunk| then old(acc[b]) ^ chunk[b] else old(acc[b])
  {
    for i := 0 to |chunk|
      invariant forall b :: 0 <= b < acc.Length ==> acc[b] == if b < i then old(acc[b]) ^ chunk[b] else old(acc[b])
    {
      acc[i] := acc[i] ^ chunk[i];
    }
  }

  // memset to zero.
  method Clear(acc: array<bv8>)
    modifies acc
    ensures forall b :: 0 <= b < acc.Length ==> acc[b] == 0
  {
    for i := 0 to acc.Length
      invariant forall b :: 0 <= b < i ==> acc[b] == 0
    {
      acc[i] := 0;
    }
  }

  lemma ChunkAt(data: seq<bv8>, i: nat, at: nat, size: nat)
    requires i <= PacketCount(|data|) && at < |data|
    requires at == if i == PacketCount(|data|) then |data| else i * MAX_PAYLOAD
    requires size == if |data| - at < MAX_PAYLOAD then |data| - at else MAX_PAYLOAD
    ensures i < PacketCount(|data|) && data[at..at + size] == Chunk(data, i) && |Chunk(data, i)| == size
    ensures at + size == if i + 1 == PacketCount(|data|) then |data| else (i + 1) * MAX_PAYLOAD
  {
  }

  lemma ParityMore(data: seq<bv8>, group: nat, i: nat)
    requires group <= i < PacketCount(|data|)
    ensures forall b :: 0 <= b < MAX_PAYLOAD ==>
              Parity(data, group, i + 1)[b] ==
              if b < |Chunk(data, i)| then Parity(data, group, i)[b] ^ Chunk(data, i)[b] else Parity(data, group, i)[b]
  {
    forall b | 0 <= b < MAX_PAYLOAD
      ensures Padded(data, i * MAX_PAYLOAD + b) == if b < |Chunk(data, i)| then Chunk(data, i)[b] else 0
    {}
  }
}
