// The receiving side of one sender's video: reassembly of frames from data
// packets, recovery of one missing packet per parity group, and the hand-over
// of complete frames to the decoder.
module VideoReceiver {
  import opened Options
  import opened VideoPackets

  datatype FecGroup = FecGroup(start: nat, count: nat, sizeXor: nat, payload: seq<bv8>)

  datatype FrameBuffer = FrameBuffer(
    total: nat, received: nat, isKeyframe: bool, codec: nat,
    data: seq<bv8>, mask: seq<bool>, sizes: seq<nat>, actualSize: nat,
    groups: seq<FecGroup>, fecRecovered: bool)

  const NEW_BUFFER := FrameBuffer(0, 0, false, 0, [], [], [], 0, [], false)

  // What became of a complete frame given to the decoder; Withheld is a delta
  // frame that reached completion while a keyframe was awaited.
  datatype Outcome = Decoded | NoPicture | DecodeFailed | NoDecoder

  datatype Completed = Completed(frameId: nat, bytes: seq<bv8>, isKeyframe: bool, codec: nat, withheld: bool, outcome: Outcome)

  // One sender's frames in assembly, the decoder's recovery flag, and the
  // record of every frame that reached the complete branch.
  datatype Stream = Stream(frames: map<nat, FrameBuffer>, awaiting: bool, log: seq<Completed>)

  // Sizes of the vectors and the parity payloads.
  predicate WellFormed(fb: FrameBuffer)
  {
    && |fb.data| == fb.total * MAX_PAYLOAD && |fb.mask| == fb.total && |fb.sizes| == fb.total
    && fb.actualSize <= |fb.data| && (fb.received == 0 ==> fb.actualSize == 0)
    && forall i :: 0 <= i < |fb.groups| ==> |fb.groups[i].payload| == MAX_PAYLOAD
  }

  predicate StreamOk(s: Stream) { forall f :: f in s.frames ==> WellFormed(s.frames[f]) }

  function Max(a: nat, b: nat): nat { if a < b then b else a }

  // vector::resize
  function Resize<T>(s: seq<T>, n: nat, fill: T): (r: seq<T>)
    ensures |r| == n
  {
    if n <= |s| then s[..n] else s + seq(n - |s|, _ => fill)
  }

  // memcpy into the frame data
  function Write(data: seq<bv8>, at: nat, bytes: seq<bv8>): (r: seq<bv8>)
    requires at + |bytes| <= |data|
    ensures |r| == |data|
  {
    data[..at] + bytes + data[at + |bytes|..]
  }

  // ---- data packets ----

  // The first packet of a frame sizes its buffer.
  function Prepared(fb: FrameBuffer, p: Packet): FrameBuffer
    requires p.Data?
  {
    if fb.received != 0 then fb
    else fb.(total := p.total, isKeyframe := p.isKeyframe, codec := p.codec,
             data := Resize(fb.data, p.total * MAX_PAYLOAD, 0), mask := Resize(fb.mask, p.total, false),
             sizes := Resize(fb.sizes, p.total, 0))
  }

  predicate IsNew(fb: FrameBuffer, p: Packet)
    requires p.Data? && WellFormed(fb)
  {
    p.index < fb.total && !fb.mask[p.index] && p.index * MAX_PAYLOAD + |p.payload| <= |fb.data|
  }

  // Packet `i` is stored.
  function Stored(fb: FrameBuffer, i: nat, bytes: seq<bv8>): FrameBuffer
    requires WellFormed(fb) && i < fb.total && i * MAX_PAYLOAD + |bytes| <= |fb.data|
  {
    fb.(data := Write(fb.data, i * MAX_PAYLOAD, bytes), mask := fb.mask[i := true], sizes := fb.sizes[i := |bytes|],
        received := fb.received + 1, actualSize := Max(fb.actualSize, i * MAX_PAYLOAD + |bytes|))
  }

  // ---- parity ----

  function GroupEnd(fb: FrameBuffer, g: FecGroup): nat { if g.start + g.count < fb.total then g.start + g.count else fb.total }

  // The indices lo..hi not received, in order.
  function Missing(mask: seq<bool>, lo: nat, hi: nat): (m: seq<nat>)
    requires hi <= |mask|
    ensures forall i :: i in m <==> lo <= i < hi && !mask[i]
    ensures |m| <= if lo < hi then hi - lo else 0
    decreases hi
  {
    if hi <= lo then [] else Missing(mask, lo, hi - 1) + if mask[hi - 1] then [] else [hi - 1]
  }

  // XOR of the parity with every packet of the group but `skip`.
  function FoldBytes(start: bv8, data: seq<bv8>, lo: nat, hi: nat, skip: nat, b: nat): bv8
    requires hi * MAX_PAYLOAD <= |data| && b < MAX_PAYLOAD
    decreases hi
  {
    if hi <= lo then start
    else
      var x := FoldBytes(start, data, lo, hi - 1, skip, b);
      if hi - 1 == skip then x else x ^ data[(hi - 1) * MAX_PAYLOAD + b]
  }

  function FoldSizes(start: nat, sizes: seq<nat>, lo: nat, hi: nat, skip: nat): nat
    requires hi <= |sizes|
    decreases hi
  {
    if hi <= lo then start
    else
      var x := FoldSizes(start, sizes, lo, hi - 1, skip);
      if hi - 1 == skip then x else Xor(x, sizes[hi - 1])
  }

  function Rebuilt(fb: FrameBuffer, g: FecGroup, skip: nat): (r: seq<bv8>)
    requires WellFormed(fb) && |g.payload| == MAX_PAYLOAD
    ensures |r| == MAX_PAYLOAD
  {
    seq(MAX_PAYLOAD, b requires 0 <= b < MAX_PAYLOAD => FoldBytes(g.payload[b], fb.data, g.start, GroupEnd(fb, g), skip, b))
  }

  // Rebuilds the one missing packet of the group, if exactly one is missing
  // and its size fits.
  function Recovered(fb: FrameBuffer, g: FecGroup): (r: FrameBuffer)
    requires WellFormed(fb) && |g.payload| == MAX_PAYLOAD
    ensures WellFormed(r)
  {
    var missing := Missing(fb.mask, g.start, GroupEnd(fb, g));
    if |missing| != 1 then fb
    else
      assert missing[0] in missing;
      var i := missing[0];
      var size := FoldSizes(g.sizeXor, fb.sizes, g.start, GroupEnd(fb, g), i);
      if size <= MAX_PAYLOAD && i * MAX_PAYLOAD + size <= |fb.data| then Stored(fb, i, Rebuilt(fb, g, i)[..size]) else fb
  }

  // All stored groups in turn; the flag notes that any was used.
  function RecoveredAll(fb: FrameBuffer, groups: seq<FecGroup>): (r: FrameBuffer)
    requires WellFormed(fb) && forall i :: 0 <= i < |groups| ==> |groups[i].payload| == MAX_PAYLOAD
    ensures WellFormed(r)
    decreases |groups|
  {
    if groups == [] then fb
    else
      var r := RecoveredAll(fb, groups[..|groups| - 1]);
      var n := Recovered(r, groups[|groups| - 1]);
      if n.received != r.received then n.(fecRecovered := true) else n
  }

  // ---- complete frames ----

  // Frames below the threshold are abandoned.
  function Evicted(frames: map<nat, FrameBuffer>, frameId: nat): map<nat, FrameBuffer>
  {
    if frameId > 5 then map f | f in frames && f >= frameId - 5 :: frames[f] else frames
  }

  // The complete branch: the frame's bytes go to the decoder unless a keyframe
  // is awaited, and the buffer goes; after a decode, so does every older one.
  function Finished(s: Stream, fb: FrameBuffer, frameId: nat, outcome: Outcome): Stream
    requires fb.actualSize <= |fb.data|
  {
    var withheld := s.awaiting && !fb.isKeyframe;
    var entry := Completed(frameId, fb.data[..fb.actualSize], fb.isKeyframe, fb.codec, withheld, outcome);
    var rest := if !withheld && outcome.Decoded? then map f | f in s.frames && f > frameId :: s.frames[f] else s.frames - {frameId};
    var awaiting :=
      if withheld then true
      else match outcome
        case Decoded => s.awaiting && !fb.isKeyframe
        case NoPicture => s.awaiting || !fb.isKeyframe
        case DecodeFailed => true
        case NoDecoder => s.awaiting;
    Stream(rest, awaiting, s.log + [entry])
  }

  function BufferOf(frames: map<nat, FrameBuffer>, frameId: nat): FrameBuffer
  {
    if frameId in frames then frames[frameId] else NEW_BUFFER
  }

  // What storing a data packet and using the parity already here makes of the
  // frame's buffer; None: the frame is not looked at further.
  function Absorbed(fb: FrameBuffer, p: Packet): (r: (FrameBuffer, bool))
    requires p.Data? && WellFormed(fb)
    ensures WellFormed(r.0)
  {
    var stored := if IsNew(fb, p) then Stored(fb, p.index, p.payload) else fb;
    if !IsNew(fb, p) && stored.received < stored.total then (stored, false)
    else
      var r := if !stored.fecRecovered && stored.received < stored.total && stored.groups != []
               then RecoveredAll(stored, stored.groups) else stored;
      (r, r.received == r.total)
  }

  // processDatagram
  function ReceiveData(s: Stream, p: Packet, outcome: Outcome): (r: Stream)
    requires p.Data? && StreamOk(s)
    ensures StreamOk(r)
  {
    var kept := Evicted(s.frames, p.frameId);
    var fb := Prepared(BufferOf(kept, p.frameId), p);
    if fb.total != p.total then s.(frames := kept - {p.frameId})
    else
      assert WellFormed(fb);
      var (r, complete) := Absorbed(fb, p);
      var next := s.(frames := kept[p.frameId := r]);
      if complete then Finished(next, r, p.frameId, outcome) else next
  }

  // processFecPacket; a completed frame re-enters processDatagram as a
  // duplicate of its first packet (whose payload is not filled in: a duplicate
  // is never copied).
  function ReceiveFec(s: Stream, p: Packet, outcome: Outcome): (r: Stream)
    requires p.Fec? && StreamOk(s) && |p.payload| == MAX_PAYLOAD
    ensures StreamOk(r)
  {
    if p.frameId !in s.frames then s
    else
      var g := FecGroup(p.groupStart, p.groupCount, p.sizeXor, p.payload);
      var fb := s.frames[p.frameId];
      var stored := fb.(groups := fb.groups + [g]);
      var r := if stored.received < stored.total then Recovered(stored, g) else stored;
      var next := s.(frames := s.frames[p.frameId := r]);
      if r.received == r.total then
        ReceiveData(next, Data(p.frameId, 0, r.total, [], r.isKeyframe, r.codec), outcome)
      else next
  }

  function Receive(s: Stream, p: Packet, outcome: Outcome): (r: Stream)
    requires StreamOk(s) && (p.Fec? ==> |p.payload| == MAX_PAYLOAD)
    ensures StreamOk(r)
  {
    if p.Data? then ReceiveData(s, p, outcome) else ReceiveFec(s, p, outcome)
  }

  // ---- the object ----

  class StreamReceiver {
    var frames: map<nat, FrameBuffer>
    var awaiting: bool
    var log: seq<Completed>

    ghost function State(): Stream
      reads this
    {
      Stream(frames, awaiting, log)
    }

    constructor ()
      ensures State() == Stream(map[], false, [])
    {
      frames, awaiting, log := map[], false, [];
    }

    method ProcessDatagram(p: Packet, outcome: Outcome)
      requires p.Data? && StreamOk(State())
      modifies this
      ensures State() == ReceiveData(old(State()), p, outcome)
    {
      EvictStale(p.frameId);
      var fb := Prepared(BufferOf(frames, p.frameId), p);
      if fb.total != p.total {
        frames := frames - {p.frameId};
        return;
      }
      assert WellFormed(fb);
      var complete;
      fb, complete := Absorb(fb, p);
      frames := frames[p.frameId := fb];
      if complete { Finish(fb, p.frameId, outcome); }
    }

    // Erases every buffer below the threshold.
    method EvictStale(frameId: nat)
      modifies `frames
      ensures frames == Evicted(old(frames), frameId)
    {
      if frameId > 5 {
        var todo := frames.Keys;
        while todo != {}
          invariant frames == map f | f in old(frames) && (f >= frameId - 5 || f in todo) :: old(frames)[f]
        {
          var f :| f in todo;
          if f < frameId - 5 { frames := frames - {f}; }
          todo := todo - {f};
        }
      }
    }

    // The complete branch.
    method Finish(fb: FrameBuffer, frameId: nat, outcome: Outcome)
      requires fb.actualSize <= |fb.data|
      modifies this
      ensures State() == Finished(old(State()), fb, frameId, outcome)
    {
      var withheld := awaiting && !fb.isKeyframe;
      log := log + [Completed(frameId, fb.data[..fb.actualSize], fb.isKeyframe, fb.codec, withheld, outcome)];
      if withheld {
        frames := frames - {frameId};
        return;
      }
      match outcome {
        case NoDecoder => frames := frames - {frameId};
        case DecodeFailed =>
          awaiting := true;
          frames := frames - {frameId};
        case NoPicture =>
          if !fb.isKeyframe { awaiting := true; }
          frames := frames - {frameId};
        case Decoded =>
          if fb.isKeyframe { awaiting := false; }
          frames := map f | f in frames && f > frameId :: frames[f];
      }
    }

    method ProcessFecPacket(p: Packet, outcome: Outcome)
      requires p.Fec? && StreamOk(State()) && |p.payload| == MAX_PAYLOAD
      modifies this
      ensures State() == ReceiveFec(old(State()), p, outcome)
    {
      if p.frameId !in frames { return; }
      var g := FecGroup(p.groupStart, p.groupCount, p.sizeXor, p.payload);
      var fb := frames[p.frameId];
      fb := fb.(groups := fb.groups + [g]);
      if fb.received < fb.total { fb := Recover(fb, g); }
      frames := frames[p.frameId := fb];
      if fb.received == fb.total {
        ProcessDatagram(Data(p.frameId, 0, fb.total, [], fb.isKeyframe, fb.codec), outcome);
      }
    }
  }

  // Stores the packet if it is new, and then tries the stored parities.
  method Absorb(was: FrameBuffer, p: Packet) returns (fb: FrameBuffer, complete: bool)
    requires p.Data? && WellFormed(was)
    ensures (fb, complete) == Absorbed(was, p)
  {
    fb := was;
    var isNew := false;
    if p.index < fb.total && !fb.mask[p.index] {
      var offset := p.index * MAX_PAYLOAD;
      if offset + |p.payload| <= |fb.data| {
        fb := Stored(fb, p.index, p.payload);
        isNew := true;
      }
    }
    if !isNew && fb.received < fb.total { return fb, false; }
    if !fb.fecRecovered && fb.received < fb.total && fb.groups != [] {
      fb := RecoverAll(fb);
    }
    complete := fb.received == fb.total;
  }

  // The recovery pass over the stored groups.
  method RecoverAll(fb: FrameBuffer) returns (r: FrameBuffer)
    requires WellFormed(fb)
    ensures r == RecoveredAll(fb, fb.groups)
  {
    r := fb;
    for k := 0 to |fb.groups|
      invariant WellFormed(r) && r == RecoveredAll(fb, fb.groups[..k])
    {
      assert fb.groups[..k + 1][..k] == fb.groups[..k];
      var n := Recover(r, fb.groups[k]);
      if n.received != r.received { n := n.(fecRecovered := true); }
      r := n;
    }
    assert fb.groups[..|fb.groups|] == fb.groups;
  }

  // How many packets are missing, and one of them.
  method CountMissing(mask: seq<bool>, start: nat, end: nat) returns (missingCount: nat, missingIdx: nat)
    requires end <= |mask|
    ensures missingCount == |Missing(mask, start, end)|
    ensures missingCount > 0 ==> missingIdx in Missing(mask, start, end)
  {
    missingCount, missingIdx := 0, 0;
    var i := start;
    while i < end
      invariant i <= end || i == start
      invariant missingCount == |Missing(mask, start, if i <= end then i else end)|
      invariant missingCount > 0 ==> missingIdx in Missing(mask, start, if i <= end then i else end)
    {
      if !mask[i] { missingCount, missingIdx := missingCount + 1, i; }
      i := i + 1;
    }
  }

  // Counts the missing packets of one group and, if it is one, XORs the rest
  // out of the parity, in place.
  method Recover(fb: FrameBuffer, g: FecGroup) returns (r: FrameBuffer)
    requires WellFormed(fb) && |g.payload| == MAX_PAYLOAD
    ensures r == Recovered(fb, g)
  {
    var end := if g.start + g.count < fb.total then g.start + g.count else fb.total;
    var missingCount, missingIdx := CountMissing(fb.mask, g.start, end);
    if missingCount != 1 { return fb; }
    var recovered := new bv8[MAX_PAYLOAD](b requires 0 <= b < MAX_PAYLOAD => g.payload[b]);
    var size := XorGroup(recovered, fb, g, end, missingIdx);
    var offset := missingIdx * MAX_PAYLOAD;
    if size <= MAX_PAYLOAD && offset + size <= |fb.data| {
      assert recovered[..] == Rebuilt(fb, g, missingIdx);
      return Stored(fb, missingIdx, recovered[..size]);
    }
    r := fb;
  }

  method XorGroup(recovered: array<bv8>, fb: FrameBuffer, g: FecGroup, end: nat, skip: nat) returns (size: nat)
    requires WellFormed(fb) && |g.payload| == MAX_PAYLOAD && end == GroupEnd(fb, g) && g.start < end
    requires recovered.Length == MAX_PAYLOAD && forall b :: 0 <= b < MAX_PAYLOAD ==> recovered[b] == g.payload[b]
    modifies recovered
    ensures forall b :: 0 <= b < MAX_PAYLOAD ==> recovered[b] == FoldBytes(g.payload[b], fb.data, g.start, end, skip, b)
    ensures size == FoldSizes(g.sizeXor, fb.sizes, g.start, end, skip)
  {
    size := g.sizeXor;
    for i := g.start to end
      invariant forall b :: 0 <= b < MAX_PAYLOAD ==> recovered[b] == FoldBytes(g.payload[b], fb.data, g.start, i, skip, b)
      invariant size == FoldSizes(g.sizeXor, fb.sizes, g.start, i, skip)
    {
      if i != skip {
        XorInto(recovered, fb.data[i * MAX_PAYLOAD..(i + 1) * MAX_PAYLOAD]);
        size := Xor(size, fb.sizes[i]);
      }
    }
  }
}
