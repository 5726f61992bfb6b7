// Whole deliveries of honestly sent packets: whatever is lost, reordered or
// duplicated, a frame that completes is the frame that was sent.
module VideoRuns {
  import opened Options
  import opened VideoPackets
  import opened VideoReceiver

  function Count(mask: seq<bool>): nat
  {
    if mask == [] then 0 else Count(mask[..|mask| - 1]) + if mask[|mask| - 1] then 1 else 0
  }

  ghost predicate IsParity(f: Frame, g: FecGroup)
  {
    && g.start + g.count <= PacketCount(|f.data|) && |g.payload| == MAX_PAYLOAD
    && g.sizeXor == XorSizes(f.data, g.start, g.start + g.count)
    && g.payload == Parity(f.data, g.start, g.start + g.count)
  }

  // A packet the sender of `f` sends.
  ghost predicate Honest(p: Packet, f: Frame)
  {
    && 0 < |f.data| <= MAX_FRAME && p.frameId == f.id
    && if p.Data? then p.index < PacketCount(|f.data|) && p == DataPacket(f, p.index)
       else IsParity(f, FecGroup(p.groupStart, p.groupCount, p.sizeXor, p.payload))
  }

  lemma DataIsHonest(f: Frame, i: nat)
    requires 0 < |f.data| <= MAX_FRAME && i < PacketCount(|f.data|)
    ensures Honest(DataPacket(f, i), f)
  {
  }

  lemma FecIsHonest(f: Frame, group: nat, i: nat)
    requires 0 < |f.data| <= MAX_FRAME && group <= i <= PacketCount(|f.data|)
    ensures Honest(FecPacket(f, group, i), f)
  {
    assert group % UINT16 == group;
  }

  lemma {:induction false} WireIsHonest(f: Frame, group: nat, i: nat)
    requires 0 < |f.data| <= MAX_FRAME && group <= i <= PacketCount(|f.data|)
    ensures forall p :: p in WireFrom(f, group, i) ==> Honest(p, f)
    decreases PacketCount(|f.data|) - i
  {
    if i < PacketCount(|f.data|) {
      DataIsHonest(f, i);
      if i + 1 - group == GROUP_SIZE {
        FecIsHonest(f, group, i + 1);
        WireIsHonest(f, i + 1, i + 1);
      } else {
        WireIsHonest(f, group, i + 1);
      }
    } else {
      FecIsHonest(f, group, i);
    }
  }

  // A buffer holding part of `f`: received places hold the frame's bytes (zero
  // past its end), the others are zero, and every stored parity is the frame's.
  ghost predicate Holds(fb: FrameBuffer, f: Frame)
  {
    var n := PacketCount(|f.data|);
    && WellFormed(fb) && 0 < |f.data| && fb.total == n && fb.isKeyframe == f.isKeyframe && fb.codec == f.codec
    && (forall k :: 0 <= k < |fb.data| ==> fb.data[k] == if fb.mask[k / MAX_PAYLOAD] then Padded(f.data, k) else 0)
    && (forall i :: 0 <= i < n && fb.mask[i] ==> fb.sizes[i] == ChunkSize(f.data, i))
    && fb.received == Count(fb.mask)
    && fb.actualSize <= |f.data| && (fb.mask[n - 1] ==> fb.actualSize == |f.data|)
    && (forall i :: 0 <= i < |fb.groups| ==> IsParity(f, fb.groups[i]))
  }

  // ---- counting ----

  lemma {:induction false} CountSet(mask: seq<bool>, i: nat)
    requires i < |mask| && !mask[i]
    ensures Count(mask[i := true]) == Count(mask) + 1
  {
    var n := |mask| - 1;
    if i == n {
      assert mask[i := true][..n] == mask[..n];
    } else {
      assert mask[i := true][..n] == mask[..n][i := true];
      CountSet(mask[..n], i);
    }
  }

  lemma {:induction false} CountAll(mask: seq<bool>)
    ensures Count(mask) <= |mask|
    ensures Count(mask) == |mask| <==> forall i :: 0 <= i < |mask| ==> mask[i]
  {
    if mask != [] {
      var n := |mask| - 1;
      CountAll(mask[..n]);
      assert forall i :: 0 <= i < n ==> mask[..n][i] == mask[i];
    }
  }

  lemma {:induction false} CountSome(mask: seq<bool>, i: nat)
    requires i < |mask| && mask[i]
    ensures Count(mask) > 0
  {
    var n := |mask| - 1;
    if i < n { CountSome(mask[..n], i); }
  }

  // ---- one packet ----

  lemma StoreKeeps(fb: FrameBuffer, f: Frame, i: nat)
    requires Holds(fb, f) && i < fb.total && !fb.mask[i]
    ensures i * MAX_PAYLOAD + |Chunk(f.data, i)| <= |fb.data|
    ensures Holds(Stored(fb, i, Chunk(f.data, i)), f)
  {
    var c := Chunk(f.data, i);
    var s := Stored(fb, i, c);
    CountSet(fb.mask, i);
    forall k | 0 <= k < |s.data| ensures s.data[k] == if s.mask[k / MAX_PAYLOAD] then Padded(f.data, k) else 0 {
      if i * MAX_PAYLOAD <= k < i * MAX_PAYLOAD + |c| {
        assert s.data[k] == c[k - i * MAX_PAYLOAD];
      } else {
        assert s.data[k] == fb.data[k];
      }
    }
  }

  ghost predicate SlotIs(data: seq<bv8>, sent: seq<bv8>, i: nat, b: nat)
  {
    b < MAX_PAYLOAD && (i + 1) * MAX_PAYLOAD <= |data| && data[i * MAX_PAYLOAD + b] == Padded(sent, i * MAX_PAYLOAD + b)
  }

  // XOR of the padded bytes at one place over the chunks lo..hi but `skip`.
  function OtherBytes(sent: seq<bv8>, lo: nat, hi: nat, skip: nat, b: nat): bv8
    decreases hi
  {
    if hi <= lo then 0
    else if hi - 1 == skip then OtherBytes(sent, lo, hi - 1, skip, b)
    else OtherBytes(sent, lo, hi - 1, skip, b) ^ Padded(sent, (hi - 1) * MAX_PAYLOAD + b)
  }

  // Recovery XORs just the other packets into the parity.
  lemma {:induction false} FoldIsOthers(data: seq<bv8>, sent: seq<bv8>, start: bv8, lo: nat, hi: nat, skip: nat, b: nat)
    requires hi * MAX_PAYLOAD <= |data| && b < MAX_PAYLOAD
    requires forall i :: lo <= i < hi && i != skip ==> SlotIs(data, sent, i, b)
    ensures FoldBytes(start, data, lo, hi, skip, b) == start ^ OtherBytes(sent, lo, hi, skip, b)
    decreases hi
  {
    if lo < hi {
      FoldIsOthers(data, sent, start, lo, hi - 1, skip, b);
      assert hi - 1 != skip ==> SlotIs(data, sent, hi - 1, b);
    }
  }

  lemma ByteMore(others: bv8, missing: bv8, p: bv8)
    ensures (others ^ missing) ^ p == (others ^ p) ^ missing
  {
  }

  // The parity is the other packets with the missing one.
  lemma {:induction false} ParityIsOthers(sent: seq<bv8>, lo: nat, hi: nat, skip: nat, b: nat)
    requires lo <= skip < hi
    ensures XorBytes(sent, lo, hi, b) == OtherBytes(sent, lo, hi, skip, b) ^ Padded(sent, skip * MAX_PAYLOAD + b)
    decreases hi
  {
    if hi - 1 == skip {
      NothingSkipped(sent, lo, skip, skip, b);
    } else {
      ParityIsOthers(sent, lo, hi - 1, skip, b);
      ByteMore(OtherBytes(sent, lo, hi - 1, skip, b), Padded(sent, skip * MAX_PAYLOAD + b), Padded(sent, (hi - 1) * MAX_PAYLOAD + b));
    }
  }

  lemma {:induction false} NothingSkipped(sent: seq<bv8>, lo: nat, hi: nat, skip: nat, b: nat)
    requires hi <= skip
    ensures OtherBytes(sent, lo, hi, skip, b) == XorBytes(sent, lo, hi, b)
    decreases hi
  {
    if lo < hi { NothingSkipped(sent, lo, hi - 1, skip, b); }
  }

  lemma ByteLeft(others: bv8, missing: bv8)
    ensures (others ^ missing) ^ others == missing
  {
  }

  lemma SlotsHeld(fb: FrameBuffer, f: Frame, i: nat, b: nat)
    requires Holds(fb, f) && i < fb.total && fb.mask[i] && b < MAX_PAYLOAD
    ensures SlotIs(fb.data, f.data, i, b)
  {
    assert (i * MAX_PAYLOAD + b) / MAX_PAYLOAD == i;
  }

  lemma XorTwice(x: nat, s: nat)
    ensures Xor(Xor(x, s), s) == x && Xor(x, Xor(x, s)) == s
  {
    XorAssociates(x, s, s);
    XorSelf(s);
    XorAssociates(x, x, s);
    XorSelf(x);
  }

  // XOR of the sizes of the chunks lo..hi but `skip`.
  function OtherSizes(sent: seq<bv8>, lo: nat, hi: nat, skip: nat): nat
    requires hi <= PacketCount(|sent|)
    decreases hi
  {
    if hi <= lo then 0
    else if hi - 1 == skip then OtherSizes(sent, lo, hi - 1, skip)
    else Xor(OtherSizes(sent, lo, hi - 1, skip), ChunkSize(sent, hi - 1))
  }

  lemma {:induction false} FoldIsOtherSizes(sizes: seq<nat>, sent: seq<bv8>, start: nat, lo: nat, hi: nat, skip: nat)
    requires hi <= |sizes| && hi <= PacketCount(|sent|)
    requires forall i :: lo <= i < hi && i != skip ==> sizes[i] == ChunkSize(sent, i)
    ensures FoldSizes(start, sizes, lo, hi, skip) == Xor(start, OtherSizes(sent, lo, hi, skip))
    decreases hi
  {
    if lo < hi {
      FoldIsOtherSizes(sizes, sent, start, lo, hi - 1, skip);
      XorAssociates(start, OtherSizes(sent, lo, hi - 1, skip), ChunkSize(sent, hi - 1));
    } else {
      XorCommutes(start, 0);
    }
  }

  lemma SizeMore(others: nat, missing: nat, s: nat)
    ensures Xor(Xor(others, missing), s) == Xor(Xor(others, s), missing)
  {
    XorAssociates(others, missing, s);
    XorCommutes(missing, s);
    XorAssociates(others, s, missing);
  }

  lemma {:induction false} SizesAreOthers(sent: seq<bv8>, lo: nat, hi: nat, skip: nat)
    requires lo <= skip < hi <= PacketCount(|sent|)
    ensures XorSizes(sent, lo, hi) == Xor(OtherSizes(sent, lo, hi, skip), ChunkSize(sent, skip))
    decreases hi
  {
    if hi == skip + 1 {
      SizesStart(sent, lo, skip);
    } else {
      SizesAreOthers(sent, lo, hi - 1, skip);
      SizesStep(sent, lo, hi, skip);
    }
  }

  lemma SizesStart(sent: seq<bv8>, lo: nat, skip: nat)
    requires lo <= skip < PacketCount(|sent|)
    ensures XorSizes(sent, lo, skip + 1) == Xor(OtherSizes(sent, lo, skip + 1, skip), ChunkSize(sent, skip))
  {
    NoSizeSkipped(sent, lo, skip, skip);
    assert OtherSizes(sent, lo, skip + 1, skip) == OtherSizes(sent, lo, skip, skip);
  }

  lemma {:induction false} NoSizeSkipped(sent: seq<bv8>, lo: nat, hi: nat, skip: nat)
    requires hi <= skip && hi <= PacketCount(|sent|)
    ensures OtherSizes(sent, lo, hi, skip) == XorSizes(sent, lo, hi)
    decreases hi
  {
    if lo < hi { NoSizeSkipped(sent, lo, hi - 1, skip); }
  }

  lemma SizeLeft(others: nat, missing: nat)
    ensures Xor(Xor(others, missing), others) == missing
  {
    XorCommutes(others, missing);
    XorTwice(missing, others);
  }

  lemma SizesStep(sent: seq<bv8>, lo: nat, hi: nat, skip: nat)
    requires lo <= skip < hi - 1 && hi <= PacketCount(|sent|)
    requires XorSizes(sent, lo, hi - 1) == Xor(OtherSizes(sent, lo, hi - 1, skip), ChunkSize(sent, skip))
    ensures XorSizes(sent, lo, hi) == Xor(OtherSizes(sent, lo, hi, skip), ChunkSize(sent, skip))
  {
    SizeMore(OtherSizes(sent, lo, hi - 1, skip), ChunkSize(sent, skip), ChunkSize(sent, hi - 1));
  }

  // The sizes XOR down to the missing packet's.
  lemma RebuiltSize(sizes: seq<nat>, f: Frame, g: FecGroup, i: nat)
    requires IsParity(f, g) && g.start <= i < g.start + g.count <= |sizes|
    requires forall j :: g.start <= j < g.start + g.count && j != i ==> sizes[j] == ChunkSize(f.data, j)
    ensures FoldSizes(g.sizeXor, sizes, g.start, g.start + g.count, i) == ChunkSize(f.data, i)
  {
    var hi := g.start + g.count;
    FoldIsOtherSizes(sizes, f.data, g.sizeXor, g.start, hi, i);
    SizesAreOthers(f.data, g.start, hi, i);
    SizeLeft(OtherSizes(f.data, g.start, hi, i), ChunkSize(f.data, i));
  }

  lemma ParityByte(f: Frame, g: FecGroup, b: nat)
    requires IsParity(f, g) && b < MAX_PAYLOAD
    ensures g.payload[b] == XorBytes(f.data, g.start, g.start + g.count, b)
  {
  }

  // The bytes XOR down to the missing packet's, padded.
  lemma RebuiltByte(fb: FrameBuffer, f: Frame, g: FecGroup, i: nat, b: nat)
    requires Holds(fb, f) && IsParity(f, g) && g.start <= i < g.start + g.count && b < MAX_PAYLOAD
    requires forall j :: g.start <= j < g.start + g.count && j != i ==> fb.mask[j]
    ensures FoldBytes(g.payload[b], fb.data, g.start, g.start + g.count, i, b) == Padded(f.data, i * MAX_PAYLOAD + b)
  {
    forall j | g.start <= j < g.start + g.count && j != i ensures SlotIs(fb.data, f.data, j, b) { SlotsHeld(fb, f, j, b); }
    ParityByte(f, g, b);
    FoldedByte(fb.data, f.data, g.payload[b], g.start, g.start + g.count, i, b);
  }

  // XORed into the parity's byte, the others leave the missing one's.
  lemma FoldedByte(data: seq<bv8>, sent: seq<bv8>, start: bv8, lo: nat, hi: nat, i: nat, b: nat)
    requires hi * MAX_PAYLOAD <= |data| && b < MAX_PAYLOAD && lo <= i < hi && start == XorBytes(sent, lo, hi, b)
    requires forall j :: lo <= j < hi && j != i ==> SlotIs(data, sent, j, b)
    ensures FoldBytes(start, data, lo, hi, i, b) == Padded(sent, i * MAX_PAYLOAD + b)
  {
    FoldIsOthers(data, sent, start, lo, hi, i, b);
    ParityIsOthers(sent, lo, hi, i, b);
    ByteLeft(OtherBytes(sent, lo, hi, i, b), Padded(sent, i * MAX_PAYLOAD + b));
  }

  lemma RebuiltAt(fb: FrameBuffer, f: Frame, g: FecGroup, i: nat, b: nat)
    requires Holds(fb, f) && IsParity(f, g) && g.start <= i < g.start + g.count && b < MAX_PAYLOAD
    requires forall j :: g.start <= j < g.start + g.count && j != i ==> fb.mask[j]
    ensures Rebuilt(fb, g, i)[b] == Padded(f.data, i * MAX_PAYLOAD + b)
  {
    RebuiltByte(fb, f, g, i, b);
    assert GroupEnd(fb, g) == g.start + g.count;
  }

  lemma ChunkByte(data: seq<bv8>, i: nat, b: nat)
    requires i < PacketCount(|data|) && b < ChunkSize(data, i)
    ensures Chunk(data, i)[b] == Padded(data, i * MAX_PAYLOAD + b)
  {
  }

  lemma RebuiltIsChunk(fb: FrameBuffer, f: Frame, g: FecGroup, i: nat)
    requires Holds(fb, f) && IsParity(f, g) && g.start <= i < g.start + g.count
    requires forall j :: g.start <= j < g.start + g.count && j != i ==> fb.mask[j]
    ensures Rebuilt(fb, g, i)[..ChunkSize(f.data, i)] == Chunk(f.data, i)
  {
    var r, c := Rebuilt(fb, g, i), Chunk(f.data, i);
    forall b | 0 <= b < |c| ensures r[b] == c[b] {
      RebuiltAt(fb, f, g, i, b);
      ChunkByte(f.data, i, b);
    }
  }

  // One element, and it is this.
  predicate Just<T(==)>(s: seq<T>, x: T) { |s| == 1 && s[0] == x }

  lemma RecoveredOne(fb: FrameBuffer, g: FecGroup, hi: nat, m: nat, size: nat, chunk: seq<bv8>)
    requires WellFormed(fb) && |g.payload| == MAX_PAYLOAD && hi == GroupEnd(fb, g) && Just(Missing(fb.mask, g.start, hi), m) && m < fb.total
    requires size == FoldSizes(g.sizeXor, fb.sizes, g.start, hi, m)
    requires size <= MAX_PAYLOAD && m * MAX_PAYLOAD + size <= |fb.data| && chunk == Rebuilt(fb, g, m)[..size]
    ensures Recovered(fb, g) == Stored(fb, m, chunk)
  {
  }

  lemma WholeGroup(fb: FrameBuffer, f: Frame, g: FecGroup)
    requires fb.total == PacketCount(|f.data|) && IsParity(f, g)
    ensures GroupEnd(fb, g) == g.start + g.count <= fb.total
  {
  }

  lemma TheMissing(mask: seq<bool>, lo: nat, hi: nat, m: nat)
    requires hi <= |mask| && Just(Missing(mask, lo, hi), m)
    ensures lo <= m < hi && !mask[m] && forall i :: lo <= i < hi && i != m ==> mask[i]
  {
    assert Missing(mask, lo, hi)[0] in Missing(mask, lo, hi);
    OnlyMissing(mask, lo, hi);
  }

  // With exactly one packet of the group missing, it is rebuilt as sent.
  lemma RecoverOne(fb: FrameBuffer, f: Frame, g: FecGroup, m: nat)
    requires Holds(fb, f) && IsParity(f, g) && Just(Missing(fb.mask, g.start, g.start + g.count), m)
    ensures m < fb.total && !fb.mask[m] && m * MAX_PAYLOAD + ChunkSize(f.data, m) <= |fb.data|
    ensures Recovered(fb, g) == Stored(fb, m, Chunk(f.data, m))
  {
    WholeGroup(fb, f, g);
    TheMissing(fb.mask, g.start, g.start + g.count, m);
    HeldSizes(fb, f, g.start, g.start + g.count, m);
    RebuiltSize(fb.sizes, f, g, m);
    RebuiltIsChunk(fb, f, g, m);
    ChunkFits(f, m);
    RecoveredOne(fb, g, g.start + g.count, m, ChunkSize(f.data, m), Chunk(f.data, m));
  }

  lemma HeldSizes(fb: FrameBuffer, f: Frame, lo: nat, hi: nat, m: nat)
    requires Holds(fb, f) && hi <= fb.total && forall i :: lo <= i < hi && i != m ==> fb.mask[i]
    ensures forall i :: lo <= i < hi && i != m ==> fb.sizes[i] == ChunkSize(f.data, i)
  {
  }

  lemma ChunkFits(f: Frame, m: nat)
    requires m < PacketCount(|f.data|)
    ensures m * MAX_PAYLOAD + ChunkSize(f.data, m) <= PacketCount(|f.data|) * MAX_PAYLOAD && ChunkSize(f.data, m) <= MAX_PAYLOAD
  {
  }

  lemma RecoverNone(fb: FrameBuffer, f: Frame, g: FecGroup)
    requires WellFormed(fb) && fb.total == PacketCount(|f.data|) && IsParity(f, g)
    requires |Missing(fb.mask, g.start, g.start + g.count)| != 1
    ensures Recovered(fb, g) == fb
  {
    WholeGroup(fb, f, g);
  }

  // A recovery rebuilds just the one missing packet, or changes nothing.
  lemma RecoverKeeps(fb: FrameBuffer, f: Frame, g: FecGroup)
    requires Holds(fb, f) && IsParity(f, g)
    ensures Holds(Recovered(fb, g), f)
    ensures var missing := Missing(fb.mask, g.start, g.start + g.count);
            if |missing| == 1
            then missing[0] in missing && missing[0] * MAX_PAYLOAD + ChunkSize(f.data, missing[0]) <= |fb.data|
                 && Recovered(fb, g) == Stored(fb, missing[0], Chunk(f.data, missing[0]))
            else Recovered(fb, g) == fb
  {
    var missing := Missing(fb.mask, g.start, g.start + g.count);
    if |missing| == 1 {
      RecoverOne(fb, f, g, missing[0]);
      StoreKeeps(fb, f, missing[0]);
    } else {
      RecoverNone(fb, f, g);
    }
  }

  lemma OnlyMissing(mask: seq<bool>, lo: nat, hi: nat)
    requires hi <= |mask| && |Missing(mask, lo, hi)| == 1
    ensures forall i :: lo <= i < hi && i != Missing(mask, lo, hi)[0] ==> mask[i]
  {
    forall i | lo <= i < hi && !mask[i] ensures i == Missing(mask, lo, hi)[0] {
      assert i in Missing(mask, lo, hi);
    }
  }

  lemma {:induction false} RecoverAllKeeps(fb: FrameBuffer, f: Frame, groups: seq<FecGroup>)
    requires Holds(fb, f) && forall i :: 0 <= i < |groups| ==> IsParity(f, groups[i]) && |groups[i].payload| == MAX_PAYLOAD
    ensures Holds(RecoveredAll(fb, groups), f)
    ensures RecoveredAll(fb, groups).received >= fb.received
    decreases |groups|
  {
    if groups != [] {
      var n := |groups| - 1;
      RecoverAllKeeps(fb, f, groups[..n]);
      RecoverKeeps(RecoveredAll(fb, groups[..n]), f, groups[n]);
    }
  }

  // ---- soundness over any delivery ----

  // Each frame id stands for one frame sent.
  ghost predicate Sent(frames: map<nat, Frame>) { forall id :: id in frames ==> frames[id].id == id && 0 < |frames[id].data| <= MAX_FRAME }

  ghost predicate EntrySound(e: Completed, h: map<nat, Frame>)
  {
    e.frameId in h && e.bytes == h[e.frameId].data && e.isKeyframe == h[e.frameId].isKeyframe && e.codec == h[e.frameId].codec
  }

  ghost predicate Sound(s: Stream, h: map<nat, Frame>)
  {
    && (forall id :: id in s.frames ==> id in h && Holds(s.frames[id], h[id]) && s.frames[id].received > 0)
    && (forall i :: 0 <= i < |s.log| ==> EntrySound(s.log[i], h))
  }

  // A complete buffer's first actual_size bytes are the frame.
  lemma CompleteIsFrame(fb: FrameBuffer, f: Frame)
    requires Holds(fb, f) && fb.received == fb.total
    ensures fb.data[..fb.actualSize] == f.data
  {
    CountAll(fb.mask);
    forall k | 0 <= k < |f.data| ensures fb.data[k] == f.data[k] {
      assert fb.mask[k / MAX_PAYLOAD];
    }
  }

  // The first packet's empty buffer already holds (nothing of) the frame.
  lemma PreparedHolds(f: Frame, p: Packet)
    requires p.Data? && Honest(p, f)
    ensures Holds(Prepared(NEW_BUFFER, p), f)
  {
    var fb := Prepared(NEW_BUFFER, p);
    CountNone(fb.mask);
  }

  lemma {:induction false} CountNone(mask: seq<bool>)
    requires forall i :: 0 <= i < |mask| ==> !mask[i]
    ensures Count(mask) == 0
  {
    if mask != [] { CountNone(mask[..|mask| - 1]); }
  }

  lemma AbsorbKeeps(fb: FrameBuffer, f: Frame, p: Packet)
    requires Holds(fb, f) && p.Data? && p.index < fb.total
    requires fb.mask[p.index] || Honest(p, f)
    ensures Holds(Absorbed(fb, p).0, f) && Absorbed(fb, p).0.received > 0
    ensures Absorbed(fb, p).1 ==> Absorbed(fb, p).0.received == Absorbed(fb, p).0.total
  {
    if fb.mask[p.index] {
      CountSome(fb.mask, p.index);
    } else {
      StoreKeeps(fb, f, p.index);
    }
    var stored := if IsNew(fb, p) then Stored(fb, p.index, p.payload) else fb;
    RecoverAllKeeps(stored, f, stored.groups);
  }

  lemma FinishedSound(s: Stream, h: map<nat, Frame>, fb: FrameBuffer, id: nat, outcome: Outcome)
    requires Sound(s, h) && id in h && Holds(fb, h[id]) && fb.received == fb.total
    ensures Sound(Finished(s, fb, id, outcome), h)
  {
    CompleteIsFrame(fb, h[id]);
  }

  lemma SoundUpdate(s: Stream, h: map<nat, Frame>, kept: map<nat, FrameBuffer>, id: nat, fb: FrameBuffer)
    requires Sound(s, h) && id in h && Holds(fb, h[id]) && fb.received > 0
    requires forall i :: i in kept ==> i in s.frames && kept[i] == s.frames[i]
    ensures Sound(s.(frames := kept[id := fb]), h)
  {
  }

  lemma ReceiveDataSound(s: Stream, h: map<nat, Frame>, p: Packet, outcome: Outcome)
    requires Sound(s, h) && StreamOk(s) && p.Data? && p.frameId in h && Sent(h)
    requires Honest(p, h[p.frameId]) || (p.frameId in s.frames && p.total == s.frames[p.frameId].total
          && p.index < p.total && s.frames[p.frameId].mask[p.index])
    ensures Sound(ReceiveData(s, p, outcome), h)
  {
    var f := h[p.frameId];
    var kept := Evicted(s.frames, p.frameId);
    if p.frameId !in kept { PreparedHolds(f, p); }
    var fb := Prepared(BufferOf(kept, p.frameId), p);
    assert Holds(fb, f);
    if fb.total == p.total {
      AbsorbKeeps(fb, f, p);
      var (r, complete) := Absorbed(fb, p);
      SoundUpdate(s, h, kept, p.frameId, r);
      if complete { FinishedSound(s.(frames := kept[p.frameId := r]), h, r, p.frameId, outcome); }
    }
  }

  lemma ReceiveFecSound(s: Stream, h: map<nat, Frame>, p: Packet, outcome: Outcome)
    requires Sound(s, h) && StreamOk(s) && p.Fec? && p.frameId in h && Sent(h) && Honest(p, h[p.frameId])
    ensures Sound(ReceiveFec(s, p, outcome), h)
  {
    if p.frameId in s.frames {
      var g := FecGroup(p.groupStart, p.groupCount, p.sizeXor, p.payload);
      var stored := s.frames[p.frameId].(groups := s.frames[p.frameId].groups + [g]);
      var r := if stored.received < stored.total then Recovered(stored, g) else stored;
      ParityStored(s.frames[p.frameId], h[p.frameId], g);
      SoundUpdate(s, h, s.frames, p.frameId, r);
      if r.received == r.total { CompletedReenters(s.(frames := s.frames[p.frameId := r]), h, p.frameId, r, outcome); }
    }
  }

  lemma ParityStored(fb: FrameBuffer, f: Frame, g: FecGroup)
    requires Holds(fb, f) && IsParity(f, g) && fb.received > 0
    ensures var stored := fb.(groups := fb.groups + [g]);
            var r := if stored.received < stored.total then Recovered(stored, g) else stored;
            Holds(r, f) && r.received > 0
  {
    var stored := fb.(groups := fb.groups + [g]);
    assert Holds(stored, f);
    RecoverKeeps(stored, f, g);
  }

  // A complete buffer re-entering as a duplicate of its first packet.
  lemma CompletedReenters(s: Stream, h: map<nat, Frame>, id: nat, r: FrameBuffer, outcome: Outcome)
    requires Sound(s, h) && StreamOk(s) && Sent(h) && id in h && id in s.frames && s.frames[id] == r
    requires Holds(r, h[id]) && r.received == r.total
    ensures Sound(ReceiveData(s, Data(id, 0, r.total, [], r.isKeyframe, r.codec), outcome), h)
  {
    CountAll(r.mask);
    ReceiveDataSound(s, h, Data(id, 0, r.total, [], r.isKeyframe, r.codec), outcome);
  }

  // Every parity packet is whole.
  predicate WholeParity(events: seq<(Packet, Outcome)>)
  {
    forall i :: 0 <= i < |events| && events[i].0.Fec? ==> |events[i].0.payload| == MAX_PAYLOAD
  }

  function Deliver(s: Stream, events: seq<(Packet, Outcome)>): Stream
    requires StreamOk(s) && WholeParity(events)
    decreases |events|
  {
    if events == [] then s else Deliver(Receive(s, events[0].0, events[0].1), events[1..])
  }

  // Reassembly is sound: whatever packets of the frames sent arrive, in
  // whatever order and however often, every frame that completes is the frame
  // that was sent under its id.
  lemma {:induction false} ReassemblyIsSound(s: Stream, h: map<nat, Frame>, events: seq<(Packet, Outcome)>)
    requires Sound(s, h) && StreamOk(s) && Sent(h) && WholeParity(events)
    requires forall i :: 0 <= i < |events| ==> events[i].0.frameId in h && events[i].0 in Wire(h[events[i].0.frameId])
    ensures Sound(Deliver(s, events), h)
    decreases |events|
  {
    if events != [] {
      var (p, outcome) := events[0];
      WireIsHonest(h[p.frameId], 0, 0);
      if p.Data? { ReceiveDataSound(s, h, p, outcome); } else { ReceiveFecSound(s, h, p, outcome); }
      ReassemblyIsSound(Receive(s, p, outcome), h, events[1..]);
    }
  }

  // The same from a receiver that has seen nothing.
  lemma EveryCompletedFrameWasSent(h: map<nat, Frame>, events: seq<(Packet, Outcome)>, i: nat)
    requires Sent(h) && WholeParity(events)
    requires forall i :: 0 <= i < |events| ==> events[i].0.frameId in h && events[i].0 in Wire(h[events[i].0.frameId])
    requires i < |Deliver(Stream(map[], false, []), events).log|
    ensures EntrySound(Deliver(Stream(map[], false, []), events).log[i], h)
  {
    ReassemblyIsSound(Stream(map[], false, []), h, events);
  }
}
