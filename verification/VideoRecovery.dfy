// When one frame's packets bring it together: in any order, with losses and
// repetitions, the receiver delivers the frame exactly as often as the order
// of arrival says.
module VideoRecovery {
  import opened Options
  import opened VideoPackets
  import opened VideoReceiver
  import opened VideoRuns
  import opened VideoOrder
  import opened VideoInOrder

  // ---- packets as arrivals ----

  function Total(f: Frame): nat { PacketCount(|f.data|) }

  function GroupHi(n: nat, k: nat): nat { if (k + 1) * GROUP_SIZE < n then (k + 1) * GROUP_SIZE else n }

  function PacketOf(f: Frame, x: Arrival): Packet
    requires Sendable(Total(f), x)
  {
    match x
    case DataAt(i) => DataPacket(f, i)
    case ParityFor(k) => FecPacket(f, k * GROUP_SIZE, GroupHi(Total(f), k))
  }

  function ArrivalOf(p: Packet): Arrival
  {
    if p.Data? then DataAt(p.index) else ParityFor(p.groupStart / GROUP_SIZE)
  }

  lemma SmallIndex(f: Frame, i: nat)
    requires |f.data| <= MAX_FRAME && i <= Total(f)
    ensures i % UINT16 == i
  {
    assert i <= 65535;
  }

  // `p` is one of the frame's packets: the one its header names.
  ghost predicate IsPacket(f: Frame, p: Packet) { Sendable(Total(f), ArrivalOf(p)) && p == PacketOf(f, ArrivalOf(p)) }

  lemma DataIsPacket(f: Frame, i: nat)
    requires |f.data| <= MAX_FRAME && i < Total(f)
    ensures IsPacket(f, DataPacket(f, i)) && ArrivalOf(DataPacket(f, i)) == DataAt(i)
  {
    SmallIndex(f, i);
  }

  lemma FecIsPacket(f: Frame, group: nat, hi: nat)
    requires |f.data| <= MAX_FRAME && group % GROUP_SIZE == 0 && group + 1 < hi <= Total(f)
    requires hi == group + GROUP_SIZE || (hi == Total(f) && hi < group + GROUP_SIZE)
    ensures IsPacket(f, FecPacket(f, group, hi)) && ArrivalOf(FecPacket(f, group, hi)) == ParityFor(group / GROUP_SIZE)
  {
    SmallIndex(f, group);
  }

  lemma {:induction false} WireArrives(f: Frame, group: nat, i: nat)
    requires |f.data| <= MAX_FRAME && group <= i <= Total(f) && group % GROUP_SIZE == 0 && i < group + GROUP_SIZE
    ensures forall p :: p in WireFrom(f, group, i) ==> IsPacket(f, p)
    decreases Total(f) - i
  {
    if i < Total(f) {
      DataIsPacket(f, i);
      if i + 1 - group == GROUP_SIZE {
        FecIsPacket(f, group, i + 1);
        WireArrives(f, i + 1, i + 1);
      } else {
        WireArrives(f, group, i + 1);
      }
    } else if i - group > 1 {
      FecIsPacket(f, group, i);
    }
  }

  // ---- the buffer and what is kept of the order ----

  function KeyOf(g: FecGroup): nat { g.start / GROUP_SIZE }

  function ParityOf(f: Frame, k: nat): FecGroup
    requires k * GROUP_SIZE <= Total(f)
  {
    var lo, hi := k * GROUP_SIZE, GroupHi(Total(f), k);
    FecGroup(lo, hi - lo, XorSizes(f.data, lo, hi), Parity(f.data, lo, hi))
  }

  ghost predicate IsGroup(f: Frame, g: FecGroup) { KeyOf(g) * GROUP_SIZE + 1 < Total(f) && g == ParityOf(f, KeyOf(g)) }

  predicate KeyIn(groups: seq<FecGroup>, k: nat) { exists j :: 0 <= j < |groups| && KeyOf(groups[j]) == k }

  ghost predicate GroupsAre(f: Frame, groups: seq<FecGroup>, held: set<nat>)
  {
    && (forall j :: 0 <= j < |groups| ==> IsGroup(f, groups[j]))
    && forall k: nat :: k in held <==> KeyIn(groups, k)
  }

  ghost predicate MaskIs(mask: seq<bool>, have: set<nat>) { forall i :: 0 <= i < |mask| ==> (mask[i] <==> i in have) }

  ghost predicate Within(n: nat, have: set<nat>) { forall i :: i in have ==> i < n }

  // The buffer is the frame's, with just these packets and stored parities.
  ghost predicate InBuffer(fb: FrameBuffer, f: Frame, m: Assembly)
  {
    Holds(fb, f) && MaskIs(fb.mask, m.have) && fb.fecRecovered == m.latched && GroupsAre(f, fb.groups, m.held)
  }

  lemma CompleteWhenCounted(fb: FrameBuffer, f: Frame, m: Assembly)
    requires InBuffer(fb, f, m)
    ensures fb.received <= fb.total == Total(f)
    ensures fb.received == fb.total <==> Complete(Total(f), m)
  {
    CountAll(fb.mask);
  }

  // ---- one stored parity ----

  lemma {:induction false} MissingRises(mask: seq<bool>, lo: nat, hi: nat)
    requires hi <= |mask|
    ensures forall u, v :: 0 <= u < v < |Missing(mask, lo, hi)| ==> Missing(mask, lo, hi)[u] != Missing(mask, lo, hi)[v]
    decreases hi
  {
    if lo < hi {
      MissingRises(mask, lo, hi - 1);
      var before := Missing(mask, lo, hi - 1);
      assert forall u :: 0 <= u < |before| ==> before[u] in before;
    }
  }

  lemma AllSame<T>(s: seq<T>, x: T)
    requires x in s && (forall y :: y in s ==> y == x) && forall u, v :: 0 <= u < v < |s| ==> s[u] != s[v]
    ensures Just(s, x)
  {
    if |s| > 1 { FirstTwoSame(s, x); }
  }

  lemma FirstTwoSame<T>(s: seq<T>, x: T)
    requires |s| > 1 && forall y :: y in s ==> y == x
    ensures s[0] == s[1]
  {
    assert s[0] in s && s[1] in s;
  }

  lemma OneMissing(mask: seq<bool>, lo: nat, hi: nat, m: nat)
    requires lo <= m < hi <= |mask| && !mask[m]
    requires forall j :: lo <= j < hi && j != m ==> mask[j]
    ensures Just(Missing(mask, lo, hi), m)
  {
    MissingRises(mask, lo, hi);
    AllSame(Missing(mask, lo, hi), m);
  }

  lemma GroupRange(f: Frame, g: FecGroup)
    requires IsGroup(f, g)
    ensures IsParity(f, g) && forall j: nat :: g.start <= j < g.start + g.count <==> InGroup(Total(f), KeyOf(g), j)
  {
  }

  lemma GapIsOneMissing(mask: seq<bool>, f: Frame, have: set<nat>, g: FecGroup, m: nat)
    requires MaskIs(mask, have) && |mask| == Total(f) && IsGroup(f, g) && Gap(Total(f), have, KeyOf(g), m)
    ensures IsParity(f, g) && Just(Missing(mask, g.start, g.start + g.count), m)
  {
    GroupRange(f, g);
    OneMissing(mask, g.start, g.start + g.count, m);
  }

  // A group one short is made good.
  lemma RecoverGap(fb: FrameBuffer, f: Frame, have: set<nat>, g: FecGroup, m: nat)
    requires Holds(fb, f) && MaskIs(fb.mask, have) && IsGroup(f, g) && Gap(Total(f), have, KeyOf(g), m)
    ensures m < fb.total && m * MAX_PAYLOAD + ChunkSize(f.data, m) <= |fb.data|
    ensures Recovered(fb, g) == Stored(fb, m, Chunk(f.data, m))
  {
    GapIsOneMissing(fb.mask, f, have, g, m);
    RecoverOne(fb, f, g, m);
  }

  lemma OneMissingIsGap(n: nat, mask: seq<bool>, have: set<nat>, k: nat, lo: nat, hi: nat)
    requires MaskIs(mask, have) && lo <= hi <= |mask| && forall j: nat :: lo <= j < hi <==> InGroup(n, k, j)
    requires |Missing(mask, lo, hi)| == 1
    ensures OneShort(n, have, k)
  {
    var m := Missing(mask, lo, hi)[0];
    FirstIn(Missing(mask, lo, hi));
    OnlyMissing(mask, lo, hi);
    assert Gap(n, have, k, m);
  }

  lemma NoGapNotOneMissing(mask: seq<bool>, f: Frame, have: set<nat>, g: FecGroup)
    requires MaskIs(mask, have) && |mask| == Total(f) && IsGroup(f, g) && !OneShort(Total(f), have, KeyOf(g))
    ensures IsParity(f, g) && |Missing(mask, g.start, g.start + g.count)| != 1
  {
    var lo, hi := g.start, g.start + g.count;
    GroupRange(f, g);
    if |Missing(mask, lo, hi)| == 1 { OneMissingIsGap(Total(f), mask, have, KeyOf(g), lo, hi); }
  }

  // Any other is left as it is.
  lemma RecoverNoGap(fb: FrameBuffer, f: Frame, have: set<nat>, g: FecGroup)
    requires WellFormed(fb) && fb.total == Total(f) && MaskIs(fb.mask, have) && IsGroup(f, g) && !OneShort(Total(f), have, KeyOf(g))
    ensures |g.payload| == MAX_PAYLOAD && Recovered(fb, g) == fb
  {
    NoGapNotOneMissing(fb.mask, f, have, g);
    RecoverNone(fb, f, g);
  }

  // ---- all stored parities ----

  lemma KeysBefore(groups: seq<FecGroup>, k: nat)
    requires groups != []
    ensures var last := |groups| - 1; KeyIn(groups, k) <==> KeyIn(groups[..last], k) || KeyOf(groups[last]) == k
  {
    var last := |groups| - 1;
    if KeyIn(groups, k) {
      var j :| 0 <= j < |groups| && KeyOf(groups[j]) == k;
      if j < last { assert groups[..last][j] == groups[j]; }
    }
    if KeyIn(groups[..last], k) {
      var j :| 0 <= j < last && KeyOf(groups[..last][j]) == k;
      assert groups[j] == groups[..last][j];
    }
  }

  ghost predicate AllGroups(f: Frame, groups: seq<FecGroup>) { forall j :: 0 <= j < |groups| ==> IsGroup(f, groups[j]) }

  // With no group one short, the pass changes nothing.
  lemma {:induction false} PassIdles(fb: FrameBuffer, f: Frame, have: set<nat>, groups: seq<FecGroup>)
    requires Holds(fb, f) && MaskIs(fb.mask, have) && AllGroups(f, groups)
    requires forall j :: 0 <= j < |groups| ==> !OneShort(Total(f), have, KeyOf(groups[j]))
    ensures RecoveredAll(fb, groups) == fb
    decreases |groups|
  {
    if groups != [] {
      var last := |groups| - 1;
      PassIdles(fb, f, have, groups[..last]);
      RecoverNoGap(fb, f, have, groups[last]);
    }
  }

  // Packet `m` rebuilt on the data path.
  function Flagged(fb: FrameBuffer, f: Frame, m: nat): FrameBuffer
    requires WellFormed(fb) && m < fb.total && m < Total(f) && m * MAX_PAYLOAD + ChunkSize(f.data, m) <= |fb.data|
  {
    Stored(fb, m, Chunk(f.data, m)).(fecRecovered := true)
  }

  lemma FlaggedHolds(fb: FrameBuffer, f: Frame, have: set<nat>, m: nat)
    requires Holds(fb, f) && MaskIs(fb.mask, have) && m < fb.total && m !in have
    ensures m * MAX_PAYLOAD + ChunkSize(f.data, m) <= |fb.data|
    ensures Holds(Flagged(fb, f, m), f) && MaskIs(Flagged(fb, f, m).mask, have + {m})
  {
    StoreKeeps(fb, f, m);
  }

  // One step of the pass.
  ghost predicate Passes(b: FrameBuffer, g: FecGroup, r: FrameBuffer)
  {
    WellFormed(b) && |g.payload| == MAX_PAYLOAD &&
    r == if Recovered(b, g).received != b.received then Recovered(b, g).(fecRecovered := true) else Recovered(b, g)
  }

  lemma PassFires(fb: FrameBuffer, f: Frame, have: set<nat>, g: FecGroup, m: nat)
    requires Holds(fb, f) && MaskIs(fb.mask, have) && IsGroup(f, g) && Gap(Total(f), have, KeyOf(g), m)
    ensures m < fb.total && m * MAX_PAYLOAD + ChunkSize(f.data, m) <= |fb.data|
    ensures Passes(fb, g, Flagged(fb, f, m))
  {
    RecoverGap(fb, f, have, g, m);
  }

  lemma PassSkips(fb: FrameBuffer, f: Frame, have: set<nat>, g: FecGroup)
    requires Holds(fb, f) && MaskIs(fb.mask, have) && IsGroup(f, g) && !OneShort(Total(f), have, KeyOf(g))
    ensures Passes(fb, g, fb)
  {
    RecoverNoGap(fb, f, have, g);
  }

  // With one, the first of its parities makes it good, and the flag is set.
  lemma {:induction false} PassRebuilds(fb: FrameBuffer, f: Frame, have: set<nat>, groups: seq<FecGroup>, k: nat, m: nat) returns (r: FrameBuffer)
    requires Holds(fb, f) && MaskIs(fb.mask, have) && AllGroups(f, groups) && Gap(Total(f), have, k, m)
    requires m * MAX_PAYLOAD + ChunkSize(f.data, m) <= |fb.data|
    requires forall j :: 0 <= j < |groups| && KeyOf(groups[j]) != k ==> !OneShort(Total(f), have, KeyOf(groups[j]))
    ensures r == if KeyIn(groups, k) then Flagged(fb, f, m) else fb
    ensures RecoveredAll(fb, groups) == r
    decreases |groups|
  {
    if groups == [] {
      r := fb;
    } else {
      var last := |groups| - 1;
      var b := PassRebuilds(fb, f, have, groups[..last], k, m);
      KeysBefore(groups, k);
      r := if KeyIn(groups, k) then Flagged(fb, f, m) else fb;
      PassOne(fb, f, have, groups[last], k, m, KeyIn(groups[..last], k));
      PassMore(fb, groups, b, r);
    }
  }

  lemma PassMore(fb: FrameBuffer, groups: seq<FecGroup>, b: FrameBuffer, r: FrameBuffer)
    requires WellFormed(fb) && groups != [] && forall i :: 0 <= i < |groups| ==> |groups[i].payload| == MAX_PAYLOAD
    requires b == RecoveredAll(fb, groups[..|groups| - 1]) && Passes(b, groups[|groups| - 1], r)
    ensures RecoveredAll(fb, groups) == r
  {
  }

  lemma PassOne(fb: FrameBuffer, f: Frame, have: set<nat>, g: FecGroup, k: nat, m: nat, done: bool)
    requires Holds(fb, f) && MaskIs(fb.mask, have) && IsGroup(f, g) && Gap(Total(f), have, k, m)
    requires m * MAX_PAYLOAD + ChunkSize(f.data, m) <= |fb.data|
    requires KeyOf(g) != k ==> !OneShort(Total(f), have, KeyOf(g))
    ensures Passes(if done then Flagged(fb, f, m) else fb, g, if done || KeyOf(g) == k then Flagged(fb, f, m) else fb)
  {
    if done {
      FlaggedHolds(fb, f, have, m);
      StillNoGap(f, have, g, k, m);
      PassSkips(Flagged(fb, f, m), f, have + {m}, g);
    } else if KeyOf(g) == k {
      PassFires(fb, f, have, g, m);
    } else {
      PassSkips(fb, f, have, g);
    }
  }

  // The gap closed, no group is one short.
  lemma StillNoGap(f: Frame, have: set<nat>, g: FecGroup, k: nat, m: nat)
    requires Gap(Total(f), have, k, m) && (KeyOf(g) != k ==> !OneShort(Total(f), have, KeyOf(g)))
    ensures !OneShort(Total(f), have + {m}, KeyOf(g))
  {
    if KeyOf(g) != k { SameShort(Total(f), have, have + {m}, KeyOf(g)); }
  }

  lemma FilledIs(n: nat, have: set<nat>, k: nat, m: nat)
    requires Gap(n, have, k, m)
    ensures Filled(n, have, k) == have + {m}
  {
  }

  // The pass over a buffer where only group `k` may be one short.
  lemma PassStep(fb: FrameBuffer, f: Frame, m: Assembly, k: nat) returns (r: FrameBuffer)
    requires InBuffer(fb, f, m) && !m.latched && forall g :: g in m.held && g != k ==> !OneShort(Total(f), m.have, g)
    ensures r == RecoveredAll(fb, fb.groups)
    ensures InBuffer(r, f, if k in m.held && OneShort(Total(f), m.have, k) then Assembly(Filled(Total(f), m.have, k), m.held, true) else m)
  {
    if k in m.held && OneShort(Total(f), m.have, k) {
      var gap: nat :| Gap(Total(f), m.have, k, gap);
      FlaggedHolds(fb, f, m.have, gap);
      r := PassRebuilds(fb, f, m.have, fb.groups, k, gap);
      FilledIs(Total(f), m.have, k, gap);
    } else {
      PassIdles(fb, f, m.have, fb.groups);
      r := fb;
    }
  }

  // ---- one data packet ----

  // A new packet is stored, and the stored parities are tried unless one was
  // used so before.
  lemma AbsorbNew(fb: FrameBuffer, f: Frame, i: nat, stored: FrameBuffer, r: FrameBuffer)
    requires WellFormed(fb) && |f.data| <= MAX_FRAME && i < fb.total == Total(f) && !fb.mask[i]
    requires i * MAX_PAYLOAD + ChunkSize(f.data, i) <= |fb.data| && stored == Stored(fb, i, Chunk(f.data, i)) && WellFormed(stored)
    requires r == if !stored.fecRecovered && stored.received < stored.total && stored.groups != []
                  then RecoveredAll(stored, stored.groups) else stored
    ensures Absorbed(fb, DataPacket(f, i)) == (r, r.received == r.total)
  {
    SmallIndex(f, i);
  }

  lemma AbsorbDuplicate(fb: FrameBuffer, f: Frame, m: Assembly, i: nat)
    requires 0 < |f.data| <= MAX_FRAME && i < Total(f) && i in m.have
    requires InBuffer(fb, f, m) && !Complete(Total(f), m)
    ensures Absorbed(fb, DataPacket(f, i)) == (fb, false)
  {
    SmallIndex(f, i);
    CompleteWhenCounted(fb, f, m);
  }

  // What is done with a packet once stored.
  lemma AfterStore(stored: FrameBuffer, f: Frame, m: Assembly, k: nat) returns (r: FrameBuffer)
    requires InBuffer(stored, f, m) && (!m.latched ==> forall g :: g in m.held && g != k ==> !OneShort(Total(f), m.have, g))
    ensures r == if !stored.fecRecovered && stored.received < stored.total && stored.groups != []
                 then RecoveredAll(stored, stored.groups) else stored
    ensures InBuffer(r, f, if !m.latched && k in m.held && OneShort(Total(f), m.have, k)
                           then Assembly(Filled(Total(f), m.have, k), m.held, true) else m)
  {
    CompleteWhenCounted(stored, f, m);
    if m.latched || stored.groups == [] {
      r := stored;
    } else if stored.received < stored.total {
      r := PassStep(stored, f, m, k);
    } else {
      WholeNotShort(Total(f), m, k);
      r := stored;
    }
  }

  // What a data packet makes of the buffer.
  lemma AbsorbStep(fb: FrameBuffer, f: Frame, m: Assembly, i: nat, next: Assembly) returns (r: FrameBuffer)
    requires 0 < |f.data| <= MAX_FRAME && i < Total(f)
    requires InBuffer(fb, f, m) && Settled(Total(f), m) && !Complete(Total(f), m) && next == Step(Total(f), m, DataAt(i))
    ensures InBuffer(r, f, next) && Absorbed(fb, DataPacket(f, i)) == (r, Complete(Total(f), next))
  {
    if i in m.have {
      r := fb;
      AbsorbDuplicate(fb, f, m, i);
    } else {
      var stored := StoreStep(fb, f, m, i);
      if !m.latched { OthersSettled(Total(f), m, i); }
      r := AfterStore(stored, f, m.(have := m.have + {i}), GroupOf(i));
      AbsorbNew(fb, f, i, stored, r);
      CompleteWhenCounted(r, f, next);
    }
  }

  lemma WholeNotShort(n: nat, m: Assembly, k: nat)
    requires Complete(n, m)
    ensures !OneShort(n, m.have, k)
  {
  }

  // Storing a packet changes its own group alone.
  lemma OthersSettled(n: nat, m: Assembly, i: nat)
    requires Settled(n, m) && !m.latched
    ensures forall g :: g in m.held && g != GroupOf(i) ==> !OneShort(n, m.have + {i}, g)
  {
    forall g | g in m.held && g != GroupOf(i) ensures !OneShort(n, m.have + {i}, g) { SameShort(n, m.have, m.have + {i}, g); }
  }

  lemma StoreStep(fb: FrameBuffer, f: Frame, m: Assembly, i: nat) returns (stored: FrameBuffer)
    requires InBuffer(fb, f, m) && i < Total(f) && i !in m.have
    ensures i * MAX_PAYLOAD + ChunkSize(f.data, i) <= |fb.data| && stored == Stored(fb, i, Chunk(f.data, i))
    ensures InBuffer(stored, f, m.(have := m.have + {i}))
  {
    StoreKeeps(fb, f, i);
    stored := Stored(fb, i, Chunk(f.data, i));
  }

  // ---- the receiver ----

  // The receiver holds of `f` just this.
  ghost predicate Keeps(s: Stream, f: Frame, m: Assembly)
  {
    StreamOk(s) && if f.id in s.frames then m.have != {} && InBuffer(s.frames[f.id], f, m) else m == NOTHING
  }

  ghost predicate EntryFor(e: Completed, f: Frame)
  {
    e.frameId == f.id && e.bytes == f.data && e.isKeyframe == f.isKeyframe && e.codec == f.codec
  }

  // The log grew by so many deliveries of `f`, each with its bytes.
  ghost predicate Shown(log: seq<Completed>, was: seq<Completed>, f: Frame, times: nat)
  {
    |log| == |was| + times && log[..|was|] == was && forall j :: |was| <= j < |log| ==> EntryFor(log[j], f)
  }

  // The frame is delivered if now complete, and else held.
  ghost predicate Moves(s: Stream, r: Stream, f: Frame, next: Assembly)
  {
    if Complete(Total(f), next) then Keeps(r, f, NOTHING) && Shown(r.log, s.log, f, 1) else Keeps(r, f, next) && r.log == s.log
  }

  lemma FinishShows(s: Stream, f: Frame, fb: FrameBuffer, outcome: Outcome)
    requires StreamOk(s) && Holds(fb, f) && fb.received == fb.total
    ensures Keeps(Finished(s, fb, f.id, outcome), f, NOTHING) && Shown(Finished(s, fb, f.id, outcome).log, s.log, f, 1)
  {
    CompleteIsFrame(fb, f);
  }

  // The buffer a data packet finds, new or already there.
  function BufferFor(s: Stream, p: Packet): FrameBuffer
    requires p.Data?
  {
    Prepared(BufferOf(Evicted(s.frames, p.frameId), p.frameId), p)
  }

  lemma BufferFound(s: Stream, f: Frame, m: Assembly, i: nat)
    requires 0 < |f.data| <= MAX_FRAME && i < Total(f) && Keeps(s, f, m) && Within(Total(f), m.have)
    ensures InBuffer(BufferFor(s, DataPacket(f, i)), f, m)
  {
    var p := DataPacket(f, i);
    if f.id in s.frames {
      assert BufferOf(Evicted(s.frames, f.id), f.id) == s.frames[f.id];
      ReceivedSome(s.frames[f.id], f, m);
    } else {
      DataIsHonest(f, i);
      PreparedHolds(f, p);
      assert BufferOf(Evicted(s.frames, f.id), f.id) == NEW_BUFFER;
    }
  }

  lemma ReceivedSome(fb: FrameBuffer, f: Frame, m: Assembly)
    requires InBuffer(fb, f, m) && m.have != {} && Within(Total(f), m.have)
    ensures fb.received > 0
  {
    var i :| i in m.have;
    CountSome(fb.mask, i);
  }

  // The handler once the buffer is known.
  lemma DataHandled(s: Stream, p: Packet, fb: FrameBuffer, r: FrameBuffer, complete: bool, outcome: Outcome)
    requires p.Data? && StreamOk(s) && fb == BufferFor(s, p) && WellFormed(fb) && fb.total == p.total && WellFormed(r)
    requires Absorbed(fb, p) == (r, complete)
    ensures var next := s.(frames := Evicted(s.frames, p.frameId)[p.frameId := r]);
            StreamOk(next) && ReceiveData(s, p, outcome) == if complete then Finished(next, r, p.frameId, outcome) else next
  {
  }

  lemma DataStep(s: Stream, f: Frame, m: Assembly, i: nat, outcome: Outcome, next: Assembly)
    requires 0 < |f.data| <= MAX_FRAME && i < Total(f) && next == Step(Total(f), m, DataAt(i))
    requires Keeps(s, f, m) && Settled(Total(f), m) && !Complete(Total(f), m) && Within(Total(f), m.have)
    ensures Moves(s, ReceiveData(s, DataPacket(f, i), outcome), f, next)
  {
    var p := DataPacket(f, i);
    BufferFound(s, f, m, i);
    var fb := BufferFor(s, p);
    var r := AbsorbStep(fb, f, m, i, next);
    SmallIndex(f, Total(f));
    DataHandled(s, p, fb, r, Complete(Total(f), next), outcome);
    var now := s.(frames := Evicted(s.frames, f.id)[f.id := r]);
    if Complete(Total(f), next) {
      CompleteWhenCounted(r, f, next);
      FinishShows(now, f, r, outcome);
    }
  }

  // ---- one parity packet ----

  lemma ParityIsGroup(f: Frame, k: nat)
    requires k * GROUP_SIZE + 1 < Total(f)
    ensures KeyOf(ParityOf(f, k)) == k && IsGroup(f, ParityOf(f, k))
  {
    assert k * GROUP_SIZE / GROUP_SIZE == k;
  }

  lemma ParityIdles(stored: FrameBuffer, f: Frame, m: Assembly, k: nat, g: FecGroup)
    requires k * GROUP_SIZE + 1 < Total(f) && !OneShort(Total(f), m.have, k) && g == ParityOf(f, k)
    requires WellFormed(stored) && stored.total == Total(f) && MaskIs(stored.mask, m.have)
    ensures |g.payload| == MAX_PAYLOAD && Recovered(stored, g) == stored
  {
    ParityIsGroup(f, k);
    RecoverNoGap(stored, f, m.have, g);
  }

  lemma ParityRebuilds(stored: FrameBuffer, f: Frame, m: Assembly, k: nat) returns (r: FrameBuffer)
    requires k * GROUP_SIZE + 1 < Total(f) && InBuffer(stored, f, m) && OneShort(Total(f), m.have, k)
    ensures r == Recovered(stored, ParityOf(f, k)) && InBuffer(r, f, m.(have := Filled(Total(f), m.have, k)))
  {
    var gap: nat :| Gap(Total(f), m.have, k, gap);
    FilledIs(Total(f), m.have, k, gap);
    r := ParityFills(stored, f, m, k, gap);
  }

  lemma ParityFills(stored: FrameBuffer, f: Frame, m: Assembly, k: nat, gap: nat) returns (r: FrameBuffer)
    requires k * GROUP_SIZE + 1 < Total(f) && InBuffer(stored, f, m) && Gap(Total(f), m.have, k, gap)
    ensures r == Recovered(stored, ParityOf(f, k)) && InBuffer(r, f, m.(have := m.have + {gap}))
  {
    ParityIsGroup(f, k);
    RecoverGap(stored, f, m.have, ParityOf(f, k), gap);
    r := StoreStep(stored, f, m, gap);
  }

  lemma ParityKept(fb: FrameBuffer, f: Frame, m: Assembly, k: nat)
    requires k * GROUP_SIZE + 1 < Total(f) && InBuffer(fb, f, m)
    ensures InBuffer(fb.(groups := fb.groups + [ParityOf(f, k)]), f, m.(held := m.held + {k}))
  {
    var groups := fb.groups + [ParityOf(f, k)];
    KeysMore(f, fb.groups, ParityOf(f, k), m.held);
    AllParity(f, groups, m.held + {k});
    GroupsReplaced(fb, f, groups);
  }

  lemma GroupsReplaced(fb: FrameBuffer, f: Frame, groups: seq<FecGroup>)
    requires Holds(fb, f) && forall j :: 0 <= j < |groups| ==> IsParity(f, groups[j])
    ensures Holds(fb.(groups := groups), f)
  {
  }

  lemma AllParity(f: Frame, groups: seq<FecGroup>, held: set<nat>)
    requires GroupsAre(f, groups, held)
    ensures forall j :: 0 <= j < |groups| ==> IsParity(f, groups[j])
  {
  }

  // What a parity packet makes of the buffer: it is stored, and tried at once,
  // whatever the flag.
  lemma ParityStep(fb: FrameBuffer, f: Frame, m: Assembly, k: nat, next: Assembly) returns (r: FrameBuffer)
    requires k * GROUP_SIZE + 1 < Total(f) && InBuffer(fb, f, m) && m.have != {} && next == Step(Total(f), m, ParityFor(k))
    ensures var stored := fb.(groups := fb.groups + [ParityOf(f, k)]); WellFormed(stored) && r == Recovered(stored, ParityOf(f, k))
    ensures InBuffer(r, f, next)
  {
    var stored, now := fb.(groups := fb.groups + [ParityOf(f, k)]), m.(held := m.held + {k});
    ParityKept(fb, f, m, k);
    if OneShort(Total(f), m.have, k) {
      r := ParityRebuilds(stored, f, now, k);
    } else {
      ParityIdles(stored, f, now, k, ParityOf(f, k));
      r := stored;
    }
  }

  lemma KeysMore(f: Frame, groups: seq<FecGroup>, g: FecGroup, held: set<nat>)
    requires GroupsAre(f, groups, held) && IsGroup(f, g)
    ensures GroupsAre(f, groups + [g], held + {KeyOf(g)})
  {
    var more := groups + [g];
    assert more[..|groups|] == groups;
    forall k: nat ensures k in held + {KeyOf(g)} <==> KeyIn(more, k) { KeysBefore(more, k); }
  }

  lemma ParityHandled(s: Stream, f: Frame, k: nat, r: FrameBuffer, outcome: Outcome)
    requires |f.data| <= MAX_FRAME && k * GROUP_SIZE + 1 < Total(f) && StreamOk(s) && f.id in s.frames
    requires s.frames[f.id].received < s.frames[f.id].total
    requires var stored := s.frames[f.id].(groups := s.frames[f.id].groups + [ParityOf(f, k)]);
             WellFormed(stored) && r == Recovered(stored, ParityOf(f, k))
    ensures var next := s.(frames := s.frames[f.id := r]);
            StreamOk(next) &&
            ReceiveFec(s, PacketOf(f, ParityFor(k)), outcome) ==
            if r.received == r.total then ReceiveData(next, Data(f.id, 0, r.total, [], r.isKeyframe, r.codec), outcome) else next
  {
    SmallIndex(f, k * GROUP_SIZE);
    var p := PacketOf(f, ParityFor(k));
    assert FecGroup(p.groupStart, p.groupCount, p.sizeXor, p.payload) == ParityOf(f, k);
  }

  // A complete buffer re-entering as a duplicate is handed over.
  lemma SyntheticShows(s: Stream, f: Frame, fb: FrameBuffer, outcome: Outcome)
    requires StreamOk(s) && Holds(fb, f) && fb.received == fb.total && f.id in s.frames && s.frames[f.id] == fb
    ensures var r := ReceiveData(s, Data(f.id, 0, fb.total, [], fb.isKeyframe, fb.codec), outcome);
            Keeps(r, f, NOTHING) && Shown(r.log, s.log, f, 1)
  {
    CountAll(fb.mask);
    DuplicateFinishes(s, f.id, fb, outcome);
    FinishShows(s.(frames := Evicted(s.frames, f.id)[f.id := fb]), f, fb, outcome);
  }

  // A duplicate of a packet of a complete buffer only hands it over.
  lemma DuplicateFinishes(s: Stream, id: nat, fb: FrameBuffer, outcome: Outcome)
    requires StreamOk(s) && WellFormed(fb) && id in s.frames && s.frames[id] == fb && fb.received == fb.total > 0 && fb.mask[0]
    ensures var next := s.(frames := Evicted(s.frames, id)[id := fb]);
            StreamOk(next) && ReceiveData(s, Data(id, 0, fb.total, [], fb.isKeyframe, fb.codec), outcome) == Finished(next, fb, id, outcome)
  {
  }

  lemma FecStep(s: Stream, f: Frame, m: Assembly, k: nat, outcome: Outcome, next: Assembly)
    requires 0 < |f.data| <= MAX_FRAME && k * GROUP_SIZE + 1 < Total(f) && next == Step(Total(f), m, ParityFor(k))
    requires Keeps(s, f, m) && !Complete(Total(f), m)
    ensures Moves(s, ReceiveFec(s, PacketOf(f, ParityFor(k)), outcome), f, next)
  {
    if f.id in s.frames {
      var fb := s.frames[f.id];
      CompleteWhenCounted(fb, f, m);
      var r := ParityStep(fb, f, m, k, next);
      CompleteWhenCounted(r, f, next);
      ParityHandled(s, f, k, r, outcome);
      if Complete(Total(f), next) { SyntheticShows(s.(frames := s.frames[f.id := r]), f, r, outcome); }
    }
  }

  // ---- whole deliveries ----

  ghost predicate FromWire(f: Frame, events: seq<(Packet, Outcome)>) { forall j :: 0 <= j < |events| ==> events[j].0 in Wire(f) }

  // The order of arrival.
  function Order(events: seq<(Packet, Outcome)>): (a: seq<Arrival>)
    ensures |a| == |events|
  {
    seq(|events|, j requires 0 <= j < |events| => ArrivalOf(events[j].0))
  }

  lemma PacketMoves(s: Stream, f: Frame, m: Assembly, p: Packet, outcome: Outcome)
    requires 0 < |f.data| <= MAX_FRAME && IsPacket(f, p) && (p.Fec? ==> |p.payload| == MAX_PAYLOAD)
    requires Keeps(s, f, m) && Settled(Total(f), m) && !Complete(Total(f), m) && Within(Total(f), m.have)
    ensures Moves(s, Receive(s, p, outcome), f, Step(Total(f), m, ArrivalOf(p)))
  {
    var next := Step(Total(f), m, ArrivalOf(p));
    if p.Data? { DataStep(s, f, m, p.index, outcome, next); }
    else { FecStep(s, f, m, p.groupStart / GROUP_SIZE, outcome, next); }
  }

  lemma ShownMore(a: seq<Completed>, b: seq<Completed>, c: seq<Completed>, f: Frame, first: nat, rest: nat)
    requires Shown(b, a, f, first) && Shown(c, b, f, rest)
    ensures Shown(c, a, f, first + rest)
  {
    assert forall j :: 0 <= j < |b| ==> c[j] == c[..|b|][j];
    assert c[..|a|] == b[..|a|];
  }

  ghost predicate Waits(n: nat, m: Assembly) { Settled(n, m) && !Complete(n, m) && Within(n, m.have) }

  lemma TallyStep(n: nat, m: Assembly, a: seq<Arrival>)
    requires a != []
    ensures var next := Step(n, m, a[0]);
            Tally(n, m, a) == if Complete(n, next) then 1 + Tally(n, NOTHING, a[1..]) else Tally(n, next, a[1..])
  {
  }

  lemma FirstMoves(s: Stream, f: Frame, m: Assembly, events: seq<(Packet, Outcome)>, next: Assembly)
    requires 0 < |f.data| <= MAX_FRAME && FromWire(f, events) && WholeParity(events) && events != []
    requires Keeps(s, f, m) && Waits(Total(f), m) && next == Step(Total(f), m, Order(events)[0])
    ensures Moves(s, Receive(s, events[0].0, events[0].1), f, next) && (Complete(Total(f), next) || Waits(Total(f), next))
    ensures Order(events)[1..] == Order(events[1..])
  {
    var x := Order(events)[0];
    WireArrives(f, 0, 0);
    assert IsPacket(f, events[0].0);
    PacketMoves(s, f, m, events[0].0, events[0].1);
    StepWaits(Total(f), m, x);
  }

  lemma StepWaits(n: nat, m: Assembly, x: Arrival)
    requires Waits(n, m) && Sendable(n, x)
    ensures Complete(n, Step(n, m, x)) || Waits(n, Step(n, m, x))
  {
    StepSettles(n, m, x);
  }

  lemma NothingWaits(n: nat)
    requires 0 < n
    ensures Waits(n, NOTHING)
  {
    assert 0 !in NOTHING.have;
  }

  lemma RestFromWire(s: Stream, f: Frame, events: seq<(Packet, Outcome)>)
    requires StreamOk(s) && FromWire(f, events) && WholeParity(events) && events != []
    ensures FromWire(f, events[1..]) && WholeParity(events[1..])
    ensures Deliver(s, events) == Deliver(Receive(s, events[0].0, events[0].1), events[1..])
  {
  }

  // The receiver counts as the order says.
  lemma {:induction false} DeliveredAsTallied(s: Stream, f: Frame, m: Assembly, events: seq<(Packet, Outcome)>)
    requires 0 < |f.data| <= MAX_FRAME && FromWire(f, events) && WholeParity(events) && Keeps(s, f, m) && Waits(Total(f), m)
    ensures Shown(Deliver(s, events).log, s.log, f, Tally(Total(f), m, Order(events)))
    decreases |events|
  {
    if events != [] {
      var rest, next, r := events[1..], Step(Total(f), m, Order(events)[0]), Receive(s, events[0].0, events[0].1);
      FirstMoves(s, f, m, events, next);
      RestFromWire(s, f, events);
      TallyStep(Total(f), m, Order(events));
      if Complete(Total(f), next) {
        NothingWaits(Total(f));
        DeliveredAsTallied(r, f, NOTHING, rest);
        ShownMore(s.log, r.log, Deliver(r, rest).log, f, 1, Tally(Total(f), NOTHING, Order(rest)));
      } else {
        DeliveredAsTallied(r, f, next, rest);
      }
    }
  }

  // A receiver that has nothing of a frame, given the frame's packets in any
  // order, with any losses and repetitions, delivers the frame exactly as
  // often as the order says, each time with its bytes.
  lemma DeliveredExactly(s: Stream, f: Frame, events: seq<(Packet, Outcome)>)
    requires StreamOk(s) && f.id !in s.frames && 0 < |f.data| <= MAX_FRAME
    requires FromWire(f, events) && WholeParity(events)
    ensures Shown(Deliver(s, events).log, s.log, f, Deliveries(Total(f), Order(events)))
  {
    OrderSendable(f, events);
    NothingWaits(Total(f));
    DeliveredAsTallied(s, f, NOTHING, events);
    TallyIsDeliveries(Total(f), Order(events));
  }

  lemma OrderSendable(f: Frame, events: seq<(Packet, Outcome)>)
    requires |f.data| <= MAX_FRAME && FromWire(f, events)
    ensures AllSendable(Total(f), Order(events))
  {
    WireArrives(f, 0, 0);
  }

  // ---- named orders ----

  // The data packet of chunk `i`, if it arrives.
  function DataArriving(f: Frame, lost: set<nat>, i: nat): seq<Packet>
    requires i < Total(f)
  {
    if i in lost then [] else [DataPacket(f, i)]
  }

  // WireFrom without the lost data packets, in group `k` so far; every parity
  // packet arrives.
  function Arriving(f: Frame, lost: set<nat>, k: nat, i: nat): (w: seq<Packet>)
    requires k * GROUP_SIZE <= i <= Total(f)
    decreases Total(f) - i
  {
    var group := k * GROUP_SIZE;
    if i == Total(f) then if i - group > 1 then [FecPacket(f, group, i)] else []
    else if i + 1 - group == GROUP_SIZE then DataArriving(f, lost, i) + [FecPacket(f, group, i + 1)] + Arriving(f, lost, k + 1, i + 1)
    else DataArriving(f, lost, i) + Arriving(f, lost, k, i + 1)
  }

  // With nothing lost what arrives is all that was sent.
  lemma {:induction false} NothingLost(f: Frame, k: nat, i: nat)
    requires k * GROUP_SIZE <= i <= Total(f)
    ensures Arriving(f, {}, k, i) == WireFrom(f, k * GROUP_SIZE, i)
    decreases Total(f) - i
  {
    if i < Total(f) {
      if i + 1 == (k + 1) * GROUP_SIZE {
        NothingLost(f, k + 1, i + 1);
        assert [DataPacket(f, i)] + [FecPacket(f, k * GROUP_SIZE, i + 1)] == [DataPacket(f, i), FecPacket(f, k * GROUP_SIZE, i + 1)];
      } else {
        NothingLost(f, k, i + 1);
      }
    }
  }

  // As arrivals, and all of them sent.
  function ArrivalsOf(packets: seq<Packet>): (a: seq<Arrival>)
    ensures |a| == |packets|
  {
    seq(|packets|, j requires 0 <= j < |packets| => ArrivalOf(packets[j]))
  }

  lemma ArrivalsJoin(x: seq<Packet>, y: seq<Packet>)
    ensures ArrivalsOf(x + y) == ArrivalsOf(x) + ArrivalsOf(y)
  {
  }

  lemma GroupArrives(data: seq<Packet>, parity: Packet, rest: seq<Packet>)
    ensures ArrivalsOf(data + [parity] + rest) == ArrivalsOf(data) + [ArrivalOf(parity)] + ArrivalsOf(rest)
  {
    ArrivalsJoin(data + [parity], rest);
    ArrivalsJoin(data, [parity]);
  }

  lemma ChunkArrives(f: Frame, lost: set<nat>, i: nat)
    requires |f.data| <= MAX_FRAME && i < Total(f)
    ensures ArrivalsOf(DataArriving(f, lost, i)) == DataInOrder(lost, i)
  {
    DataIsPacket(f, i);
  }

  // A group's end: its last data packet and its parity.
  lemma EndArrives(f: Frame, lost: set<nat>, k: nat, i: nat, rest: seq<Packet>)
    requires |f.data| <= MAX_FRAME && i < Total(f) && i + 1 == (k + 1) * GROUP_SIZE
    ensures ArrivalsOf(DataArriving(f, lost, i) + [FecPacket(f, k * GROUP_SIZE, i + 1)] + rest) ==
            DataInOrder(lost, i) + [ParityFor(k)] + ArrivalsOf(rest)
  {
    var data, parity := DataArriving(f, lost, i), FecPacket(f, k * GROUP_SIZE, i + 1);
    ChunkArrives(f, lost, i);
    FecIsPacket(f, k * GROUP_SIZE, i + 1);
    GroupArrives(data, parity, rest);
  }

  lemma MiddleArrives(f: Frame, lost: set<nat>, i: nat, rest: seq<Packet>)
    requires |f.data| <= MAX_FRAME && i < Total(f)
    ensures ArrivalsOf(DataArriving(f, lost, i) + rest) == DataInOrder(lost, i) + ArrivalsOf(rest)
  {
    ChunkArrives(f, lost, i);
    ArrivalsJoin(DataArriving(f, lost, i), rest);
  }

  lemma TailArrives(f: Frame, lost: set<nat>, k: nat)
    requires |f.data| <= MAX_FRAME && k * GROUP_SIZE <= Total(f) < (k + 1) * GROUP_SIZE
    ensures ArrivalsOf(Arriving(f, lost, k, Total(f))) == InOrder(Total(f), lost, k, Total(f))
  {
    if Total(f) - k * GROUP_SIZE > 1 { FecIsPacket(f, k * GROUP_SIZE, Total(f)); }
  }

  lemma {:induction false} ArrivingInOrder(f: Frame, lost: set<nat>, k: nat, i: nat)
    requires |f.data| <= MAX_FRAME && k * GROUP_SIZE <= i <= Total(f) && i < (k + 1) * GROUP_SIZE
    ensures ArrivalsOf(Arriving(f, lost, k, i)) == InOrder(Total(f), lost, k, i)
    decreases Total(f) - i
  {
    if i == Total(f) {
      TailArrives(f, lost, k);
    } else if i + 1 == (k + 1) * GROUP_SIZE {
      ArrivingInOrder(f, lost, k + 1, i + 1);
      EndArrives(f, lost, k, i, Arriving(f, lost, k + 1, i + 1));
    } else {
      ArrivingInOrder(f, lost, k, i + 1);
      MiddleArrives(f, lost, i, Arriving(f, lost, k, i + 1));
    }
  }

  lemma {:induction false} ArrivingWasSent(f: Frame, lost: set<nat>, k: nat, i: nat)
    requires k * GROUP_SIZE <= i <= Total(f)
    ensures forall p :: p in Arriving(f, lost, k, i) ==> p in WireFrom(f, k * GROUP_SIZE, i)
    decreases Total(f) - i
  {
    if i < Total(f) {
      if i + 1 == (k + 1) * GROUP_SIZE { ArrivingWasSent(f, lost, k + 1, i + 1); } else { ArrivingWasSent(f, lost, k, i + 1); }
    }
  }

  // If a frame's packets arrive in sending order with all parity, the frame is
  // delivered, once, with its bytes, exactly when each group of five lost at
  // most one data packet (a trailing group of one none); else not at all.
  lemma InOrderRecoveryIsComplete(s: Stream, f: Frame, lost: set<nat>, events: seq<(Packet, Outcome)>)
    requires StreamOk(s) && f.id !in s.frames && 0 < |f.data| <= MAX_FRAME && WholeParity(events)
    requires |events| == |Arriving(f, lost, 0, 0)| && forall j :: 0 <= j < |events| ==> events[j].0 == Arriving(f, lost, 0, 0)[j]
    ensures Shown(Deliver(s, events).log, s.log, f, if Bearable(Total(f), lost) then 1 else 0)
  {
    ArrivingWasSent(f, lost, 0, 0);
    assert FromWire(f, events);
    ArrivingInOrder(f, lost, 0, 0);
    assert Order(events) == ArrivalsOf(Arriving(f, lost, 0, 0));
    DeliveredExactly(s, f, events);
    InOrderOnce(Total(f), lost);
  }

  // Without repetitions it is delivered at most once, and exactly when the
  // order is recoverable.
  lemma WithoutRepetitions(s: Stream, f: Frame, events: seq<(Packet, Outcome)>)
    requires StreamOk(s) && f.id !in s.frames && 0 < |f.data| <= MAX_FRAME && FromWire(f, events) && WholeParity(events)
    requires var a := Order(events); forall u, v :: 0 <= u < v < |a| ==> a[u] != a[v]
    ensures Shown(Deliver(s, events).log, s.log, f, if Recoverable(Total(f), Order(events), |events|) then 1 else 0)
  {
    DeliveredExactly(s, f, events);
    OrderSendable(f, events);
    OnceIfDistinct(Total(f), Order(events));
    DeliveredIff(Total(f), Order(events));
  }

  // One loss a group and all parity come is not enough: two packets, the
  // parity before the data.
  lemma EarlyParityStalls(s: Stream, f: Frame, events: seq<(Packet, Outcome)>)
    requires StreamOk(s) && f.id !in s.frames && 0 < |f.data| <= MAX_FRAME && FromWire(f, events) && WholeParity(events)
    requires Total(f) == 2 && Order(events) == EARLY_PARITY
    ensures Bearable(Total(f), {1}) && Deliver(s, events).log == s.log
  {
    DeliveredExactly(s, f, events);
    EarlyParityFails();
  }

  // Seven packets, the second group's parity held first.
  lemma OneLossEachStalls(s: Stream, f: Frame, events: seq<(Packet, Outcome)>)
    requires StreamOk(s) && f.id !in s.frames && 0 < |f.data| <= MAX_FRAME && FromWire(f, events) && WholeParity(events)
    requires Total(f) == 7 && Order(events) == SECOND_GROUP_FIRST
    ensures Bearable(Total(f), {4, 6}) && Deliver(s, events).log == s.log
  {
    DeliveredExactly(s, f, events);
    SecondGroupFirstFails();
  }

  // No memory is kept of finished frames: once delivered by the last of
  // `first`, a frame is delivered again exactly as often as what comes later
  // brings it together by itself.
  lemma LateCopiesReopen(s: Stream, f: Frame, first: seq<(Packet, Outcome)>, later: seq<(Packet, Outcome)>)
    requires StreamOk(s) && f.id !in s.frames && 0 < |f.data| <= MAX_FRAME
    requires FromWire(f, first + later) && WholeParity(first + later)
    requires var a := Order(first); Recoverable(Total(f), a, |a|) && forall t: nat :: t < |a| ==> !Recoverable(Total(f), a, t)
    ensures Shown(Deliver(s, first + later).log, s.log, f, 1 + Deliveries(Total(f), Order(later)))
  {
    DeliveredExactly(s, f, first + later);
    OrderSendable(f, first + later);
    OrderJoin(first, later);
    DeliveredAgain(Total(f), Order(first), Order(later));
  }

  lemma OrderJoin(first: seq<(Packet, Outcome)>, later: seq<(Packet, Outcome)>)
    ensures Order(first + later) == Order(first) + Order(later)
  {
  }
}
