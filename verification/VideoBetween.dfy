// What a packet does to the other frames in assembly, what reaches the
// decoder while a keyframe is awaited, and one frame's deliveries when other
// frames' packets come between its own.
module VideoBetween {
  import opened VideoPackets
  import opened VideoReceiver
  import opened VideoRuns
  import opened VideoOrder
  import opened VideoRecovery

  // ---- one packet ----

  // The step handed a frame over.
  predicate HandedOver(s: Stream, r: Stream) { |r.log| > |s.log| }

  // It decoded one.
  predicate DecodedOne(s: Stream, r: Stream)
  {
    HandedOver(s, r) && !r.log[|r.log| - 1].withheld && r.log[|r.log| - 1].outcome.Decoded?
  }

  // Frame `f` is just as it was.
  predicate Untouched(s: Stream, r: Stream, f: nat)
  {
    (f in r.frames <==> f in s.frames) && (f in s.frames ==> r.frames[f] == s.frames[f])
  }

  // At most five frames behind `g`.
  predicate InReach(f: nat, g: nat) { g <= f + 5 }

  // ---- what is counted ----

  // As many packets as the mask has.
  predicate Counted(s: Stream) { forall f :: f in s.frames ==> s.frames[f].received == Count(s.frames[f].mask) }

  lemma {:induction false} NoneSet(mask: seq<bool>)
    requires Count(mask) == 0
    ensures forall i :: 0 <= i < |mask| ==> !mask[i]
  {
    forall i | 0 <= i < |mask| ensures !mask[i] { if mask[i] { CountSome(mask, i); } }
  }

  lemma PreparedCounts(fb: FrameBuffer, p: Packet)
    requires p.Data? && fb.received == Count(fb.mask)
    ensures Prepared(fb, p).received == Count(Prepared(fb, p).mask)
  {
    if fb.received == 0 {
      NoneSet(fb.mask);
      CountNone(Prepared(fb, p).mask);
    }
  }

  lemma StoredCounts(fb: FrameBuffer, i: nat, bytes: seq<bv8>)
    requires WellFormed(fb) && i < fb.total && i * MAX_PAYLOAD + |bytes| <= |fb.data| && !fb.mask[i] && fb.received == Count(fb.mask)
    ensures Stored(fb, i, bytes).received == Count(Stored(fb, i, bytes).mask)
  {
    CountSet(fb.mask, i);
  }

  lemma RecoveredCounts(fb: FrameBuffer, g: FecGroup)
    requires WellFormed(fb) && |g.payload| == MAX_PAYLOAD && fb.received == Count(fb.mask)
    ensures Recovered(fb, g).received == Count(Recovered(fb, g).mask) && Recovered(fb, g).total == fb.total
  {
    var missing := Missing(fb.mask, g.start, GroupEnd(fb, g));
    if |missing| == 1 {
      assert missing[0] in missing;
      var size := FoldSizes(g.sizeXor, fb.sizes, g.start, GroupEnd(fb, g), missing[0]);
      if size <= MAX_PAYLOAD && missing[0] * MAX_PAYLOAD + size <= |fb.data| {
        StoredCounts(fb, missing[0], Rebuilt(fb, g, missing[0])[..size]);
      }
    }
  }

  lemma {:induction false} PassCounts(fb: FrameBuffer, groups: seq<FecGroup>)
    requires WellFormed(fb) && fb.received == Count(fb.mask) && forall i :: 0 <= i < |groups| ==> |groups[i].payload| == MAX_PAYLOAD
    ensures RecoveredAll(fb, groups).received == Count(RecoveredAll(fb, groups).mask)
    decreases |groups|
  {
    if groups != [] {
      PassCounts(fb, groups[..|groups| - 1]);
      RecoveredCounts(RecoveredAll(fb, groups[..|groups| - 1]), groups[|groups| - 1]);
    }
  }

  lemma AbsorbedCounts(fb: FrameBuffer, p: Packet)
    requires p.Data? && WellFormed(fb) && fb.received == Count(fb.mask)
    ensures Absorbed(fb, p).0.received == Count(Absorbed(fb, p).0.mask)
  {
    var stored := if IsNew(fb, p) then Stored(fb, p.index, p.payload) else fb;
    if IsNew(fb, p) { StoredCounts(fb, p.index, p.payload); }
    PassCounts(stored, stored.groups);
  }

  // ---- one packet's cases ----

  // The data handler's ways out: the frame dropped, finished, or kept on.
  lemma DataCases(s: Stream, p: Packet, outcome: Outcome) returns (kept: map<nat, FrameBuffer>, fb: FrameBuffer, done: bool, dropped: bool)
    requires p.Data? && StreamOk(s) && Counted(s)
    ensures KeptOf(s, kept, p.frameId)
    ensures WellFormed(fb) && fb.received == Count(fb.mask)
    ensures ReceiveData(s, p, outcome) ==
            if dropped then s.(frames := kept - {p.frameId})
            else if done then Finished(s.(frames := kept[p.frameId := fb]), fb, p.frameId, outcome)
            else s.(frames := kept[p.frameId := fb])
  {
    kept := Evicted(s.frames, p.frameId);
    var was := Prepared(BufferOf(kept, p.frameId), p);
    PreparedCounts(BufferOf(kept, p.frameId), p);
    if was.total != p.total {
      fb, done, dropped := NEW_BUFFER, false, true;
    } else {
      assert WellFormed(was);
      AbsorbedCounts(was, p);
      fb, done, dropped := Absorbed(was, p).0, Absorbed(was, p).1, false;
    }
  }

  // At most one frame is handed over, the packet's own, and what the decoder
  // made of it is noted.
  predicate OneMore(s: Stream, r: Stream, g: nat, outcome: Outcome)
  {
    r.log == s.log ||
      (|r.log| == |s.log| + 1 && r.log[..|s.log|] == s.log && r.log[|s.log|].frameId == g && r.log[|s.log|].outcome == outcome)
  }

  // What becomes of another frame, exactly.
  predicate Spared(s: Stream, r: Stream, f: nat, g: nat) { InReach(f, g) && !(DecodedOne(s, r) && f < g) }

  ghost predicate KeptOf(s: Stream, kept: map<nat, FrameBuffer>, g: nat)
  {
    (forall f :: f in kept <==> f in s.frames && InReach(f, g)) && forall f :: f in kept ==> kept[f] == s.frames[f]
  }

  lemma FinishCounts(s: Stream, fb: FrameBuffer, g: nat, outcome: Outcome)
    requires Counted(s) && fb.actualSize <= |fb.data|
    ensures Counted(Finished(s, fb, g, outcome)) && OneMore(s, Finished(s, fb, g, outcome), g, outcome)
    ensures HandedOver(s, Finished(s, fb, g, outcome))
  {
  }

  // Finishing takes the frame itself and, if it decoded, all before it.
  lemma FinishSpares(s: Stream, fb: FrameBuffer, g: nat, outcome: Outcome, f: nat)
    requires f != g && fb.actualSize <= |fb.data|
    ensures var r := Finished(s, fb, g, outcome);
            && (f in s.frames ==> (Untouched(s, r, f) <==> !(DecodedOne(s, r) && f < g)))
            && (f !in s.frames ==> Untouched(s, r, f))
  {
  }

  lemma AfterEviction(s: Stream, now: Stream, r: Stream, kept: map<nat, FrameBuffer>, f: nat, g: nat)
    requires KeptOf(s, kept, g) && f != g && now.log == s.log && (f in now.frames <==> f in kept) && (f in kept ==> now.frames[f] == kept[f])
    requires f in now.frames ==> (Untouched(now, r, f) <==> !(DecodedOne(now, r) && f < g))
    requires f !in now.frames ==> Untouched(now, r, f)
    ensures f in s.frames ==> (Untouched(s, r, f) <==> Spared(s, r, f, g))
    ensures f !in s.frames ==> Untouched(s, r, f)
  {
  }

  // A data packet leaves another frame alone exactly if it is at most five
  // behind, and if no later one was decoded by the packet.
  lemma DataSparesIff(s: Stream, p: Packet, outcome: Outcome, f: nat)
    requires p.Data? && StreamOk(s) && Counted(s) && f != p.frameId
    ensures var r := ReceiveData(s, p, outcome);
            && Counted(r) && OneMore(s, r, p.frameId, outcome)
            && (f in s.frames ==> (Untouched(s, r, f) <==> Spared(s, r, f, p.frameId)))
            && (f !in s.frames ==> Untouched(s, r, f))
  {
    var kept, fb, done, dropped := DataCases(s, p, outcome);
    var g := p.frameId;
    var now := if dropped then s.(frames := kept - {g}) else s.(frames := kept[g := fb]);
    var r := if !dropped && done then Finished(now, fb, g, outcome) else now;
    if !dropped && done {
      FinishCounts(now, fb, g, outcome);
      FinishSpares(now, fb, g, outcome, f);
    }
    AfterEviction(s, now, r, kept, f, g);
  }

  // A complete frame's buffer, met by a duplicate, is handed over.
  lemma DuplicateHandsOver(s: Stream, id: nat, outcome: Outcome)
    requires StreamOk(s) && Counted(s) && id in s.frames && s.frames[id].received == s.frames[id].total
    ensures var fb := s.frames[id];
            HandedOver(s, ReceiveData(s, Data(id, 0, fb.total, [], fb.isKeyframe, fb.codec), outcome))
  {
    var fb := s.frames[id];
    CountAll(fb.mask);
  }

  // The parity handler's: the frame unknown, kept on, or completed.
  lemma FecCases(s: Stream, p: Packet, outcome: Outcome) returns (next: Stream, done: bool)
    requires p.Fec? && StreamOk(s) && Counted(s) && |p.payload| == MAX_PAYLOAD
    ensures StreamOk(next) && Counted(next) && next.log == s.log && next.awaiting == s.awaiting
    ensures forall f :: f != p.frameId ==> Untouched(s, next, f)
    ensures done ==> p.frameId in next.frames && next.frames[p.frameId].received == next.frames[p.frameId].total
    ensures ReceiveFec(s, p, outcome) ==
            if done then
              var fb := next.frames[p.frameId];
              ReceiveData(next, Data(p.frameId, 0, fb.total, [], fb.isKeyframe, fb.codec), outcome)
            else next
  {
    if p.frameId !in s.frames {
      next, done := s, false;
    } else {
      var g := FecGroup(p.groupStart, p.groupCount, p.sizeXor, p.payload);
      var stored := s.frames[p.frameId].(groups := s.frames[p.frameId].groups + [g]);
      assert WellFormed(stored);
      RecoveredCounts(stored, g);
      var r := if stored.received < stored.total then Recovered(stored, g) else stored;
      next, done := s.(frames := s.frames[p.frameId := r]), r.received == r.total;
    }
  }

  lemma ThroughNext(s: Stream, next: Stream, r: Stream, f: nat, g: nat, outcome: Outcome)
    requires next.log == s.log && Untouched(s, next, f) && OneMore(next, r, g, outcome) && HandedOver(next, r)
    requires f in next.frames ==> (Untouched(next, r, f) <==> Spared(next, r, f, g))
    requires f !in next.frames ==> Untouched(next, r, f)
    ensures OneMore(s, r, g, outcome) && HandedOver(s, r)
    ensures f in s.frames ==> (Untouched(s, r, f) <==> Spared(s, r, f, g))
    ensures f !in s.frames ==> Untouched(s, r, f)
  {
  }

  // So does a parity packet, if it completes its frame; any other leaves
  // every other frame alone.
  lemma FecSparesIff(s: Stream, p: Packet, outcome: Outcome, f: nat)
    requires p.Fec? && StreamOk(s) && Counted(s) && |p.payload| == MAX_PAYLOAD && f != p.frameId
    ensures var r := ReceiveFec(s, p, outcome);
            && Counted(r) && OneMore(s, r, p.frameId, outcome)
            && (f in s.frames ==> (Untouched(s, r, f) <==> !HandedOver(s, r) || Spared(s, r, f, p.frameId)))
            && (f !in s.frames ==> Untouched(s, r, f))
  {
    var next, done := FecCases(s, p, outcome);
    if done {
      var fb := next.frames[p.frameId];
      var again := Data(p.frameId, 0, fb.total, [], fb.isKeyframe, fb.codec);
      DataSparesIff(next, again, outcome, f);
      DuplicateHandsOver(next, p.frameId, outcome);
      ThroughNext(s, next, ReceiveData(next, again, outcome), f, p.frameId, outcome);
    }
  }

  // A packet that does not agree with the first on the number of packets
  // costs the frame what came of it.
  lemma MismatchDrops(s: Stream, p: Packet, outcome: Outcome)
    requires p.Data? && StreamOk(s) && p.frameId in s.frames
    requires s.frames[p.frameId].received > 0 && p.total != s.frames[p.frameId].total
    ensures var r := ReceiveData(s, p, outcome); p.frameId !in r.frames && r.log == s.log
  {
  }

  // ---- one frame's deliveries among other frames' packets ----

  // What the log says of one frame.
  function For(log: seq<Completed>, f: nat): seq<Completed>
  {
    if log == [] then []
    else
      var last := |log| - 1;
      For(log[..last], f) + if log[last].frameId == f then [log[last]] else []
  }

  // Its packets among all that arrive.
  function Own(events: seq<(Packet, Outcome)>, f: nat): seq<(Packet, Outcome)>
  {
    if events == [] then [] else (if events[0].0.frameId == f then [events[0]] else []) + Own(events[1..], f)
  }

  // While frame `f` is in assembly, the packet is of a frame at most five
  // ahead (or parity that completes none) and decodes no later frame.
  ghost predicate Spares(s: Stream, p: Packet, outcome: Outcome, f: nat)
    requires StreamOk(s) && (p.Fec? ==> |p.payload| == MAX_PAYLOAD)
  {
    var r := Receive(s, p, outcome);
    f in s.frames ==> (p.Fec? && !HandedOver(s, r)) || Spared(s, r, f, p.frameId)
  }

  // Which is exactly when it leaves the frame's buffer as it is.
  lemma SparesIff(s: Stream, p: Packet, outcome: Outcome, f: nat)
    requires StreamOk(s) && Counted(s) && (p.Fec? ==> |p.payload| == MAX_PAYLOAD) && f != p.frameId
    ensures Spares(s, p, outcome, f) <==> Untouched(s, Receive(s, p, outcome), f)
    ensures Counted(Receive(s, p, outcome)) && OneMore(s, Receive(s, p, outcome), p.frameId, outcome)
  {
    if p.Data? { DataSparesIff(s, p, outcome, f); } else { FecSparesIff(s, p, outcome, f); }
  }

  // So it is all along the run.
  ghost predicate Undisturbed(s: Stream, events: seq<(Packet, Outcome)>, f: nat)
    requires StreamOk(s) && WholeParity(events)
    decreases |events|
  {
    events == [] ||
      ((events[0].0.frameId == f || Spares(s, events[0].0, events[0].1, f))
       && Undisturbed(Receive(s, events[0].0, events[0].1), events[1..], f))
  }

  lemma ForMore(s: Stream, r: Stream, f: nat, g: nat, outcome: Outcome)
    requires OneMore(s, r, g, outcome) && f != g
    ensures For(r.log, f) == For(s.log, f)
  {
  }

  lemma ForShown(s: Stream, r: Stream, f: Frame)
    requires Shown(r.log, s.log, f, 1)
    ensures Shown(For(r.log, f.id), For(s.log, f.id), f, 1)
  {
  }

  // A packet of another frame that spares this one changes nothing for it.
  lemma OthersPass(s: Stream, f: Frame, m: Assembly, p: Packet, outcome: Outcome)
    requires StreamOk(s) && Counted(s) && (p.Fec? ==> |p.payload| == MAX_PAYLOAD) && f.id != p.frameId
    requires Keeps(s, f, m) && Spares(s, p, outcome, f.id)
    ensures var r := Receive(s, p, outcome); Keeps(r, f, m) && Counted(r) && For(r.log, f.id) == For(s.log, f.id)
  {
    SparesIff(s, p, outcome, f.id);
    ForMore(s, Receive(s, p, outcome), f.id, p.frameId, outcome);
  }

  lemma ReceiveCounts(s: Stream, p: Packet, outcome: Outcome)
    requires StreamOk(s) && Counted(s) && (p.Fec? ==> |p.payload| == MAX_PAYLOAD)
    ensures Counted(Receive(s, p, outcome))
  {
    SparesIff(s, p, outcome, p.frameId + 1);
  }

  // The frame's own packets are ones its sender sent.
  ghost predicate OwnWasSent(f: Frame, events: seq<(Packet, Outcome)>)
  {
    forall j :: 0 <= j < |events| && events[j].0.frameId == f.id ==> events[j].0 in Wire(f)
  }

  lemma OwnMoves(s: Stream, f: Frame, m: Assembly, p: Packet, outcome: Outcome, next: Assembly)
    requires 0 < |f.data| <= MAX_FRAME && p in Wire(f) && (p.Fec? ==> |p.payload| == MAX_PAYLOAD)
    requires Keeps(s, f, m) && Waits(Total(f), m) && next == Step(Total(f), m, ArrivalOf(p))
    ensures Moves(s, Receive(s, p, outcome), f, next) && (Complete(Total(f), next) || Waits(Total(f), next))
  {
    WireArrives(f, 0, 0);
    PacketMoves(s, f, m, p, outcome);
    StepWaits(Total(f), m, ArrivalOf(p));
  }

  lemma OrderCons(e: (Packet, Outcome), rest: seq<(Packet, Outcome)>)
    ensures Order([e] + rest) == [ArrivalOf(e.0)] + Order(rest)
  {
  }

  lemma OwnFirst(events: seq<(Packet, Outcome)>, f: nat)
    requires events != []
    ensures Order(Own(events, f)) ==
            if events[0].0.frameId == f then [ArrivalOf(events[0].0)] + Order(Own(events[1..], f)) else Order(Own(events[1..], f))
  {
    var e, rest := events[0], Own(events[1..], f);
    if e.0.frameId == f {
      OrderCons(e, rest);
    } else {
      assert [] + rest == rest;
    }
  }

  lemma RestOfRun(s: Stream, f: Frame, events: seq<(Packet, Outcome)>)
    requires StreamOk(s) && WholeParity(events) && OwnWasSent(f, events) && Undisturbed(s, events, f.id) && events != []
    ensures WholeParity(events[1..]) && OwnWasSent(f, events[1..])
    ensures var r := Receive(s, events[0].0, events[0].1);
            Undisturbed(r, events[1..], f.id) && Deliver(s, events) == Deliver(r, events[1..])
  {
  }

  lemma OwnTally(n: nat, m: Assembly, x: Arrival, rest: seq<Arrival>)
    ensures var next := Step(n, m, x);
            Tally(n, m, [x] + rest) == if Complete(n, next) then 1 + Tally(n, NOTHING, rest) else Tally(n, next, rest)
  {
    assert ([x] + rest)[1..] == rest;
  }

  lemma {:induction false} TalliedAmongOthers(s: Stream, f: Frame, m: Assembly, events: seq<(Packet, Outcome)>)
    requires 0 < |f.data| <= MAX_FRAME && StreamOk(s) && Counted(s) && WholeParity(events)
    requires OwnWasSent(f, events) && Undisturbed(s, events, f.id) && Keeps(s, f, m) && Waits(Total(f), m)
    ensures Shown(For(Deliver(s, events).log, f.id), For(s.log, f.id), f, Tally(Total(f), m, Order(Own(events, f.id))))
    decreases |events|
  {
    if events != [] {
      var rest, p, outcome := events[1..], events[0].0, events[0].1;
      var r := Receive(s, p, outcome);
      RestOfRun(s, f, events);
      OwnFirst(events, f.id);
      ReceiveCounts(s, p, outcome);
      if p.frameId == f.id {
        var next := Step(Total(f), m, ArrivalOf(p));
        OwnMoves(s, f, m, p, outcome, next);
        NothingWaits(Total(f));
        TalliedAmongOthers(r, f, if Complete(Total(f), next) then NOTHING else next, rest);
        OwnShown(s, r, f, m, ArrivalOf(p), next, Order(Own(rest, f.id)), For(Deliver(r, rest).log, f.id));
      } else {
        OthersPass(s, f, m, p, outcome);
        TalliedAmongOthers(r, f, m, rest);
      }
    }
  }

  lemma OwnShown(s: Stream, r: Stream, f: Frame, m: Assembly, x: Arrival, next: Assembly, order: seq<Arrival>, log: seq<Completed>)
    requires next == Step(Total(f), m, x) && Moves(s, r, f, next)
    requires Shown(log, For(r.log, f.id), f, Tally(Total(f), if Complete(Total(f), next) then NOTHING else next, order))
    ensures Shown(log, For(s.log, f.id), f, Tally(Total(f), m, [x] + order))
  {
    OwnTally(Total(f), m, x, order);
    if Complete(Total(f), next) {
      ForShown(s, r, f);
      ShownMore(For(s.log, f.id), For(r.log, f.id), log, f, 1, Tally(Total(f), NOTHING, order));
    }
  }

  // A receiver that has nothing of a frame, given the frame's packets in any
  // order, with losses and repetitions, among whatever packets of other frames
  // that leave its buffer alone, delivers the frame exactly as often as the
  // order of its own packets says, each time with its bytes.
  lemma DeliveredAmongOthers(s: Stream, f: Frame, events: seq<(Packet, Outcome)>)
    requires StreamOk(s) && Counted(s) && f.id !in s.frames && 0 < |f.data| <= MAX_FRAME
    requires WholeParity(events) && OwnWasSent(f, events) && Undisturbed(s, events, f.id)
    ensures Shown(For(Deliver(s, events).log, f.id), For(s.log, f.id), f, Deliveries(Total(f), Order(Own(events, f.id))))
  {
    OwnSendable(f, events);
    NothingWaits(Total(f));
    TalliedAmongOthers(s, f, NOTHING, events);
    TallyIsDeliveries(Total(f), Order(Own(events, f.id)));
  }

  lemma {:induction false} OwnSendable(f: Frame, events: seq<(Packet, Outcome)>)
    requires |f.data| <= MAX_FRAME && OwnWasSent(f, events)
    ensures AllSendable(Total(f), Order(Own(events, f.id)))
  {
    if events != [] {
      OwnSendable(f, events[1..]);
      OwnFirst(events, f.id);
      WireArrives(f, 0, 0);
    }
  }

  // ---- while a keyframe is awaited ----

  // The decoder was given the frame and could not use it: from then on it
  // needs a keyframe.
  predicate Fails(e: Completed) { !e.withheld && (e.outcome.DecodeFailed? || (e.outcome.NoPicture? && !e.isKeyframe)) }

  // It was given a keyframe and decoded it.
  predicate Clears(e: Completed) { !e.withheld && e.isKeyframe && e.outcome.Decoded? }

  // A keyframe is needed and none was decoded since.
  ghost predicate Owed(log: seq<Completed>)
  {
    exists i :: 0 <= i < |log| && Fails(log[i]) && forall j :: i < j < |log| ==> !Clears(log[j])
  }

  ghost predicate AwaitInv(s: Stream)
  {
    && (s.awaiting <==> Owed(s.log))
    && forall j :: 0 <= j < |s.log| ==> (s.log[j].withheld <==> Owed(s.log[..j]) && !s.log[j].isKeyframe)
  }

  lemma OwedMore(log: seq<Completed>, e: Completed)
    ensures Owed(log + [e]) <==> Fails(e) || (Owed(log) && !Clears(e))
  {
    var more := log + [e];
    if Owed(more) {
      var i :| 0 <= i < |more| && Fails(more[i]) && forall j :: i < j < |more| ==> !Clears(more[j]);
      if i < |log| {
        assert Fails(log[i]) && !Clears(more[|log|]);
        assert forall j :: i < j < |log| ==> log[j] == more[j];
      }
    }
    if Fails(e) { assert Fails(more[|log|]); }
    if Owed(log) && !Clears(e) {
      var i :| 0 <= i < |log| && Fails(log[i]) && forall j :: i < j < |log| ==> !Clears(log[j]);
      assert Fails(more[i]);
    }
  }

  lemma LogMore(log: seq<Completed>, e: Completed)
    requires forall j :: 0 <= j < |log| ==> (log[j].withheld <==> Owed(log[..j]) && !log[j].isKeyframe)
    requires e.withheld <==> Owed(log) && !e.isKeyframe
    ensures var more := log + [e]; forall j :: 0 <= j < |more| ==> (more[j].withheld <==> Owed(more[..j]) && !more[j].isKeyframe)
  {
    var more := log + [e];
    forall j | 0 <= j < |more| ensures more[j].withheld <==> Owed(more[..j]) && !more[j].isKeyframe {
      assert more[..j] == log[..j];
      if j == |log| { assert log[..j] == log; }
    }
  }

  lemma FinishAwaits(s: Stream, fb: FrameBuffer, g: nat, outcome: Outcome)
    requires AwaitInv(s) && fb.actualSize <= |fb.data|
    ensures AwaitInv(Finished(s, fb, g, outcome))
  {
    var r := Finished(s, fb, g, outcome);
    var e := r.log[|s.log|];
    OwedMore(s.log, e);
    LogMore(s.log, e);
  }

  lemma ReceiveAwaits(s: Stream, p: Packet, outcome: Outcome)
    requires StreamOk(s) && Counted(s) && (p.Fec? ==> |p.payload| == MAX_PAYLOAD) && AwaitInv(s)
    ensures AwaitInv(Receive(s, p, outcome))
  {
    if p.Data? {
      DataAwaits(s, p, outcome);
    } else {
      var next, done := FecCases(s, p, outcome);
      if done {
        var fb := next.frames[p.frameId];
        DataAwaits(next, Data(p.frameId, 0, fb.total, [], fb.isKeyframe, fb.codec), outcome);
      }
    }
  }

  lemma DataAwaits(s: Stream, p: Packet, outcome: Outcome)
    requires p.Data? && StreamOk(s) && Counted(s) && AwaitInv(s)
    ensures AwaitInv(ReceiveData(s, p, outcome))
  {
    var kept, fb, done, dropped := DataCases(s, p, outcome);
    if !dropped && done { FinishAwaits(s.(frames := kept[p.frameId := fb]), fb, p.frameId, outcome); }
  }

  // Over any run, a frame is withheld from the decoder exactly if it is a
  // delta frame and, since the decoder last failed, no keyframe was decoded.
  lemma {:induction false} WithheldIff(s: Stream, events: seq<(Packet, Outcome)>)
    requires StreamOk(s) && Counted(s) && WholeParity(events) && AwaitInv(s)
    ensures AwaitInv(Deliver(s, events))
    decreases |events|
  {
    if events != [] {
      ReceiveAwaits(s, events[0].0, events[0].1);
      ReceiveCounts(s, events[0].0, events[0].1);
      WithheldIff(Receive(s, events[0].0, events[0].1), events[1..]);
    }
  }

  // A receiver that has seen nothing is in such a state.
  lemma FreshReceiver()
    ensures var s := Stream(map[], false, []); StreamOk(s) && Counted(s) && AwaitInv(s)
  {
  }
}
