// Exactly which orders of arrival bring a frame together: which data packets
// and parity packets came, in what order, and how often.
module VideoOrder {
  import opened VideoPackets

  // One arriving packet of a frame: its data packet `i`, or the parity of its
  // `k`-th group of five.
  datatype Arrival = DataAt(i: nat) | ParityFor(k: nat)

  function GroupOf(i: nat): nat { i / GROUP_SIZE }

  predicate InGroup(n: nat, k: nat, i: nat) { i < n && GroupOf(i) == k }

  // What a frame of `n` packets sends; a trailing group of one has no parity.
  predicate Sendable(n: nat, x: Arrival)
  {
    match x
    case DataAt(i) => i < n
    case ParityFor(k) => k * GROUP_SIZE + 1 < n
  }

  predicate AllSendable(n: nat, a: seq<Arrival>) { forall x :: x in a ==> Sendable(n, x) }

  // ---- the condition, on the order alone ----

  // The data packets among the first `t` arrivals.
  function Arrived(a: seq<Arrival>, t: nat): set<nat>
    requires t <= |a|
  {
    if t == 0 then {} else Arrived(a, t - 1) + if a[t - 1].DataAt? then {a[t - 1].i} else {}
  }

  // The groups with a parity packet among the first `t`, after a data packet.
  function Held(a: seq<Arrival>, t: nat): set<nat>
    requires t <= |a|
  {
    if t == 0 then {} else Held(a, t - 1) + if a[t - 1].ParityFor? && Arrived(a, t - 1) != {} then {a[t - 1].k} else {}
  }

  // Of group `k` exactly packet `m` is not in `have`.
  ghost predicate Gap(n: nat, have: set<nat>, k: nat, m: nat)
  {
    InGroup(n, k, m) && m !in have && forall j :: InGroup(n, k, j) && j != m ==> j in have
  }

  ghost predicate OneShort(n: nat, have: set<nat>, k: nat) { exists m: nat :: Gap(n, have, k, m) }

  // Arrival `t` is a new data packet that leaves its group, whose parity is
  // held, one short.
  ghost predicate Trigger(n: nat, a: seq<Arrival>, t: nat)
  {
    && t < |a| && a[t].DataAt? && a[t].i !in Arrived(a, t)
    && GroupOf(a[t].i) in Held(a, t) && OneShort(n, Arrived(a, t + 1), GroupOf(a[t].i))
  }

  ghost predicate Triggered(n: nat, a: seq<Arrival>, t: nat) { exists u :: 0 <= u < t && Trigger(n, a, u) }

  // The group of packet `m` has come but for `m` itself.
  ghost predicate OthersBy(n: nat, a: seq<Arrival>, t: nat, m: nat)
    requires t <= |a|
  {
    forall j :: InGroup(n, GroupOf(m), j) && j != m ==> j in Arrived(a, t)
  }

  // Arrival `l` is a new data packet of the group of `m`, its last but `m`.
  ghost predicate LastOther(n: nat, a: seq<Arrival>, l: nat, m: nat)
    requires l < |a|
  {
    a[l].DataAt? && GroupOf(a[l].i) == GroupOf(m) && a[l].i !in Arrived(a, l) && OthersBy(n, a, l + 1, m)
  }

  // A copy of the parity of the group of `m`, coming after a data packet of
  // the frame, comes after all the group's other data; or it comes earlier,
  // and no trigger comes before the last of that data.
  ghost predicate MadeGood(n: nat, a: seq<Arrival>, t: nat, m: nat)
    requires t <= |a|
  {
    exists c :: 0 <= c < t && a[c] == ParityFor(GroupOf(m)) && Arrived(a, c) != {} &&
                (OthersBy(n, a, c, m) || exists l :: c < l < t && LastOther(n, a, l, m) && !Triggered(n, a, l))
  }

  // Every data packet came or was made good.
  ghost predicate Recoverable(n: nat, a: seq<Arrival>, t: nat)
    requires t <= |a|
  {
    forall m :: 0 <= m < n ==> m in Arrived(a, t) || MadeGood(n, a, t, m)
  }

  // ---- what the receiver keeps of it ----

  // The packets in the buffer, received or rebuilt; the groups whose parity is
  // stored; the flag that ends recovery on the data path. No packets is no
  // buffer.
  datatype Assembly = Assembly(have: set<nat>, held: set<nat>, latched: bool)

  const NOTHING := Assembly({}, {}, false)

  function Filled(n: nat, have: set<nat>, k: nat): set<nat> { have + set i | 0 <= i < n && InGroup(n, k, i) }

  ghost function Step(n: nat, m: Assembly, x: Arrival): Assembly
  {
    match x
    case DataAt(i) =>
      if i in m.have then m
      else
        var have := m.have + {i};
        if !m.latched && GroupOf(i) in m.held && OneShort(n, have, GroupOf(i))
        then Assembly(Filled(n, have, GroupOf(i)), m.held, true)
        else m.(have := have)
    case ParityFor(k) =>
      if m.have == {} then m
      else m.(have := if OneShort(n, m.have, k) then Filled(n, m.have, k) else m.have, held := m.held + {k})
  }

  ghost function Stepping(n: nat): (Assembly, Arrival) -> Assembly
  {
    (m: Assembly, x: Arrival) => Step(n, m, x)
  }

  ghost function State(n: nat, a: seq<Arrival>, t: nat): Assembly
    requires t <= |a|
  {
    RunOf(Stepping(n), NOTHING, a, t)
  }

  predicate Complete(n: nat, m: Assembly) { forall i :: 0 <= i < n ==> i in m.have }

  ghost function Full(n: nat): Assembly -> bool { (m: Assembly) => Complete(n, m) }

  // ---- they agree ----

  // Arrival `c` makes good the one loss of group `k`.
  ghost predicate RescuedAt(n: nat, a: seq<Arrival>, c: nat, k: nat)
    requires c < |a|
  {
    match a[c]
    case ParityFor(g) => g == k && Arrived(a, c) != {} && OneShort(n, Arrived(a, c), k)
    case DataAt(i) => GroupOf(i) == k && Trigger(n, a, c) && !Triggered(n, a, c)
  }

  ghost predicate Rescued(n: nat, a: seq<Arrival>, t: nat, k: nat)
    requires t <= |a|
  {
    exists c :: 0 <= c < t && RescuedAt(n, a, c, k)
  }

  ghost predicate Has(n: nat, m: Assembly, a: seq<Arrival>, t: nat)
    requires t <= |a|
  {
    forall i: nat :: i in m.have <==> i < n && (i in Arrived(a, t) || Rescued(n, a, t, GroupOf(i)))
  }

  // Of a group made good at most one packet never came.
  ghost predicate AtMostOneLost(n: nat, a: seq<Arrival>, t: nat)
    requires t <= |a|
  {
    forall i, j :: InGroup(n, GroupOf(i), i) && InGroup(n, GroupOf(i), j) && Rescued(n, a, t, GroupOf(i)) ==>
      i in Arrived(a, t) || j in Arrived(a, t) || i == j
  }

  // No stored parity is left that could be used.
  ghost predicate Settled(n: nat, m: Assembly) { !m.latched ==> forall k :: k in m.held ==> !OneShort(n, m.have, k) }

  ghost predicate Tracks(n: nat, m: Assembly, a: seq<Arrival>, t: nat)
    requires t <= |a|
  {
    && Has(n, m, a, t) && AtMostOneLost(n, a, t)
    && m.held == Held(a, t) && (m.have == {} <==> Arrived(a, t) == {})
    && (m.latched <==> Triggered(n, a, t)) && Settled(n, m)
  }

  lemma RescuedMore(n: nat, a: seq<Arrival>, t: nat, k: nat)
    requires t < |a|
    ensures Rescued(n, a, t + 1, k) <==> Rescued(n, a, t, k) || RescuedAt(n, a, t, k)
  {
  }

  // Sets that agree on a group are short there alike.
  lemma SameShort(n: nat, x: set<nat>, y: set<nat>, k: nat)
    requires forall j :: InGroup(n, k, j) ==> (j in x <==> j in y)
    ensures OneShort(n, x, k) <==> OneShort(n, y, k)
  {
    if m: nat :| Gap(n, x, k, m) { assert Gap(n, y, k, m); }
    if m: nat :| Gap(n, y, k, m) { assert Gap(n, x, k, m); }
  }

  // The machine's data path fires exactly at the triggers.
  lemma FiresAtTriggers(n: nat, m: Assembly, a: seq<Arrival>, t: nat)
    requires t < |a| && Tracks(n, m, a, t) && a[t].DataAt? && a[t].i < n
    ensures var i := a[t].i;
            Trigger(n, a, t) <==> i !in m.have && GroupOf(i) in m.held && OneShort(n, m.have + {i}, GroupOf(i))
  {
    var i := a[t].i;
    var k := GroupOf(i);
    if i in m.have {
      if i !in Arrived(a, t) {
        assert InGroup(n, k, i) && Rescued(n, a, t, k);
        forall j | InGroup(n, k, j) ensures j in Arrived(a, t + 1) {}
      }
    } else {
      assert !Rescued(n, a, t, k);
      SameShort(n, m.have + {i}, Arrived(a, t + 1), k);
    }
  }

  lemma TriggeredMore(n: nat, a: seq<Arrival>, t: nat)
    requires t < |a|
    ensures Triggered(n, a, t + 1) <==> Triggered(n, a, t) || Trigger(n, a, t)
  {
  }

  // A packet already here changes nothing.
  lemma DuplicateTracks(n: nat, m: Assembly, a: seq<Arrival>, t: nat)
    requires t < |a| && Tracks(n, m, a, t) && a[t].DataAt? && a[t].i in m.have
    ensures Tracks(n, m, a, t + 1)
  {
    FiresAtTriggers(n, m, a, t);
    TriggeredMore(n, a, t);
    forall k ensures Rescued(n, a, t + 1, k) <==> Rescued(n, a, t, k) { RescuedMore(n, a, t, k); }
  }

  // A new packet that no stored parity answers to.
  lemma NewTracks(n: nat, m: Assembly, a: seq<Arrival>, t: nat)
    requires t < |a| && Tracks(n, m, a, t) && a[t].DataAt? && a[t].i < n && a[t].i !in m.have
    requires m.latched || !Trigger(n, a, t)
    ensures Tracks(n, m.(have := m.have + {a[t].i}), a, t + 1)
  {
    var i, r := a[t].i, m.(have := m.have + {a[t].i});
    FiresAtTriggers(n, m, a, t);
    TriggeredMore(n, a, t);
    forall k ensures Rescued(n, a, t + 1, k) <==> Rescued(n, a, t, k) { RescuedMore(n, a, t, k); }
    if !m.latched {
      forall k | k in m.held ensures !OneShort(n, r.have, k) {
        if k != GroupOf(i) { SameShort(n, m.have, r.have, k); }
      }
    }
  }

  // The first trigger: the group is made good, and the flag set.
  lemma FiringTracks(n: nat, m: Assembly, a: seq<Arrival>, t: nat)
    requires t < |a| && Tracks(n, m, a, t) && !m.latched && Trigger(n, a, t) && a[t].i < n
    ensures Tracks(n, Assembly(Filled(n, m.have + {a[t].i}, GroupOf(a[t].i)), m.held, true), a, t + 1)
  {
    TriggeredMore(n, a, t);
    FiringRescues(n, a, t);
    RescuedLost(n, a, t, GroupOf(a[t].i));
    FilledHas(n, m, a, t);
  }

  lemma FiringRescues(n: nat, a: seq<Arrival>, t: nat)
    requires !Triggered(n, a, t) && Trigger(n, a, t)
    ensures forall g :: Rescued(n, a, t + 1, g) <==> Rescued(n, a, t, g) || g == GroupOf(a[t].i)
  {
    forall g ensures Rescued(n, a, t + 1, g) <==> Rescued(n, a, t, g) || g == GroupOf(a[t].i) { RescuedMore(n, a, t, g); }
  }

  lemma FilledHas(n: nat, m: Assembly, a: seq<Arrival>, t: nat)
    requires t < |a| && Has(n, m, a, t) && a[t].DataAt? && a[t].i < n
    requires forall g :: Rescued(n, a, t + 1, g) <==> Rescued(n, a, t, g) || g == GroupOf(a[t].i)
    ensures Has(n, Assembly(Filled(n, m.have + {a[t].i}, GroupOf(a[t].i)), m.held, true), a, t + 1)
  {
  }

  // A group that becomes rescued is one short just then.
  lemma RescuedLost(n: nat, a: seq<Arrival>, t: nat, k: nat)
    requires t < |a| && AtMostOneLost(n, a, t) && OneShort(n, Arrived(a, t + 1), k)
    requires forall g :: Rescued(n, a, t + 1, g) ==> Rescued(n, a, t, g) || g == k
    ensures AtMostOneLost(n, a, t + 1)
  {
    forall i, j | InGroup(n, GroupOf(i), i) && InGroup(n, GroupOf(i), j) && Rescued(n, a, t + 1, GroupOf(i))
      ensures i in Arrived(a, t + 1) || j in Arrived(a, t + 1) || i == j
    {
      if GroupOf(i) == k { OneLost(n, Arrived(a, t + 1), k, i, j); }
    }
  }

  lemma OneLost(n: nat, have: set<nat>, k: nat, i: nat, j: nat)
    requires OneShort(n, have, k) && InGroup(n, k, i) && InGroup(n, k, j)
    ensures i in have || j in have || i == j
  {
  }

  // The machine never leaves a stored parity that could be used.
  lemma StepSettles(n: nat, m: Assembly, x: Arrival)
    requires Settled(n, m)
    ensures Settled(n, Step(n, m, x))
  {
    var next := Step(n, m, x);
    if !next.latched {
      forall k | k in next.held ensures !OneShort(n, next.have, k) {
        if k != if x.DataAt? then GroupOf(x.i) else x.k { SameShort(n, m.have, next.have, k); }
      }
    }
  }

  // Parity of a group already made good is stored.
  lemma ParityAgain(n: nat, m: Assembly, a: seq<Arrival>, t: nat)
    requires t < |a| && Tracks(n, m, a, t) && a[t].ParityFor? && m.have != {} && !OneShort(n, m.have, a[t].k)
    requires forall g :: Rescued(n, a, t + 1, g) <==> Rescued(n, a, t, g)
    requires Triggered(n, a, t + 1) <==> Triggered(n, a, t)
    ensures Tracks(n, m.(held := m.held + {a[t].k}), a, t + 1)
  {
  }

  // Parity of a group one short makes it good.
  lemma ParityFills(n: nat, m: Assembly, a: seq<Arrival>, t: nat)
    requires t < |a| && Tracks(n, m, a, t) && a[t].ParityFor? && m.have != {}
    requires OneShort(n, m.have, a[t].k) && OneShort(n, Arrived(a, t), a[t].k)
    requires forall g :: Rescued(n, a, t + 1, g) <==> Rescued(n, a, t, g) || g == a[t].k
    requires Triggered(n, a, t + 1) <==> Triggered(n, a, t)
    ensures Tracks(n, m.(have := Filled(n, m.have, a[t].k), held := m.held + {a[t].k}), a, t + 1)
  {
    var r := m.(have := Filled(n, m.have, a[t].k), held := m.held + {a[t].k});
    RescuedLost(n, a, t, a[t].k);
    if !m.latched {
      forall g | g in r.held ensures !OneShort(n, r.have, g) {
        if g != a[t].k { SameShort(n, m.have, r.have, g); }
      }
    }
  }

  lemma ParityTracks(n: nat, m: Assembly, a: seq<Arrival>, t: nat)
    requires t < |a| && Tracks(n, m, a, t) && a[t].ParityFor? && m.have != {}
    ensures Tracks(n, Step(n, m, a[t]), a, t + 1)
  {
    var k := a[t].k;
    TriggeredMore(n, a, t);
    ParityRescues(n, m, a, t);
    if OneShort(n, m.have, k) { ParityFills(n, m, a, t); } else { ParityAgain(n, m, a, t); }
  }

  // What a parity packet adds to the groups made good.
  lemma ParityRescues(n: nat, m: Assembly, a: seq<Arrival>, t: nat)
    requires t < |a| && Tracks(n, m, a, t) && a[t].ParityFor? && m.have != {}
    ensures OneShort(n, m.have, a[t].k) ==> OneShort(n, Arrived(a, t), a[t].k)
    ensures forall g :: Rescued(n, a, t + 1, g) <==> Rescued(n, a, t, g) || (g == a[t].k && OneShort(n, m.have, a[t].k))
  {
    var k := a[t].k;
    if !Rescued(n, a, t, k) { SameShort(n, m.have, Arrived(a, t), k); }
    forall g ensures Rescued(n, a, t + 1, g) <==> Rescued(n, a, t, g) || (g == k && OneShort(n, m.have, k)) {
      RescuedMore(n, a, t, g);
    }
  }

  lemma StepTracks(n: nat, m: Assembly, a: seq<Arrival>, t: nat)
    requires t < |a| && Tracks(n, m, a, t) && Sendable(n, a[t])
    ensures Tracks(n, Step(n, m, a[t]), a, t + 1)
  {
    if a[t].DataAt? {
      FiresAtTriggers(n, m, a, t);
      if a[t].i in m.have { DuplicateTracks(n, m, a, t); }
      else if !m.latched && Trigger(n, a, t) { FiringTracks(n, m, a, t); }
      else { NewTracks(n, m, a, t); }
    } else if m.have != {} {
      ParityTracks(n, m, a, t);
    } else {
      TriggeredMore(n, a, t);
      forall k ensures Rescued(n, a, t + 1, k) <==> Rescued(n, a, t, k) { RescuedMore(n, a, t, k); }
    }
  }

  ghost function Tracking(n: nat, a: seq<Arrival>): (Assembly, nat) -> bool
  {
    (m: Assembly, t: nat) => t <= |a| && Tracks(n, m, a, t)
  }

  lemma StepsTrack(n: nat, a: seq<Arrival>)
    requires AllSendable(n, a)
    ensures forall m, t: nat :: t < |a| && Tracking(n, a)(m, t) ==> Tracking(n, a)(Stepping(n)(m, a[t]), t + 1)
  {
    forall m, t: nat | t < |a| && Tracking(n, a)(m, t) ensures Tracking(n, a)(Stepping(n)(m, a[t]), t + 1) {
      StepTracks(n, m, a, t);
    }
  }

  lemma StateTracks(n: nat, a: seq<Arrival>, t: nat)
    requires t <= |a| && AllSendable(n, a)
    ensures Tracking(n, a)(State(n, a, t), t)
  {
    StepsTrack(n, a);
    NothingTracks(n, a);
    RunKeeps(Stepping(n), NOTHING, Tracking(n, a), a, t);
  }

  lemma NothingTracks(n: nat, a: seq<Arrival>)
    ensures Tracking(n, a)(NOTHING, 0)
  {
  }

  lemma {:induction false} ArrivedStays(a: seq<Arrival>, t: nat, u: nat)
    requires t <= u <= |a|
    ensures Arrived(a, t) <= Arrived(a, u)
    decreases u
  {
    if t < u { ArrivedStays(a, t, u - 1); }
  }

  lemma {:induction false} HeldIff(a: seq<Arrival>, t: nat, k: nat)
    requires t <= |a|
    ensures k in Held(a, t) <==> exists c :: 0 <= c < t && a[c] == ParityFor(k) && Arrived(a, c) != {}
  {
    if t > 0 { HeldIff(a, t - 1, k); }
  }

  lemma MissesOne(n: nat, have: set<nat>, m: nat)
    requires m < n && m !in have
    ensures OneShort(n, have, GroupOf(m)) <==> forall j :: InGroup(n, GroupOf(m), j) && j != m ==> j in have
  {
    assert InGroup(n, GroupOf(m), m);
    if forall j :: InGroup(n, GroupOf(m), j) && j != m ==> j in have { assert Gap(n, have, GroupOf(m), m); }
  }

  // The parity came last.
  lemma ParityRescuesLate(n: nat, a: seq<Arrival>, c: nat, t: nat, m: nat)
    requires c < t <= |a| && m < n && m !in Arrived(a, t)
    requires a[c] == ParityFor(GroupOf(m)) && Arrived(a, c) != {} && OthersBy(n, a, c, m)
    ensures RescuedAt(n, a, c, GroupOf(m))
  {
    ArrivedStays(a, c, t);
    MissesOne(n, Arrived(a, c), m);
  }

  // The parity was held.
  lemma LastOtherRescues(n: nat, a: seq<Arrival>, c: nat, l: nat, t: nat, m: nat)
    requires c < l < t <= |a| && m < n && m !in Arrived(a, t)
    requires a[c] == ParityFor(GroupOf(m)) && Arrived(a, c) != {} && LastOther(n, a, l, m) && !Triggered(n, a, l)
    ensures RescuedAt(n, a, l, GroupOf(m))
  {
    ArrivedStays(a, l + 1, t);
    MissesOne(n, Arrived(a, l + 1), m);
    HeldIff(a, l, GroupOf(m));
  }

  lemma GoodIsRescued(n: nat, a: seq<Arrival>, t: nat, m: nat)
    requires t <= |a| && m < n && m !in Arrived(a, t) && MadeGood(n, a, t, m)
    ensures Rescued(n, a, t, GroupOf(m))
  {
    var c :| 0 <= c < t && a[c] == ParityFor(GroupOf(m)) && Arrived(a, c) != {} &&
             (OthersBy(n, a, c, m) || exists l :: c < l < t && LastOther(n, a, l, m) && !Triggered(n, a, l));
    if OthersBy(n, a, c, m) {
      ParityRescuesLate(n, a, c, t, m);
    } else {
      var l :| c < l < t && LastOther(n, a, l, m) && !Triggered(n, a, l);
      LastOtherRescues(n, a, c, l, t, m);
    }
  }

  lemma RescuedIsGood(n: nat, a: seq<Arrival>, t: nat, m: nat)
    requires t <= |a| && m < n && m !in Arrived(a, t) && Rescued(n, a, t, GroupOf(m))
    ensures MadeGood(n, a, t, m)
  {
    var k := GroupOf(m);
    var c :| 0 <= c < t && RescuedAt(n, a, c, k);
    if a[c].ParityFor? {
      ArrivedStays(a, c, t);
      MissesOne(n, Arrived(a, c), m);
      assert OthersBy(n, a, c, m);
    } else {
      ArrivedStays(a, c + 1, t);
      MissesOne(n, Arrived(a, c + 1), m);
      assert LastOther(n, a, c, m);
      HeldIff(a, c, k);
    }
  }

  // The buffer is full exactly when the order so far is recoverable.
  lemma CompleteIff(n: nat, a: seq<Arrival>, t: nat)
    requires t <= |a| && AllSendable(n, a)
    ensures Complete(n, State(n, a, t)) <==> Recoverable(n, a, t)
  {
    StateTracks(n, a, t);
    forall m: nat | m < n && m !in Arrived(a, t) ensures MadeGood(n, a, t, m) <==> Rescued(n, a, t, GroupOf(m)) {
      if MadeGood(n, a, t, m) { GoodIsRescued(n, a, t, m); }
      if Rescued(n, a, t, GroupOf(m)) { RescuedIsGood(n, a, t, m); }
    }
  }

  // ---- how often a frame is delivered ----

  ghost function Recovers(n: nat): (seq<Arrival>, nat) -> bool
  {
    (a: seq<Arrival>, t: nat) => t <= |a| && Recoverable(n, a, t)
  }

  // How often a frame is delivered: once at the first moment the order is
  // recoverable; and as nothing is kept of it, what arrives after that starts
  // over.
  ghost function Deliveries(n: nat, a: seq<Arrival>): nat { Rounds(Recovers(n), a) }

  // The same counted by the receiver, arrival by arrival.
  ghost function Tally(n: nat, m: Assembly, a: seq<Arrival>): nat { RoundsBy(Stepping(n), Full(n), NOTHING, m, a) }

  lemma TallyIsDeliveries(n: nat, a: seq<Arrival>)
    requires AllSendable(n, a)
    ensures Tally(n, NOTHING, a) == Deliveries(n, a)
  {
    var step, full, done, ok := Stepping(n), Full(n), Recovers(n), (x: Arrival) => Sendable(n, x);
    forall b: seq<Arrival>, t: nat | t <= |b| && (forall x :: x in b ==> ok(x))
      ensures full(RunOf(step, NOTHING, b, t)) <==> done(b, t)
    {
      assert forall x :: x in b ==> Sendable(n, x);
      CompleteIff(n, b, t);
    }
    RoundsAgree(step, full, NOTHING, done, ok, a, 0);
  }

  // A frame is delivered at all exactly when the whole order is recoverable.
  lemma DeliveredIff(n: nat, a: seq<Arrival>)
    requires 0 < n
    ensures Deliveries(n, a) > 0 <==> Recoverable(n, a, |a|)
  {
    var done := Recovers(n);
    var t := FirstDone(done, a, 1);
    if t <= |a| {
      assert Recovers(n)(a, t);
      RecoverableStays(n, a, t, |a|);
    } else {
      NothingYet(n, a);
      assert Recoverable(n, a, |a|) <==> done(a, |a|);
    }
  }

  lemma NothingYet(n: nat, a: seq<Arrival>)
    requires 0 < n
    ensures !Recoverable(n, a, 0)
  {
    assert 0 !in Arrived(a, 0) && !MadeGood(n, a, 0, 0);
  }

  lemma RecoverableStays(n: nat, a: seq<Arrival>, t: nat, u: nat)
    requires t <= u <= |a| && Recoverable(n, a, t)
    ensures Recoverable(n, a, u)
  {
    ArrivedStays(a, t, u);
    forall m: nat | m < n && m !in Arrived(a, u) ensures MadeGood(n, a, u, m) { GoodStays(n, a, t, u, m); }
  }

  lemma GoodStays(n: nat, a: seq<Arrival>, t: nat, u: nat, m: nat)
    requires t <= u <= |a| && MadeGood(n, a, t, m)
    ensures MadeGood(n, a, u, m)
  {
    var c :| 0 <= c < t && a[c] == ParityFor(GroupOf(m)) && Arrived(a, c) != {} &&
             (OthersBy(n, a, c, m) || exists l :: c < l < t && LastOther(n, a, l, m) && !Triggered(n, a, l));
    if !OthersBy(n, a, c, m) {
      var l :| c < l < t && LastOther(n, a, l, m) && !Triggered(n, a, l);
      assert c < l < u && LastOther(n, a, l, m) && !Triggered(n, a, l);
    }
  }

  // After a delivery with the last arrival of `x`, the frame is delivered
  // again as often as what comes then brings it together by itself.
  lemma DeliveredAgain(n: nat, x: seq<Arrival>, y: seq<Arrival>)
    requires 0 < n && AllSendable(n, x + y) && Recoverable(n, x, |x|)
    requires forall t: nat :: t < |x| ==> !Recoverable(n, x, t)
    ensures Deliveries(n, x + y) == 1 + Deliveries(n, y)
  {
    var done := Recovers(n);
    NothingYet(n, x);
    forall t: nat | t <= |x| ensures done(x + y, t) <==> done(x, t) { SameStart(n, x, y, t); }
    assert done(x + y, |x|);
    var t := FirstDone(done, x + y, 1);
    assert t == |x|;
    assert (x + y)[|x|..] == y;
  }

  lemma SameStart(n: nat, x: seq<Arrival>, y: seq<Arrival>, t: nat)
    requires t <= |x| && AllSendable(n, x + y)
    ensures Recoverable(n, x + y, t) <==> Recoverable(n, x, t)
  {
    RunOfStart(Stepping(n), NOTHING, x, y, t);
    CompleteIff(n, x + y, t);
    assert forall e :: e in x ==> e in x + y;
    CompleteIff(n, x, t);
  }

  // Without repetitions a frame is delivered at most once.
  lemma OnceIfDistinct(n: nat, a: seq<Arrival>)
    requires 0 < n && AllSendable(n, a)
    requires forall u, v :: 0 <= u < v < |a| ==> a[u] != a[v]
    ensures Deliveries(n, a) <= 1
  {
    var t := FirstDone(Recovers(n), a, 1);
    if t <= |a| {
      assert Recovers(n)(a, t);
      var y := a[t..];
      DeliveredIff(n, y);
      NotTwice(n, a, t, y);
    }
  }

  lemma {:induction false} ArrivedIff(a: seq<Arrival>, t: nat, i: nat)
    requires t <= |a|
    ensures i in Arrived(a, t) <==> exists u :: 0 <= u < t && a[u] == DataAt(i)
  {
    if t > 0 { ArrivedIff(a, t - 1, i); }
  }

  // A recoverable order holds the first group's parity or its whole data; in
  // either case, one of its first two packets.
  lemma FirstGroup(n: nat, a: seq<Arrival>, t: nat)
    requires 0 < n && t <= |a| && AllSendable(n, a) && Recoverable(n, a, t)
    ensures 0 in Arrived(a, t) || (1 < n && 1 in Arrived(a, t) && exists c :: 0 <= c < t && a[c] == ParityFor(0))
    ensures 1 < n ==> 1 in Arrived(a, t) || (0 in Arrived(a, t) && exists c :: 0 <= c < t && a[c] == ParityFor(0))
  {
    if 0 !in Arrived(a, t) { OthersCame(n, a, t, 0); }
    if 1 < n && 1 !in Arrived(a, t) { OthersCame(n, a, t, 1); }
  }

  // What was made good was so by its group's parity and all the others.
  lemma OthersCame(n: nat, a: seq<Arrival>, t: nat, m: nat)
    requires t <= |a| && m < n && AllSendable(n, a) && MadeGood(n, a, t, m)
    ensures OthersBy(n, a, t, m) && GroupOf(m) * GROUP_SIZE + 1 < n
    ensures exists c :: 0 <= c < t && a[c] == ParityFor(GroupOf(m))
  {
    var c :| 0 <= c < t && a[c] == ParityFor(GroupOf(m)) && Arrived(a, c) != {} &&
             (OthersBy(n, a, c, m) || exists l :: c < l < t && LastOther(n, a, l, m) && !Triggered(n, a, l));
    assert a[c] in a;
    if OthersBy(n, a, c, m) {
      OthersStay(n, a, c, t, m);
    } else {
      var l :| c < l < t && LastOther(n, a, l, m) && !Triggered(n, a, l);
      OthersStay(n, a, l + 1, t, m);
    }
  }

  lemma OthersStay(n: nat, a: seq<Arrival>, t: nat, u: nat, m: nat)
    requires t <= u <= |a| && OthersBy(n, a, t, m)
    ensures OthersBy(n, a, u, m)
  {
    ArrivedStays(a, t, u);
  }

  lemma NotTwice(n: nat, a: seq<Arrival>, t: nat, y: seq<Arrival>)
    requires 0 < n && t <= |a| && AllSendable(n, a) && y == a[t..]
    requires forall u, v :: 0 <= u < v < |a| ==> a[u] != a[v]
    requires Recoverable(n, a, t)
    ensures !Recoverable(n, y, |y|)
  {
    assert forall x :: x in y ==> x in a;
    FirstGroup(n, a, t);
    Apart(a, t, y, 0);
    Apart(a, t, y, 1);
    if Recoverable(n, y, |y|) { FirstGroup(n, y, |y|); }
  }

  // Nothing is on both sides of a place.
  lemma Apart(a: seq<Arrival>, t: nat, y: seq<Arrival>, i: nat)
    requires t <= |a| && y == a[t..] && forall u, v :: 0 <= u < v < |a| ==> a[u] != a[v]
    ensures i !in Arrived(a, t) || i !in Arrived(y, |y|)
    ensures (forall c :: 0 <= c < t ==> a[c] != ParityFor(i)) || (forall c :: 0 <= c < |y| ==> y[c] != ParityFor(i))
  {
    ArrivedIff(a, t, i);
    ArrivedIff(y, |y|, i);
    assert forall c :: 0 <= c < |y| ==> y[c] == a[t + c];
  }

  // ---- runs that start over ----

  // The state after the first `t` inputs.
  ghost function RunOf<S, X>(step: (S, X) -> S, s0: S, a: seq<X>, t: nat): S
    requires t <= |a|
  {
    if t == 0 then s0 else step(RunOf(step, s0, a, t - 1), a[t - 1])
  }

  lemma {:induction false} RunKeeps<S(!new), X>(step: (S, X) -> S, s0: S, q: (S, nat) -> bool, a: seq<X>, t: nat)
    requires t <= |a| && q(s0, 0) && forall s, u: nat :: u < |a| && q(s, u) ==> q(step(s, a[u]), u + 1)
    ensures q(RunOf(step, s0, a, t), t)
  {
    if t > 0 { RunKeeps(step, s0, q, a, t - 1); }
  }

  lemma {:induction false} RunOfStart<S, X>(step: (S, X) -> S, s0: S, x: seq<X>, y: seq<X>, t: nat)
    requires t <= |x|
    ensures RunOf(step, s0, x + y, t) == RunOf(step, s0, x, t)
  {
    if t > 0 { RunOfStart(step, s0, x, y, t - 1); }
  }

  // The first moment from `t` on that is done, or one past the last.
  ghost function FirstDone<X>(done: (seq<X>, nat) -> bool, a: seq<X>, t: nat): (r: nat)
    requires t <= |a| + 1
    ensures t <= r <= |a| + 1
    ensures r <= |a| ==> done(a, r)
    ensures forall u: nat :: t <= u < r ==> !done(a, u)
    decreases |a| + 1 - t
  {
    if t > |a| || done(a, t) then t else FirstDone(done, a, t + 1)
  }

  ghost function Rounds<X>(done: (seq<X>, nat) -> bool, a: seq<X>): nat
    decreases |a|
  {
    var t := FirstDone(done, a, 1);
    if t > |a| then 0 else 1 + Rounds(done, a[t..])
  }

  ghost function RoundsBy<S, X>(step: (S, X) -> S, full: S -> bool, s0: S, s: S, a: seq<X>): nat
    decreases |a|
  {
    if a == [] then 0
    else
      var next := step(s, a[0]);
      if full(next) then 1 + RoundsBy(step, full, s0, s0, a[1..]) else RoundsBy(step, full, s0, next, a[1..])
  }

  lemma {:induction false} RoundsAgree<S, X(!new)>(
      step: (S, X) -> S, full: S -> bool, s0: S, done: (seq<X>, nat) -> bool, ok: X -> bool, a: seq<X>, t: nat)
    requires t <= |a| && forall x :: x in a ==> ok(x)
    requires forall b, u: nat :: u <= |b| && (forall x :: x in b ==> ok(x)) ==> (full(RunOf(step, s0, b, u)) <==> done(b, u))
    ensures RoundsBy(step, full, s0, RunOf(step, s0, a, t), a[t..]) ==
            var u := FirstDone(done, a, t + 1); if u > |a| then 0 else 1 + Rounds(done, a[u..])
    decreases |a|, |a| - t
  {
    if t < |a| {
      var b := a[t + 1..];
      assert a[t..][1..] == b;
      assert full(RunOf(step, s0, a, t + 1)) <==> done(a, t + 1);
      if done(a, t + 1) {
        assert b[0..] == b;
        RoundsAgree(step, full, s0, done, ok, b, 0);
      } else {
        RoundsAgree(step, full, s0, done, ok, a, t + 1);
      }
    }
  }
}
