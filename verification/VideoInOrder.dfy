// Orders worth naming: the sending order with losses, and the orders in which
// one loss a group, with all parity come, is still too much.
module VideoInOrder {
  import opened VideoPackets
  import opened VideoOrder

  // ---- in sending order ----

  function DataInOrder(lost: set<nat>, i: nat): seq<Arrival> { if i in lost then [] else [DataAt(i)] }

  // The data packets i.. but the lost ones, in group `k` so far, with all
  // parity: after each full group, and after a trailing group of two or more.
  function InOrder(n: nat, lost: set<nat>, k: nat, i: nat): seq<Arrival>
    requires k * GROUP_SIZE <= i <= n
    decreases n - i
  {
    if i == n then if i > k * GROUP_SIZE + 1 then [ParityFor(k)] else []
    else if i + 1 == (k + 1) * GROUP_SIZE then DataInOrder(lost, i) + [ParityFor(k)] + InOrder(n, lost, k + 1, i + 1)
    else DataInOrder(lost, i) + InOrder(n, lost, k, i + 1)
  }

  function Sending(n: nat, lost: set<nat>): seq<Arrival> { InOrder(n, lost, 0, 0) }

  // At most one loss in each group, and none in a trailing group of one.
  predicate Bearable(n: nat, lost: set<nat>)
  {
    && (forall i, j :: i in lost && j in lost && i < n && j < n && GroupOf(i) == GroupOf(j) ==> i == j)
    && (n % GROUP_SIZE == 1 ==> n - 1 !in lost)
  }

  lemma {:induction false} InOrderHolds(n: nat, lost: set<nat>, k: nat, i: nat)
    requires k * GROUP_SIZE <= i <= n
    ensures forall x :: x in InOrder(n, lost, k, i) ==> Sendable(n, x) && (x.DataAt? ==> i <= x.i && x.i !in lost)
    decreases n - i
  {
    if i < n {
      if i + 1 == (k + 1) * GROUP_SIZE { InOrderHolds(n, lost, k + 1, i + 1); } else { InOrderHolds(n, lost, k, i + 1); }
    }
  }

  lemma {:induction false} AllButLostSent(n: nat, lost: set<nat>, k: nat, i: nat, j: nat)
    requires k * GROUP_SIZE <= i <= j < n && j !in lost
    ensures DataAt(j) in InOrder(n, lost, k, i)
    decreases n - i
  {
    if i < j {
      if i + 1 == (k + 1) * GROUP_SIZE { AllButLostSent(n, lost, k + 1, i + 1, j); } else { AllButLostSent(n, lost, k, i + 1, j); }
    }
  }

  lemma ArrivesInOrder(n: nat, lost: set<nat>, m: nat)
    requires m < n
    ensures var a := Sending(n, lost); m in Arrived(a, |a|) <==> m !in lost
  {
    var a := Sending(n, lost);
    InOrderHolds(n, lost, 0, 0);
    ArrivedIff(a, |a|, m);
    if m !in lost { AllButLostSent(n, lost, 0, 0, m); }
  }

  ghost predicate ComeBefore(lost: set<nat>, lo: nat, hi: nat, before: seq<Arrival>)
  {
    forall j: nat :: lo <= j < hi && j !in lost ==> DataAt(j) in before
  }

  // Arrivals put in front of a parity packet and what comes before it.
  lemma Prepend(lost: set<nat>, i: nat, hi: nat, parity: seq<Arrival>, rest: seq<Arrival>, g: nat, b: seq<Arrival>, after: seq<Arrival>)
    returns (before: seq<Arrival>)
    requires rest == b + [ParityFor(g)] + after && ComeBefore(lost, i + 1, hi, b)
    ensures DataInOrder(lost, i) + parity + rest == before + [ParityFor(g)] + after
    ensures ComeBefore(lost, i, hi, before)
  {
    before := DataInOrder(lost, i) + parity + b;
    forall j: nat | i <= j < hi && j !in lost ensures DataAt(j) in before {
      assert j == i ==> DataAt(j) in DataInOrder(lost, i);
    }
  }

  // A group's parity comes after its data packets.
  lemma {:induction false} ParityAfterData(n: nat, lost: set<nat>, k: nat, i: nat, g: nat, hi: nat) returns (before: seq<Arrival>, after: seq<Arrival>)
    requires k * GROUP_SIZE <= i <= n && i < (k + 1) * GROUP_SIZE && k <= g && g * GROUP_SIZE + 1 < n
    requires hi == if (g + 1) * GROUP_SIZE < n then (g + 1) * GROUP_SIZE else n
    ensures InOrder(n, lost, k, i) == before + [ParityFor(g)] + after
    ensures ComeBefore(lost, i, hi, before)
    decreases n - i
  {
    if i == n {
      before, after := [], [];
    } else if i + 1 < (k + 1) * GROUP_SIZE {
      var rest := InOrder(n, lost, k, i + 1);
      before, after := ParityAfterData(n, lost, k, i + 1, g, hi);
      before := Prepend(lost, i, hi, [], rest, g, before, after);
      assert DataInOrder(lost, i) + [] + rest == DataInOrder(lost, i) + rest;
    } else if k < g {
      before, after := ParityAfterData(n, lost, k + 1, i + 1, g, hi);
      before := Prepend(lost, i, hi, [ParityFor(k)], InOrder(n, lost, k + 1, i + 1), g, before, after);
    } else {
      before, after := DataInOrder(lost, i), InOrder(n, lost, k + 1, i + 1);
    }
  }

  lemma AtPlace<T>(x: T, before: seq<T>, rest: seq<T>)
    requires x in before
    ensures exists u :: 0 <= u < |before| && (before + rest)[u] == x
  {
    var u :| 0 <= u < |before| && before[u] == x;
    assert (before + rest)[u] == x;
  }

  // The one loss of a group is made good by its parity.
  lemma LossMadeGood(n: nat, lost: set<nat>, m: nat)
    requires Bearable(n, lost) && m < n && m in lost
    ensures var a := Sending(n, lost); MadeGood(n, a, |a|, m)
  {
    var a, g := Sending(n, lost), GroupOf(m);
    HasParity(n, lost, m);
    var before, after := ParityAfterData(n, lost, 0, 0, g, if (g + 1) * GROUP_SIZE < n then (g + 1) * GROUP_SIZE else n);
    assert a == before + ([ParityFor(g)] + after);
    var c := |before|;
    forall j: nat | InGroup(n, g, j) && j != m ensures j in Arrived(a, c) {
      AtPlace(DataAt(j), before, [ParityFor(g)] + after);
      ArrivedIff(a, c, j);
    }
    GoodByParity(n, a, c, m);
  }

  lemma HasParity(n: nat, lost: set<nat>, m: nat)
    requires Bearable(n, lost) && m < n && m in lost
    ensures GroupOf(m) * GROUP_SIZE + 1 < n
  {
  }

  // A copy of the parity after all the group's other data makes good.
  lemma GoodByParity(n: nat, a: seq<Arrival>, c: nat, m: nat)
    requires c < |a| && m < n && a[c] == ParityFor(GroupOf(m)) && OthersBy(n, a, c, m) && GroupOf(m) * GROUP_SIZE + 1 < n
    ensures MadeGood(n, a, |a|, m)
  {
    var first := GroupOf(m) * GROUP_SIZE;
    assert InGroup(n, GroupOf(m), first) && InGroup(n, GroupOf(m), first + 1);
  }

  // In sending order, with all parity come, the frame is recoverable exactly
  // when each group lost at most one packet.
  lemma InOrderIff(n: nat, lost: set<nat>)
    ensures var a := Sending(n, lost); Recoverable(n, a, |a|) <==> Bearable(n, lost)
  {
    var a := Sending(n, lost);
    InOrderHolds(n, lost, 0, 0);
    forall m: nat | m < n ensures m in Arrived(a, |a|) <==> m !in lost { ArrivesInOrder(n, lost, m); }
    if Bearable(n, lost) {
      forall m: nat | m < n && m in lost ensures MadeGood(n, a, |a|, m) { LossMadeGood(n, lost, m); }
    } else {
      Unbearable(n, lost, a);
    }
  }

  lemma Unbearable(n: nat, lost: set<nat>, a: seq<Arrival>)
    requires AllSendable(n, a) && !Bearable(n, lost) && forall m: nat :: m in lost && m < n ==> m !in Arrived(a, |a|)
    ensures !Recoverable(n, a, |a|)
  {
    if n % GROUP_SIZE == 1 && n - 1 in lost {
      TailLost(n, a);
    } else {
      var i, j :| i in lost && j in lost && i < n && j < n && GroupOf(i) == GroupOf(j) && i != j;
      TwoLost(n, a, i, j);
    }
  }

  lemma TailGroup(n: nat)
    requires n % GROUP_SIZE == 1
    ensures GroupOf(n - 1) * GROUP_SIZE + 1 == n
  {
  }

  lemma TailLost(n: nat, a: seq<Arrival>)
    requires AllSendable(n, a) && n % GROUP_SIZE == 1 && n - 1 !in Arrived(a, |a|)
    ensures !Recoverable(n, a, |a|)
  {
    TailGroup(n);
    if MadeGood(n, a, |a|, n - 1) { OthersCame(n, a, |a|, n - 1); }
  }

  lemma TwoLost(n: nat, a: seq<Arrival>, i: nat, j: nat)
    requires AllSendable(n, a) && i < n && j < n && GroupOf(i) == GroupOf(j) && i != j
    requires i !in Arrived(a, |a|) && j !in Arrived(a, |a|)
    ensures !Recoverable(n, a, |a|)
  {
    assert InGroup(n, GroupOf(i), j);
    if MadeGood(n, a, |a|, i) { OthersCame(n, a, |a|, i); }
  }

  // ---- once ----

  function Rank(x: Arrival): nat { if x.DataAt? then 2 * x.i else 2 * (x.k + 1) * GROUP_SIZE - 1 }

  predicate Rises(a: seq<Arrival>, low: nat)
  {
    a == [] || (Rank(a[0]) >= low && Rises(a[1..], Rank(a[0]) + 1))
  }

  lemma {:induction false} RisingIsDistinct(a: seq<Arrival>, low: nat)
    requires Rises(a, low)
    ensures forall x :: x in a ==> Rank(x) >= low
    ensures forall u, v :: 0 <= u < v < |a| ==> a[u] != a[v]
  {
    if a != [] {
      var rest := a[1..];
      RisingIsDistinct(rest, Rank(a[0]) + 1);
      forall u, v | 0 <= u < v < |a| ensures a[u] != a[v] {
        assert a[v] == rest[v - 1] && rest[v - 1] in rest;
        if u > 0 { assert a[u] == rest[u - 1]; }
      }
      forall x | x in a ensures Rank(x) >= low { assert x == a[0] || x in rest; }
    }
  }

  lemma OneMoreRises(x: Arrival, rest: seq<Arrival>, low: nat)
    requires low <= Rank(x) && Rises(rest, Rank(x) + 1)
    ensures Rises([x] + rest, low)
  {
    assert ([x] + rest)[1..] == rest;
  }

  lemma RisesFromLower(a: seq<Arrival>, low: nat, high: nat)
    requires low <= high && Rises(a, high)
    ensures Rises(a, low)
  {
  }

  lemma DataRises(lost: set<nat>, i: nat, rest: seq<Arrival>)
    requires Rises(rest, 2 * i + 1)
    ensures Rises(DataInOrder(lost, i) + rest, 2 * i)
  {
    if i in lost {
      assert [] + rest == rest;
      RisesFromLower(rest, 2 * i, 2 * i + 1);
    } else {
      OneMoreRises(DataAt(i), rest, 2 * i);
    }
  }

  lemma {:induction false} InOrderRises(n: nat, lost: set<nat>, k: nat, i: nat)
    requires k * GROUP_SIZE <= i <= n && i < (k + 1) * GROUP_SIZE
    ensures Rises(InOrder(n, lost, k, i), 2 * i)
    decreases n - i
  {
    if i < n {
      if i + 1 == (k + 1) * GROUP_SIZE {
        var rest := InOrder(n, lost, k + 1, i + 1);
        InOrderRises(n, lost, k + 1, i + 1);
        OneMoreRises(ParityFor(k), rest, 2 * i + 1);
        DataRises(lost, i, [ParityFor(k)] + rest);
        assert DataInOrder(lost, i) + [ParityFor(k)] + rest == DataInOrder(lost, i) + ([ParityFor(k)] + rest);
      } else {
        var rest := InOrder(n, lost, k, i + 1);
        InOrderRises(n, lost, k, i + 1);
        RisesFromLower(rest, 2 * i + 1, 2 * i + 2);
        DataRises(lost, i, rest);
      }
    }
  }

  // So it is delivered once.
  lemma InOrderOnce(n: nat, lost: set<nat>)
    requires 0 < n
    ensures Deliveries(n, Sending(n, lost)) == if Bearable(n, lost) then 1 else 0
  {
    var a := Sending(n, lost);
    InOrderHolds(n, lost, 0, 0);
    InOrderRises(n, lost, 0, 0);
    RisingIsDistinct(a, 0);
    OnceIfDistinct(n, a);
    DeliveredIff(n, a);
    InOrderIff(n, lost);
  }

  // ---- out of order ----

  // Parity that all came before the frame's first data packet is of no use.
  lemma EarlyParityIsLost(n: nat, a: seq<Arrival>, m: nat)
    requires m < n && m !in Arrived(a, |a|)
    requires forall c :: 0 <= c < |a| && a[c] == ParityFor(GroupOf(m)) ==> Arrived(a, c) == {}
    ensures Deliveries(n, a) == 0
  {
    DeliveredIff(n, a);
  }

  // Nor is parity held too early, if another group's recovery comes first: no
  // other is tried on the data path.
  lemma LatchedGroupIsLost(n: nat, a: seq<Arrival>, m: nat, u: nat)
    requires m < n && m !in Arrived(a, |a|) && Trigger(n, a, u) && !OthersBy(n, a, u + 1, m)
    requires forall c :: 0 <= c < |a| && a[c] == ParityFor(GroupOf(m)) ==> !OthersBy(n, a, c, m)
    ensures Deliveries(n, a) == 0
  {
    forall l: nat | l < |a| && LastOther(n, a, l, m) ensures Triggered(n, a, l) { ComesAfter(n, a, l, m, u); }
    assert !MadeGood(n, a, |a|, m);
    DeliveredIff(n, a);
  }

  lemma ComesAfter(n: nat, a: seq<Arrival>, l: nat, m: nat, u: nat)
    requires l < |a| && u < |a| && OthersBy(n, a, l + 1, m) && !OthersBy(n, a, u + 1, m)
    ensures u < l
  {
    if l <= u { OthersStay(n, a, l + 1, u + 1, m); }
  }

  // Two packets, one lost, the parity come first: one loss in the only group
  // and all parity come, yet no frame.
  const EARLY_PARITY := [ParityFor(0), DataAt(0)]

  lemma EarlyParityFails()
    ensures Bearable(2, {1}) && Deliveries(2, EARLY_PARITY) == 0
  {
    ArrivedIff(EARLY_PARITY, 2, 1);
    EarlyParityIsLost(2, EARLY_PARITY, 1);
  }

  // Seven packets, one lost in each of two groups and all parity come after a
  // data packet: the second group's loss is made good first, and the first
  // group's never.
  const SECOND_GROUP_FIRST := [DataAt(0), ParityFor(1), DataAt(5), ParityFor(0), DataAt(1), DataAt(2), DataAt(3)]

  lemma SecondGroupFirstFails()
    ensures Bearable(7, {4, 6}) && Deliveries(7, SECOND_GROUP_FIRST) == 0
  {
    OneInEach();
    FirstGroupLate(SECOND_GROUP_FIRST);
    SecondGroupTriggers(SECOND_GROUP_FIRST);
    FourNeverCame(SECOND_GROUP_FIRST);
    LatchedGroupIsLost(7, SECOND_GROUP_FIRST, 4, 2);
  }

  lemma OneInEach()
    ensures Bearable(7, {4, 6})
  {
    assert GroupOf(4) == 0 && GroupOf(6) == 1;
  }

  lemma FirstGroupLate(a: seq<Arrival>)
    requires a == SECOND_GROUP_FIRST
    ensures !OthersBy(7, a, 3, 4)
    ensures forall c :: 0 <= c < |a| && a[c] == ParityFor(GroupOf(4)) ==> c == 3
  {
    FirstThree(a);
    NotYet(a, 3);
  }

  lemma FourNeverCame(a: seq<Arrival>)
    requires a == SECOND_GROUP_FIRST
    ensures 4 !in Arrived(a, 7)
  {
    ArrivedIff(a, 7, 4);
  }

  lemma NotYet(a: seq<Arrival>, t: nat)
    requires t <= |a| && 1 !in Arrived(a, t)
    ensures !OthersBy(7, a, t, 4)
  {
    assert InGroup(7, GroupOf(4), 1);
  }

  lemma FirstThree(a: seq<Arrival>)
    requires |a| > 2 && a[0] == DataAt(0) && a[1] == ParityFor(1) && a[2] == DataAt(5)
    ensures Arrived(a, 1) == Arrived(a, 2) == {0} && Arrived(a, 3) == {0, 5} && 1 in Held(a, 2)
  {
    assert Arrived(a, 0) == {};
    assert Arrived(a, 1) == {0};
  }

  lemma ShortOfLast(have: set<nat>)
    requires 5 in have && 6 !in have
    ensures OneShort(7, have, 1)
  {
    assert InGroup(7, 1, 6);
    assert forall j :: InGroup(7, 1, j) && j != 6 ==> j == 5;
    assert Gap(7, have, 1, 6);
  }

  lemma SecondGroupTriggers(a: seq<Arrival>)
    requires |a| > 2 && a[0] == DataAt(0) && a[1] == ParityFor(1) && a[2] == DataAt(5)
    ensures Trigger(7, a, 2)
  {
    FirstThree(a);
    ShortOfLast(Arrived(a, 3));
    assert GroupOf(5) == 1;
  }
}
