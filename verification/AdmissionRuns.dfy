// Whole runs of the connection limits: forgetting idle addresses is invisible
// below the table's cap, the rate holds in every window, and what happens at
// the cap.
module AdmissionRuns {
  import opened Options
  import opened RateLimit
  import opened Admission

  datatype Event = Connect(ip: Ip, now: real) | Close(ip: Ip)

  function Happens(t: Table, e: Event): (Table, Option<Answer>)
  {
    match e
    case Connect(ip, now) =>
      var (r, answer) := Admit(t, ip, now);
      (r, Some(answer))
    case Close(ip) => (Release(t, ip), None)
  }

  function Run(t: Table, events: seq<Event>): Table
    decreases |events|
  {
    if events == [] then t else Run(Happens(t, events[0]).0, events[1..])
  }

  function Answers(t: Table, events: seq<Event>): (r: seq<Option<Answer>>)
    ensures |r| == |events|
    decreases |events|
  {
    if events == [] then [] else [Happens(t, events[0]).1] + Answers(Happens(t, events[0]).0, events[1..])
  }

  // ---- a table that never forgets and has no cap ----

  function Remembered(t: Table, e: Event): (Table, Option<Answer>)
  {
    match e
    case Connect(ip, now) =>
      if t.open >= t.max then (t, Some(ServerFull))
      else
        var (r, answer) := Entering(t, ip, now);
        (r, Some(answer))
    case Close(ip) => (Release(t, ip), None)
  }

  function RememberedAnswers(t: Table, events: seq<Event>): (r: seq<Option<Answer>>)
    ensures |r| == |events|
    decreases |events|
  {
    if events == [] then [] else [Remembered(t, events[0]).1] + RememberedAnswers(Remembered(t, events[0]).0, events[1..])
  }

  // The clock never runs back.
  predicate Ordered(events: seq<Event>, start: real)
  {
    events == [] ||
    match events[0]
    case Connect(_, now) => start <= now && Ordered(events[1..], now)
    case Close(_) => Ordered(events[1..], start)
  }

  // ---- what can be told of an address at a time ----

  function OpenOf(t: Table, ip: Ip): nat { if ip in t.ips then t.ips[ip].open else 0 }

  function TokensOf(t: Table, ip: Ip, now: real): real { if ip in t.ips then TokensAt(t.ips[ip].connects, now) else BURST }

  predicate AddressOk(a: Address, now: real)
  {
    Sane(a.connects) && a.connects.capacity == BURST && a.connects.refill == RATE && a.connects.last <= now
  }

  predicate TableOk(t: Table, now: real) { forall ip :: ip in t.ips ==> AddressOk(t.ips[ip], now) }

  ghost predicate Same(a: Table, b: Table, now: real)
  {
    a.max == b.max && a.open == b.open && forall ip :: OpenOf(a, ip) == OpenOf(b, ip) && TokensOf(a, ip, now) == TokensOf(b, ip, now)
  }

  function Grown(tokens: real, seconds: real): real { RealMin(BURST, tokens + Earned(seconds, RATE)) }

  lemma TokensGrow(t: Table, ip: Ip, now: real, later: real)
    requires TableOk(t, now) && now <= later
    ensures TokensOf(t, ip, later) == Grown(TokensOf(t, ip, now), later - now)
    ensures 0.0 <= TokensOf(t, ip, now) <= BURST
  {
    if ip in t.ips {
      RefillComposes(t.ips[ip].connects, now, later);
      RefilledIsSane(t.ips[ip].connects, now);
    } else {
      Grows(later - now, RATE);
    }
  }

  lemma SameLater(a: Table, b: Table, now: real, later: real)
    requires Same(a, b, now) && TableOk(a, now) && TableOk(b, now) && now <= later
    ensures Same(a, b, later) && TableOk(a, later) && TableOk(b, later)
  {
    forall ip ensures OpenOf(a, ip) == OpenOf(b, ip) && TokensOf(a, ip, later) == TokensOf(b, ip, later) {
      TokensGrow(a, ip, now, later);
      TokensGrow(b, ip, now, later);
    }
  }

  // A sweep forgets only what a new entry starts with.
  lemma SweepIsInvisible(t: Table, ip: Ip, now: real)
    requires TableOk(t, now)
    ensures Same(MaybeSwept(t, ip, now), t, now) && TableOk(MaybeSwept(t, ip, now), now)
  {
    var s := MaybeSwept(t, ip, now);
    forall other
      ensures OpenOf(s, other) == OpenOf(t, other) && TokensOf(s, other, now) == TokensOf(t, other, now)
      ensures other in s.ips ==> AddressOk(s.ips[other], now)
    {
      if other in t.ips { RefilledIsSane(t.ips[other].connects, now); }
    }
  }

  lemma EnteredIsOk(a: Address, now: real)
    requires AddressOk(a, now)
    ensures AddressOk(Entered(a, now).0, now)
    ensures TokensAt(Entered(a, now).0.connects, now) == TokensAt(a.connects, now) - if Entered(a, now).1.Admitted? then 1.0 else 0.0
    ensures Entered(a, now).0.open == a.open + if Entered(a, now).1.Admitted? then 1 else 0
  {
    TakenIsSane(a.connects, now);
  }

  lemma NewIsOk(now: real)
    ensures AddressOk(NewAddress(now), now) && TokensAt(NewAddress(now).connects, now) == BURST
  {
    NowIs(NewAddress(now).connects, now);
  }

  // What entering changes: the caller's entry, by one connection and one token
  // when admitted.
  lemma EnteringEffect(t: Table, ip: Ip, now: real, other: Ip)
    requires TableOk(t, now)
    ensures var (r, answer) := Entering(t, ip, now);
            var one := ip == other && answer.Admitted?;
            && TableOk(r, now)
            && OpenOf(r, other) == OpenOf(t, other) + (if one then 1 else 0)
            && TokensOf(r, other, now) == TokensOf(t, other, now) - if one then 1.0 else 0.0
  {
    NewIsOk(now);
    EnteredIsOk(if ip in t.ips then t.ips[ip] else NewAddress(now), now);
  }

  // The answer depends on nothing else.
  lemma SameAnswer(a: Table, b: Table, ip: Ip, now: real)
    requires Same(a, b, now) && TableOk(a, now) && TableOk(b, now)
    ensures Entering(a, ip, now).1 == Entering(b, ip, now).1
  {
    NewIsOk(now);
    assert OpenOf(a, ip) == OpenOf(b, ip) && TokensOf(a, ip, now) == TokensOf(b, ip, now);
  }

  lemma SameEntering(a: Table, b: Table, ip: Ip, now: real)
    requires Same(a, b, now) && TableOk(a, now) && TableOk(b, now)
    ensures Entering(a, ip, now).1 == Entering(b, ip, now).1
    ensures Same(Entering(a, ip, now).0, Entering(b, ip, now).0, now)
    ensures TableOk(Entering(a, ip, now).0, now) && TableOk(Entering(b, ip, now).0, now)
  {
    SameAnswer(a, b, ip, now);
    var r, s := Entering(a, ip, now).0, Entering(b, ip, now).0;
    EnteringEffect(a, ip, now, ip);
    EnteringEffect(b, ip, now, ip);
    forall other ensures OpenOf(r, other) == OpenOf(s, other) && TokensOf(r, other, now) == TokensOf(s, other, now) {
      EnteringEffect(a, ip, now, other);
      EnteringEffect(b, ip, now, other);
    }
  }

  lemma SameIsTransitive(a: Table, b: Table, c: Table, now: real)
    requires Same(a, b, now) && Same(b, c, now)
    ensures Same(a, c, now)
  {
    forall ip ensures OpenOf(a, ip) == OpenOf(c, ip) && TokensOf(a, ip, now) == TokensOf(c, ip, now) {
      assert OpenOf(a, ip) == OpenOf(b, ip) && TokensOf(a, ip, now) == TokensOf(b, ip, now);
    }
  }

  // One connection: below the cap the two tables answer alike; a refusal for
  // want of room changes nothing that can be told.
  lemma ConnectRefines(t: Table, n: Table, ip: Ip, now: real)
    requires Same(t, n, now) && TableOk(t, now) && TableOk(n, now)
    ensures TableOk(Admit(t, ip, now).0, now)
    ensures Admit(t, ip, now).1.TableFull? ==> Same(Admit(t, ip, now).0, t, now)
    ensures !Admit(t, ip, now).1.TableFull? ==>
              var (m, answer) := Remembered(n, Connect(ip, now));
              answer == Some(Admit(t, ip, now).1) && Same(Admit(t, ip, now).0, m, now) && TableOk(m, now)
  {
    if t.open < t.max {
      var s := MaybeSwept(t, ip, now);
      SweepIsInvisible(t, ip, now);
      SameIsTransitive(s, t, n, now);
      SameEntering(s, n, ip, now);
    }
  }

  lemma CloseRefines(t: Table, n: Table, ip: Ip, now: real)
    requires Same(t, n, now) && TableOk(t, now) && TableOk(n, now)
    ensures Same(Release(t, ip), Release(n, ip), now) && TableOk(Release(t, ip), now) && TableOk(Release(n, ip), now)
  {
    var r, s := Release(t, ip), Release(n, ip);
    assert OpenOf(t, ip) == OpenOf(n, ip);
    forall other ensures OpenOf(r, other) == OpenOf(s, other) && TokensOf(r, other, now) == TokensOf(s, other, now) {
      assert OpenOf(t, other) == OpenOf(n, other) && TokensOf(t, other, now) == TokensOf(n, other, now);
    }
  }

  // As long as nobody is refused for want of room, every answer is the one a
  // table that never forgets gives.
  lemma {:induction false} ForgettingIsInvisible(t: Table, n: Table, events: seq<Event>, now: real)
    requires Same(t, n, now) && TableOk(t, now) && TableOk(n, now) && Ordered(events, now)
    requires Some(TableFull) !in Answers(t, events)
    ensures Answers(t, events) == RememberedAnswers(n, events)
    decreases |events|
  {
    if events != [] {
      var t' := Happens(t, events[0]).0;
      assert Answers(t, events)[0] == Happens(t, events[0]).1 && Answers(t, events)[1..] == Answers(t', events[1..]);
      match events[0] {
        case Connect(ip, later) =>
          SameLater(t, n, now, later);
          ConnectRefines(t, n, ip, later);
          ForgettingIsInvisible(t', Remembered(n, events[0]).0, events[1..], later);
        case Close(ip) =>
          CloseRefines(t, n, ip, now);
          ForgettingIsInvisible(t', Remembered(n, events[0]).0, events[1..], now);
      }
    }
  }

  function Callers(events: seq<Event>): set<Ip> { set k | 0 <= k < |events| :: events[k].ip }

  lemma Subset<T>(a: set<T>, b: set<T>)
    requires a <= b
    ensures |a| <= |b|
  {
    assert b == a + (b - a);
  }

  // The table holds none but callers, so few callers never fill it.
  lemma {:induction false} FewCallersAlwaysFit(t: Table, events: seq<Event>, all: set<Ip>)
    requires t.ips.Keys <= all && Callers(events) <= all && |all| <= MAX_TRACKED
    ensures Some(TableFull) !in Answers(t, events)
    decreases |events|
  {
    if events != [] {
      assert events[0].ip in Callers(events);
      CallersOfRest(events);
      CallersFit(t, events[0], all);
      FewCallersAlwaysFit(Happens(t, events[0]).0, events[1..], all);
    }
  }

  lemma CallersOfRest(events: seq<Event>)
    requires events != []
    ensures Callers(events[1..]) <= Callers(events)
  {
    forall k | 0 <= k < |events[1..]| ensures events[1..][k].ip in Callers(events) { assert events[1..][k] == events[k + 1]; }
  }

  lemma CallersFit(t: Table, e: Event, all: set<Ip>)
    requires t.ips.Keys <= all && e.ip in all && |all| <= MAX_TRACKED
    ensures Happens(t, e).0.ips.Keys <= all && Happens(t, e).1 != Some(TableFull)
  {
    if e.Connect? {
      var s := MaybeSwept(t, e.ip, e.now);
      assert s.ips.Keys <= all;
      if e.ip !in s.ips { Subset(s.ips.Keys + {e.ip}, all); }
    }
  }

  // Below the cap, the limits answer as if nothing were ever forgotten.
  lemma LimitsSurviveForgetting(max: nat, events: seq<Event>, start: real)
    requires Ordered(events, start) && |Callers(events)| <= MAX_TRACKED
    ensures Answers(Fresh(max), events) == RememberedAnswers(Fresh(max), events)
  {
    FewCallersAlwaysFit(Fresh(max), events, Callers(events));
    ForgettingIsInvisible(Fresh(max), Fresh(max), events, start);
  }

  // `open` is the sum of the addresses' connections within both caps, always.
  lemma {:induction false} CapsAlwaysHold(t: Table, events: seq<Event>)
    requires Capped(t)
    ensures Capped(Run(t, events))
    decreases |events|
  {
    if events != [] {
      match events[0] {
        case Connect(ip, now) => AdmitKeepsCaps(t, ip, now);
        case Close(ip) => ReleaseKeepsCaps(t, ip);
      }
      CapsAlwaysHold(Happens(t, events[0]).0, events[1..]);
    }
  }

  // ---- the rate ----

  // How often `ip` is admitted.
  function AdmittedCount(t: Table, events: seq<Event>, ip: Ip): nat
    decreases |events|
  {
    if events == [] then 0
    else
      var (r, answer) := Happens(t, events[0]);
      (if events[0].ip == ip && answer == Some(Admitted) then 1 else 0) + AdmittedCount(r, events[1..], ip)
  }

  // Each admission costs its address a token, and nothing else costs any.
  lemma ConnectCosts(t: Table, ip: Ip, now: real, other: Ip)
    requires TableOk(t, now)
    ensures TableOk(Admit(t, ip, now).0, now)
    ensures TokensOf(Admit(t, ip, now).0, other, now) ==
            TokensOf(t, other, now) - if ip == other && Admit(t, ip, now).1.Admitted? then 1.0 else 0.0
  {
    SweepIsInvisible(t, ip, now);
    var s := MaybeSwept(t, ip, now);
    assert TokensOf(s, other, now) == TokensOf(t, other, now);
    EnteringEffect(s, ip, now, other);
  }

  // The clock at the end of a run.
  function End(events: seq<Event>, start: real): real
    decreases |events|
  {
    if events == [] then start else End(events[1..], if events[0].Connect? then events[0].now else start)
  }

  lemma {:induction false} EndIsLater(events: seq<Event>, start: real)
    requires Ordered(events, start)
    ensures start <= End(events, start)
    decreases |events|
  {
    if events != [] { EndIsLater(events[1..], if events[0].Connect? then events[0].now else start); }
  }

  lemma TableLater(t: Table, now: real, later: real)
    requires TableOk(t, now) && now <= later
    ensures TableOk(t, later)
  {
  }

  lemma CloseCostsNothing(t: Table, ip: Ip, now: real, other: Ip)
    requires TableOk(t, now)
    ensures TableOk(Release(t, ip), now) && TokensOf(Release(t, ip), other, now) == TokensOf(t, other, now)
  {
  }

  lemma {:induction false} AdmissionsCost(t: Table, events: seq<Event>, start: real, ip: Ip)
    requires TableOk(t, start) && Ordered(events, start)
    ensures TableOk(Run(t, events), End(events, start))
    ensures AdmittedCount(t, events, ip) as real <= TokensOf(t, ip, start) + Earned(End(events, start) - start, RATE)
    decreases |events|
  {
    if events == [] {
      Grows(0.0, RATE);
      TokensGrow(t, ip, start, start);
    } else {
      match events[0] {
        case Connect(caller, now) =>
          EndIsLater(events[1..], now);
          TokensGrow(t, ip, start, now);
          TableLater(t, start, now);
          ConnectCosts(t, caller, now, ip);
          AdmissionsCost(Admit(t, caller, now).0, events[1..], now, ip);
          TimesSum(End(events[1..], now) - now, now - start, End(events[1..], now) - start, RATE);
        case Close(caller) =>
          CloseCostsNothing(t, caller, start, ip);
          AdmissionsCost(Release(t, caller), events[1..], start, ip);
      }
    }
  }

  // In any stretch of any run, of `seconds` on the clock, an address is
  // admitted at most 60 + 10 * seconds times.
  lemma RatePerWindow(max: nat, before: seq<Event>, window: seq<Event>, start: real, seconds: real, ip: Ip)
    requires Ordered(before, start) && Ordered(window, End(before, start))
    requires FirstTime(window, End(window, End(before, start))) + seconds >= End(window, End(before, start))
    ensures AdmittedCount(Run(Fresh(max), before), window, ip) as real <= 60.0 + seconds * 10.0
  {
    var t, now := Run(Fresh(max), before), End(before, start);
    AdmissionsCost(Fresh(max), before, start, ip);
    var first := FirstTime(window, End(window, now));
    FromFirst(window, now);
    TableLater(t, now, first);
    AdmissionsCost(t, window, first, ip);
    TokensGrow(t, ip, first, first);
    Longer(seconds, End(window, now) - first, RATE);
  }

  // The first time on the clock in `events`.
  function FirstTime(events: seq<Event>, otherwise: real): real
    decreases |events|
  {
    if events == [] then otherwise
    else if events[0].Connect? then events[0].now
    else FirstTime(events[1..], otherwise)
  }

  lemma {:induction false} FromFirst(events: seq<Event>, now: real)
    requires Ordered(events, now)
    ensures var first := FirstTime(events, End(events, now));
            now <= first && Ordered(events, first) && End(events, first) == End(events, now)
    decreases |events|
  {
    if events != [] && events[0].Close? { FromFirst(events[1..], now); }
  }

  // ---- at the cap ----

  lemma SmallerIfAny(ips: map<Ip, Address>, now: real)
    ensures |Swept(ips, now)| <= |ips|
    ensures |Swept(ips, now)| < |ips| <==> exists a :: a in ips && Idle(ips[a], now)
  {
    var left := Swept(ips, now);
    assert left.Keys <= ips.Keys;
    SubsetSize(left.Keys, ips.Keys);
    if a :| a in ips && Idle(ips[a], now) {
      assert left.Keys <= ips.Keys - {a};
      SubsetSize(left.Keys, ips.Keys - {a});
    } else {
      assert left.Keys == ips.Keys;
    }
  }

  lemma {:induction false} SubsetSize<T>(a: set<T>, b: set<T>)
    requires a <= b
    ensures |a| <= |b|
  {
    if a != {} {
      var x :| x in a;
      SubsetSize(a - {x}, b - {x});
    }
  }

  // At a full table a new address is refused exactly if no sweep is due at the
  // cap or below, or the sweep finds nothing idle.
  lemma FullTableAdmitsIff(t: Table, ip: Ip, now: real)
    requires t.open < t.max && |t.ips| == MAX_TRACKED && ip !in t.ips
    ensures Admit(t, ip, now).1 ==
            if t.nextSweep > MAX_TRACKED || forall a :: a in t.ips ==> !Idle(t.ips[a], now) then TableFull else Admitted
  {
    SmallerIfAny(t.ips, now);
    NowIs(NewAddress(now).connects, now);
  }

  // A sweep is the last one exactly if it leaves more than half the cap.
  lemma LastSweepIff(t: Table, ip: Ip, now: real)
    requires ip !in t.ips && |t.ips| >= t.nextSweep
    ensures MaybeSwept(t, ip, now).nextSweep > MAX_TRACKED <==> |Swept(t.ips, now)| > MAX_TRACKED / 2
  {
  }

  ghost predicate PastSweeping(t: Table) { t.nextSweep > MAX_TRACKED && |t.ips| <= MAX_TRACKED }

  lemma PastSweepingStep(t: Table, e: Event)
    requires PastSweeping(t)
    ensures var r := Happens(t, e).0; PastSweeping(r) && r.nextSweep == t.nextSweep && t.ips.Keys <= r.ips.Keys
  {
    assert e.ip in t.ips ==> t.ips.Keys + {e.ip} == t.ips.Keys;
  }

  // From then on nothing is ever forgotten: over any run the table only grows.
  lemma {:induction false} NeverSweepsAgain(t: Table, events: seq<Event>)
    requires PastSweeping(t)
    ensures var r := Run(t, events); PastSweeping(r) && r.nextSweep == t.nextSweep && t.ips.Keys <= r.ips.Keys
    decreases |events|
  {
    if events != [] {
      PastSweepingStep(t, events[0]);
      NeverSweepsAgain(Happens(t, events[0]).0, events[1..]);
    }
  }

  ghost predicate Stuck(t: Table) { |t.ips| == MAX_TRACKED && t.nextSweep > MAX_TRACKED }

  // A full table past its last sweep stays as it is, whatever is closed and
  // however long nothing happens: no new address is ever admitted again.
  lemma {:induction false} StuckForGood(t: Table, events: seq<Event>, k: nat)
    requires Stuck(t) && k < |events|
    ensures Stuck(Run(t, events)) && Run(t, events).ips.Keys == t.ips.Keys
    ensures events[k].Connect? && events[k].ip !in t.ips ==> Answers(t, events)[k] in {Some(ServerFull), Some(TableFull)}
    decreases |events|
  {
    StuckStep(t, events[0]);
    var t' := Happens(t, events[0]).0;
    if k > 0 {
      StuckForGood(t', events[1..], k - 1);
    } else if |events| > 1 {
      StuckForGood(t', events[1..], 0);
    }
  }

  lemma StuckStep(t: Table, e: Event)
    requires Stuck(t)
    ensures Stuck(Happens(t, e).0) && Happens(t, e).0.ips.Keys == t.ips.Keys
    ensures e.Connect? && e.ip !in t.ips ==> Happens(t, e).1 in {Some(ServerFull), Some(TableFull)}
  {
    assert e.ip in t.ips ==> t.ips.Keys + {e.ip} == t.ips.Keys;
  }

  // It is reached by as many addresses connecting at once.
  function Flood(addresses: seq<Ip>, now: real): (events: seq<Event>)
    ensures |events| == |addresses|
  {
    seq(|addresses|, k requires 0 <= k < |addresses| => Connect(addresses[k], now))
  }

  ghost predicate Distinct(s: seq<Ip>) { forall i, j :: 0 <= i < j < |s| ==> s[i] != s[j] }

  predicate Doubled(n: nat) { n in {1024, 2048, 4096, 8192, 16384, 32768, 65536, 131072} }

  ghost predicate Flooded(t: Table, addresses: seq<Ip>, now: real)
  {
    && t.ips.Keys == (set a | a in addresses) && |t.ips| == |addresses| == t.open && |addresses| <= t.nextSweep && Doubled(t.nextSweep)
    && forall ip :: ip in t.ips ==> t.ips[ip] == Address(1, Bucket(BURST, RATE, BURST - 1.0, now))
  }

  lemma FloodStep(t: Table, addresses: seq<Ip>, ip: Ip, now: real)
    requires Flooded(t, addresses, now) && |addresses| < MAX_TRACKED && |addresses| < t.max && ip !in addresses
    ensures Flooded(Admit(t, ip, now).0, addresses + [ip], now)
  {
    var s := MaybeSwept(t, ip, now);
    NowIs(NewAddress(now).connects, now);
    NothingToSweep(t.ips, now);
    assert (set a | a in addresses + [ip]) == (set a | a in addresses) + {ip};
  }

  lemma NothingToSweep(ips: map<Ip, Address>, now: real)
    requires forall a :: a in ips ==> ips[a] == Address(1, Bucket(BURST, RATE, BURST - 1.0, now))
    ensures Swept(ips, now) == ips
  {
    forall a | a in ips ensures !Idle(ips[a], now) && Asked(ips[a], now) == ips[a] {}
  }

  lemma {:induction false} RunLast(t: Table, events: seq<Event>)
    requires events != []
    ensures Run(t, events) == Happens(Run(t, events[..|events| - 1]), events[|events| - 1]).0
    decreases |events|
  {
    if |events| > 1 {
      assert events[1..][..|events| - 2] == events[..|events| - 1][1..];
      RunLast(Happens(t, events[0]).0, events[1..]);
    }
  }

  lemma {:induction false} FloodFills(max: nat, addresses: seq<Ip>, now: real)
    requires Distinct(addresses) && |addresses| <= MAX_TRACKED && |addresses| <= max
    ensures Run(Fresh(max), Flood(addresses, now)).max == max
    ensures Flooded(Run(Fresh(max), Flood(addresses, now)), addresses, now)
    decreases |addresses|
  {
    if addresses != [] {
      var n := |addresses| - 1;
      FloodFills(max, addresses[..n], now);
      FloodLast(max, addresses, now);
      FloodStep(Run(Fresh(max), Flood(addresses[..n], now)), addresses[..n], addresses[n], now);
      assert addresses[..n] + [addresses[n]] == addresses;
    }
  }

  lemma FloodLast(max: nat, addresses: seq<Ip>, now: real)
    requires addresses != []
    ensures var n := |addresses| - 1;
            Run(Fresh(max), Flood(addresses, now)) == Admit(Run(Fresh(max), Flood(addresses[..n], now)), addresses[n], now).0
  {
    var n := |addresses| - 1;
    assert Flood(addresses, now)[..n] == Flood(addresses[..n], now);
    RunLast(Fresh(max), Flood(addresses, now));
  }

  lemma FloodSticks(max: nat, addresses: seq<Ip>, now: real)
    requires Distinct(addresses) && |addresses| == MAX_TRACKED <= max
    ensures Stuck(Run(Fresh(max), Flood(addresses, now)))
  {
    FloodFills(max, addresses, now);
  }

  // ---- who is let in, and what is held ----

  // The answer, from what can be told of the table.
  ghost predicate AnswerIs(t: Table, ip: Ip, now: real, room: bool, answer: Answer)
  {
    match answer
    case ServerFull => t.open >= t.max
    case TableFull => t.open < t.max && !room
    case AddressFull => t.open < t.max && room && OpenOf(t, ip) >= 256
    case AddressRate => t.open < t.max && room && OpenOf(t, ip) < 256 && TokensOf(t, ip, now) < 1.0
    case Admitted => t.open < t.max && room && OpenOf(t, ip) < 256 && TokensOf(t, ip, now) >= 1.0
  }

  // A connection is let in exactly if the server and its address have a place
  // free, a token is there, and the table has room for the address; each
  // refusal names the first of these that fails.
  lemma AdmittedIff(t: Table, ip: Ip, now: real, answer: Answer)
    requires TableOk(t, now)
    ensures var s := MaybeSwept(t, ip, now);
            Admit(t, ip, now).1 == answer <==> AnswerIs(t, ip, now, ip in s.ips || |s.ips| < 100_000, answer)
  {
    var s := MaybeSwept(t, ip, now);
    SweepIsInvisible(t, ip, now);
    assert OpenOf(s, ip) == OpenOf(t, ip) && TokensOf(s, ip, now) == TokensOf(t, ip, now);
    EnteringAnswers(s, ip, now);
  }

  lemma EnteringAnswers(t: Table, ip: Ip, now: real)
    requires TableOk(t, now)
    ensures Entering(t, ip, now).1 ==
            if OpenOf(t, ip) >= 256 then AddressFull else if TokensOf(t, ip, now) < 1.0 then AddressRate else Admitted
  {
    NewIsOk(now);
  }

  // An address has 60 tokens when it is first seen, and then, until it
  // connects again, ten more a second, up to 60.
  lemma TokensAre(t: Table, ip: Ip, now: real, later: real)
    requires TableOk(t, now) && now <= later
    ensures ip !in t.ips ==> TokensOf(t, ip, now) == 60.0
    ensures TokensOf(t, ip, later) == RealMin(60.0, TokensOf(t, ip, now) + (later - now) * 10.0)
  {
    TokensGrow(t, ip, now, later);
  }

  // A close gives back what an address holds: one connection of its own and
  // of the server's, and nothing of anybody else.
  lemma CloseGivesBack(t: Table, ip: Ip, other: Ip)
    ensures var r, held := Release(t, ip), OpenOf(t, ip) > 0;
            && OpenOf(r, other) == OpenOf(t, other) - (if other == ip && held then 1 else 0)
            && r.open == t.open - (if held then 1 else 0) && r.max == t.max && r.nextSweep == t.nextSweep
            && forall now :: TokensOf(r, other, now) == TokensOf(t, other, now)
  {
  }

  // What an address holds by the answers it got and the closes since.
  function Held(n: nat, events: seq<Event>, answers: seq<Option<Answer>>, ip: Ip): nat
    requires |answers| == |events|
    decreases |events|
  {
    if events == [] then n
    else
      var next :=
        if events[0].ip != ip then n
        else if events[0].Connect? then if answers[0] == Some(Admitted) then n + 1 else n
        else if n > 0 then n - 1 else 0;
      Held(next, events[1..], answers[1..], ip)
  }

  lemma ConnectHolds(t: Table, ip: Ip, now: real, other: Ip)
    requires TableOk(t, now)
    ensures var (r, answer) := Admit(t, ip, now);
            TableOk(r, now) && OpenOf(r, other) == OpenOf(t, other) + if other == ip && answer.Admitted? then 1 else 0
  {
    ConnectCosts(t, ip, now, other);
    SweepIsInvisible(t, ip, now);
    var s := MaybeSwept(t, ip, now);
    assert OpenOf(s, other) == OpenOf(t, other);
    EnteringEffect(s, ip, now, other);
  }

  // Over any run the table's count of an address is what it was let in minus
  // what was closed, whatever was swept.
  lemma {:induction false} CountIsHeld(t: Table, events: seq<Event>, now: real, ip: Ip)
    requires TableOk(t, now) && Ordered(events, now)
    ensures OpenOf(Run(t, events), ip) == Held(OpenOf(t, ip), events, Answers(t, events), ip)
    decreases |events|
  {
    if events != [] {
      var (r, answer) := Happens(t, events[0]);
      assert Answers(t, events)[0] == answer && Answers(t, events)[1..] == Answers(r, events[1..]);
      match events[0] {
        case Connect(caller, later) =>
          SameLater(t, t, now, later);
          ConnectHolds(t, caller, later, ip);
          CountIsHeld(r, events[1..], later, ip);
        case Close(caller) =>
          CloseGivesBack(t, caller, ip);
          CountIsHeld(r, events[1..], now, ip);
      }
    }
  }
}
