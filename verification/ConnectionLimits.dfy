// Admission of connections (src/community/connection_limits.hpp): caps on the
// server and on each address, a rate per address, and a table that forgets
// idle addresses in an amortised sweep.
module Admission {
  import opened Options
  import opened RateLimit

  const MAX_CONNECTIONS_PER_IP: nat := 256
  const MAX_TRACKED: nat := 100000
  const FIRST_SWEEP: nat := 1024
  const BURST := 60.0
  const RATE := 10.0

  type Ip = string

  datatype Address = Address(open: nat, connects: Bucket)

  datatype Answer = Admitted | ServerFull | AddressFull | AddressRate | TableFull

  datatype Table = Table(max: nat, open: int, nextSweep: nat, ips: map<Ip, Address>)

  function Fresh(max: nat): Table { Table(max, 0, FIRST_SWEEP, map[]) }

  function NewAddress(now: real): Address { Address(0, Bucket(BURST, RATE, BURST, now)) }

  // Nothing left to remember of an address.
  predicate Idle(a: Address, now: real) { a.open == 0 && TokensAt(a.connects, now) >= a.connects.capacity }

  // What asking `Idle` leaves: only a closed address's bucket is looked at.
  function Asked(a: Address, now: real): Address { if a.open == 0 then a.(connects := Refilled(a.connects, now)) else a }

  function Swept(ips: map<Ip, Address>, now: real): map<Ip, Address>
  {
    map ip | ip in ips && !Idle(ips[ip], now) :: Asked(ips[ip], now)
  }

  function NextSweep(size: nat): nat { if FIRST_SWEEP < size * 2 then size * 2 else FIRST_SWEEP }

  // A connection from a tracked address.
  function Entered(a: Address, now: real): (Address, Answer)
  {
    if a.open >= MAX_CONNECTIONS_PER_IP then (a, AddressFull)
    else
      var (bucket, ok) := Taken(a.connects, now);
      if ok then (Address(a.open + 1, bucket), Admitted) else (a.(connects := bucket), AddressRate)
  }

  function Entering(t: Table, ip: Ip, now: real): (Table, Answer)
  {
    var (a, answer) := Entered(if ip in t.ips then t.ips[ip] else NewAddress(now), now);
    (t.(ips := t.ips[ip := a], open := if answer.Admitted? then t.open + 1 else t.open), answer)
  }

  function MaybeSwept(t: Table, ip: Ip, now: real): Table
  {
    if ip !in t.ips && |t.ips| >= t.nextSweep then
      var ips := Swept(t.ips, now);
      t.(ips := ips, nextSweep := NextSweep(|ips|))
    else t
  }

  function Admit(t: Table, ip: Ip, now: real): (Table, Answer)
  {
    if t.open >= t.max then (t, ServerFull)
    else
      var s := MaybeSwept(t, ip, now);
      if ip !in s.ips && |s.ips| >= MAX_TRACKED then (s, TableFull) else Entering(s, ip, now)
  }

  function Release(t: Table, ip: Ip): Table
  {
    if ip !in t.ips || t.ips[ip].open == 0 then t
    else t.(ips := t.ips[ip := t.ips[ip].(open := t.ips[ip].open - 1)], open := t.open - 1)
  }

  // ---- the object ----

  class ConnectionLimits {
    const maxConnections: nat
    var open: int
    var nextSweep: nat
    var ips: map<Ip, Address>

    ghost function Value(): Table
      reads this
    {
      Table(maxConnections, open, nextSweep, ips)
    }

    constructor (maxConnections: nat)
      ensures Value() == Fresh(maxConnections)
    {
      this.maxConnections, open, nextSweep, ips := maxConnections, 0, FIRST_SWEEP, map[];
    }

    method AdmitFrom(ip: Ip, now: real) returns (answer: Answer)
      modifies this
      ensures (Value(), answer) == Admit(old(Value()), ip, now)
    {
      if open >= maxConnections { return ServerFull; }
      if ip !in ips {
        if |ips| >= nextSweep {
          Sweep(now);
          nextSweep := if FIRST_SWEEP < |ips| * 2 then |ips| * 2 else FIRST_SWEEP;
        }
        if |ips| >= MAX_TRACKED { return TableFull; }
        ghost var swept := ips;
        ips := ips[ip := NewAddress(now)];
        ghost var a := Entered(NewAddress(now), now).0;
        assert ips[ip := a] == swept[ip := a];
      }
      answer := Enter(ip, now);
    }

    // The part after the lookup.
    method Enter(ip: Ip, now: real) returns (answer: Answer)
      requires ip in ips
      modifies this
      ensures (Value(), answer) == Entering(old(Value()), ip, now)
    {
      assert ips[ip := ips[ip]] == ips;
      if ips[ip].open >= MAX_CONNECTIONS_PER_IP { return AddressFull; }
      var (bucket, ok) := Taken(ips[ip].connects, now);
      var a := ips[ip].(connects := bucket);
      if !ok {
        ips := ips[ip := a];
        return AddressRate;
      }
      ips := ips[ip := a.(open := a.open + 1)];
      open := open + 1;
      answer := Admitted;
    }

    // Erases the idle entries in one pass.
    method Sweep(now: real)
      modifies `ips
      ensures ips == Swept(old(ips), now)
    {
      var todo := ips.Keys;
      while todo != {}
        invariant ips == map ip | ip in old(ips) && (ip in todo || !Idle(old(ips)[ip], now)) ::
                    if ip in todo then old(ips)[ip] else Asked(old(ips)[ip], now)
        invariant todo <= old(ips).Keys
      {
        var ip :| ip in todo;
        if Idle(ips[ip], now) { ips := ips - {ip}; } else { ips := ips[ip := Asked(ips[ip], now)]; }
        todo := todo - {ip};
      }
    }

    method ReleaseFrom(ip: Ip)
      modifies this
      ensures Value() == Release(old(Value()), ip)
    {
      if ip !in ips || ips[ip].open == 0 { return; }
      ips := ips[ip := ips[ip].(open := ips[ip].open - 1)];
      open := open - 1;
    }
  }

  // ---- the caps ----

  // Connections counted address by address.
  ghost function Opens(ips: map<Ip, Address>): nat
  {
    if ips == map[] then 0
    else
      var ip :| ip in ips;
      ips[ip].open + Opens(ips - {ip})
  }

  lemma {:induction false} OpensWithout(ips: map<Ip, Address>, ip: Ip)
    requires ip in ips
    ensures Opens(ips) == ips[ip].open + Opens(ips - {ip})
    decreases |ips|
  {
    var other :| other in ips && Opens(ips) == ips[other].open + Opens(ips - {other});
    if other != ip {
      OpensWithout(ips - {other}, ip);
      assert ips - {other} - {ip} == ips - {ip} - {other};
      OpensWithout(ips - {ip}, other);
    }
  }

  lemma OpensPut(ips: map<Ip, Address>, ip: Ip, a: Address)
    ensures Opens(ips[ip := a]) == Opens(ips) - (if ip in ips then ips[ip].open else 0) + a.open
  {
    OpensWithout(ips[ip := a], ip);
    if ip in ips {
      OpensWithout(ips, ip);
      assert ips[ip := a] - {ip} == ips - {ip};
    } else {
      assert ips[ip := a] - {ip} == ips;
    }
  }

  lemma SweptWithout(ips: map<Ip, Address>, ip: Ip, now: real)
    requires ip in ips
    ensures Swept(ips - {ip}, now) == Swept(ips, now) - {ip}
    ensures ip in Swept(ips, now) <==> !Idle(ips[ip], now)
    ensures ip in Swept(ips, now) ==> Swept(ips, now)[ip].open == ips[ip].open
  {
  }

  lemma {:induction false} OpensSwept(ips: map<Ip, Address>, now: real)
    ensures Opens(Swept(ips, now)) == Opens(ips)
    decreases |ips|
  {
    if ips == map[] {
      assert Swept(ips, now) == map[];
    } else {
      var ip :| ip in ips;
      OpensWithout(ips, ip);
      OpensSwept(ips - {ip}, now);
      SweptWithout(ips, ip, now);
      if ip in Swept(ips, now) {
        OpensWithout(Swept(ips, now), ip);
      } else {
        assert Swept(ips, now) - {ip} == Swept(ips, now);
      }
    }
  }

  // The caps hold and `open` is the sum of the addresses' connections.
  ghost predicate Capped(t: Table)
  {
    t.open == Opens(t.ips) && t.open <= t.max && forall ip :: ip in t.ips ==> t.ips[ip].open <= MAX_CONNECTIONS_PER_IP
  }

  lemma SweepKeepsCaps(t: Table, ip: Ip, now: real)
    requires Capped(t)
    ensures Capped(MaybeSwept(t, ip, now))
  {
    OpensSwept(t.ips, now);
  }

  lemma AdmitKeepsCaps(t: Table, ip: Ip, now: real)
    requires Capped(t)
    ensures Capped(Admit(t, ip, now).0)
  {
    if t.open < t.max {
      var s := MaybeSwept(t, ip, now);
      SweepKeepsCaps(t, ip, now);
      OpensPut(s.ips, ip, Entered(if ip in s.ips then s.ips[ip] else NewAddress(now), now).0);
    }
  }

  lemma ReleaseKeepsCaps(t: Table, ip: Ip)
    requires Capped(t)
    ensures Capped(Release(t, ip))
  {
    if ip in t.ips && t.ips[ip].open > 0 { OpensPut(t.ips, ip, t.ips[ip].(open := t.ips[ip].open - 1)); }
  }
}
