// The token bucket (src/community/rate_limit.hpp), over reals, with the clock
// as a parameter.
module RateLimit {
  datatype Bucket = Bucket(capacity: real, refill: real, tokens: real, last: real)

  function RealMin(a: real, b: real): real { if a <= b then a else b }

  // What `seconds` at `rate` bring.
  function Earned(seconds: real, rate: real): real { seconds * rate }

  // The tokens at `now`.
  function TokensAt(b: Bucket, now: real): real
  {
    RealMin(b.capacity, b.tokens + Earned(now - b.last, b.refill))
  }

  function Refilled(b: Bucket, now: real): Bucket { b.(tokens := TokensAt(b, now), last := now) }

  predicate Sane(b: Bucket) { 0.0 <= b.tokens <= b.capacity && b.refill > 0.0 && b.capacity >= 1.0 }

  function Taken(b: Bucket, now: real): (Bucket, bool)
  {
    var r := Refilled(b, now);
    if r.tokens < 1.0 then (r, false) else (r.(tokens := r.tokens - 1.0), true)
  }

  lemma TimesSum(a: real, b: real, c: real, r: real)
    requires c == a + b
    ensures Earned(c, r) == Earned(a, r) + Earned(b, r)
  {
  }

  lemma Grows(t: real, r: real)
    requires t >= 0.0 && r > 0.0
    ensures Earned(t, r) >= 0.0 && (t > 0.0 ==> Earned(t, r) > 0.0) && (t == 0.0 ==> Earned(t, r) == 0.0)
  {
  }

  lemma NowIs(b: Bucket, now: real)
    requires b.last == now && b.tokens <= b.capacity && b.refill > 0.0
    ensures TokensAt(b, now) == b.tokens
  {
    Grows(now - b.last, b.refill);
  }

  lemma MinComposes(cap: real, tokens: real, x: real, y: real)
    requires y >= 0.0
    ensures RealMin(cap, RealMin(cap, tokens + x) + y) == RealMin(cap, tokens + (x + y))
  {
  }

  // Refilling on the way changes nothing later.
  lemma RefillComposes(b: Bucket, t: real, now: real)
    requires b.last <= t <= now && Sane(b)
    ensures TokensAt(Refilled(b, t), now) == TokensAt(b, now)
  {
    TimesSum(t - b.last, now - t, now - b.last, b.refill);
    Grows(now - t, b.refill);
    MinComposes(b.capacity, b.tokens, Earned(t - b.last, b.refill), Earned(now - t, b.refill));
  }

  // Tokens come at the refill rate, up to the capacity.
  lemma EarnsSteadily(b: Bucket, t: real, now: real)
    requires b.last <= t <= now && Sane(b)
    ensures TokensAt(b, now) == RealMin(b.capacity, TokensAt(b, t) + (now - t) * b.refill)
  {
    RefillComposes(b, t, now);
    TokensSince(Refilled(b, t), now);
  }

  lemma TokensSince(b: Bucket, now: real)
    ensures TokensAt(b, now) == RealMin(b.capacity, b.tokens + (now - b.last) * b.refill)
  {
  }

  lemma RefilledIsSane(b: Bucket, now: real)
    requires Sane(b) && b.last <= now
    ensures Sane(Refilled(b, now)) && TokensAt(b, now) >= b.tokens
    ensures TokensAt(Refilled(b, now), now) == TokensAt(b, now)
  {
    Grows(now - b.last, b.refill);
    NowIs(Refilled(b, now), now);
  }

  lemma TakenIsSane(b: Bucket, now: real)
    requires Sane(b) && b.last <= now
    ensures Sane(Taken(b, now).0) && Taken(b, now).0.last == now
    ensures TokensAt(Taken(b, now).0, now) == TokensAt(b, now) - if Taken(b, now).1 then 1.0 else 0.0
  {
    RefilledIsSane(b, now);
    NowIs(Taken(b, now).0, now);
  }

  class TokenBucket {
    const capacity: real
    const refill: real
    var tokens: real
    var last: real

    ghost function Value(): Bucket
      reads this
    {
      Bucket(capacity, refill, tokens, last)
    }

    constructor (capacity: real, refillPerSec: real, now: real)
      ensures Value() == Bucket(capacity, refillPerSec, capacity, now)
    {
      this.capacity, refill, tokens, last := capacity, refillPerSec, capacity, now;
    }

    method Refill(now: real)
      modifies this
      ensures Value() == Refilled(old(Value()), now)
    {
      var elapsed := now - last;
      last := now;
      tokens := RealMin(capacity, tokens + Earned(elapsed, refill));
    }

    method TryTake(now: real) returns (ok: bool)
      modifies this
      ensures (Value(), ok) == Taken(old(Value()), now)
    {
      Refill(now);
      if tokens < 1.0 { return false; }
      tokens := tokens - 1.0;
      ok := true;
    }

    // The wait is exact: a take succeeds exactly once it is over.
    method WaitSeconds(now: real) returns (wait: real)
      requires refill != 0.0
      modifies this
      ensures Value() == Refilled(old(Value()), now)
      ensures wait == if tokens >= 1.0 then 0.0 else (1.0 - tokens) / refill
      ensures Sane(old(Value())) && old(last) <= now ==> forall at :: now <= at ==> (Taken(Value(), at).1 <==> at - now >= wait)
    {
      ghost var was := Value();
      Refill(now);
      wait := if tokens >= 1.0 then 0.0 else (1.0 - tokens) / refill;
      if Sane(was) && was.last <= now {
        forall at | now <= at ensures Taken(Value(), at).1 <==> at - now >= wait { WaitIsExact(was, now, at); }
      }
    }

    // The bucket is full exactly when it can be forgotten: from now on it is
    // the one its owner would be given anew.
    method Full(now: real) returns (full: bool)
      modifies this
      ensures Value() == Refilled(old(Value()), now)
      ensures full <==> Value() == Bucket(capacity, refill, capacity, now)
    {
      Refill(now);
      full := tokens >= capacity;
    }
  }

  lemma Longer(a: real, b: real, r: real)
    requires r > 0.0
    ensures Earned(a, r) >= Earned(b, r) <==> a >= b
  {
    if a >= b {
      Grows(a - b, r);
      TimesSum(a - b, b, a, r);
    } else {
      Grows(b - a, r);
      TimesSum(b - a, a, b, r);
    }
  }

  lemma Divided(x: real, r: real)
    requires r > 0.0
    ensures Earned(x / r, r) == x
  {
  }

  // The wait is exact: a take succeeds at `at` exactly when the wait answered
  // at `now` is over.
  lemma WaitIsExact(b: Bucket, now: real, at: real)
    requires Sane(b) && b.last <= now <= at
    ensures var r := Refilled(b, now);
            var wait := if r.tokens >= 1.0 then 0.0 else (1.0 - r.tokens) / r.refill;
            Taken(r, at).1 <==> at - now >= wait
  {
    var r := Refilled(b, now);
    RefilledIsSane(b, now);
    Grows(at - now, r.refill);
    if r.tokens < 1.0 {
      Divided(1.0 - r.tokens, r.refill);
      Longer(at - now, (1.0 - r.tokens) / r.refill, r.refill);
    }
  }
}
