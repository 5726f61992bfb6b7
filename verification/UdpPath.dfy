// Return-routability of the relay's UDP endpoints (src/community/udp_path.hpp):
// an address is bound only after it echoed a cookie sent to it.
module UdpPaths {
  import opened Options

  // Nanoseconds of the steady clock.
  const CHALLENGE_INTERVAL := 250_000_000
  const COOKIE_LIFETIME := 10_000_000_000

  datatype Endpoint = Endpoint(address: seq<bv8>, port: nat)
  const UNBOUND := Endpoint([], 0)

  type Cookie = seq<bv8>

  datatype State = State(bound: Endpoint, candidate: Endpoint, cookie: Cookie, issuedAt: int, lastSent: int, sentAny: bool, pending: bool)

  const INITIAL := State(UNBOUND, UNBOUND, [], 0, 0, false, false)

  // What the random source answers is a parameter of the step: None when it
  // fails.
  function Resends(s: State, src: Endpoint, now: int): bool
  {
    s.pending && src == s.candidate && now - s.issuedAt < COOKIE_LIFETIME
  }

  function Challenged(s: State, src: Endpoint, now: int, random: Option<Cookie>): (State, Option<Cookie>)
  {
    if s.sentAny && now - s.lastSent < CHALLENGE_INTERVAL then (s, None)
    else if Resends(s, src, now) then (s.(lastSent := now, sentAny := true), Some(s.cookie))
    else if random.None? then (s, None)
    else (s.(cookie := random.value, candidate := src, issuedAt := now, pending := true, lastSent := now, sentAny := true), random)
  }

  function Echoed(s: State, src: Endpoint, cookie: Cookie, now: int): (State, bool)
  {
    if !s.pending || src != s.candidate then (s, false)
    else if now - s.issuedAt > COOKIE_LIFETIME then (s.(pending := false), false)
    else if cookie != s.cookie then (s, false)
    else (s.(pending := false, bound := src), true)
  }

  class UdpPath {
    var bound: Endpoint
    var candidate: Endpoint
    var cookie: Cookie
    var issuedAt: int
    var lastSent: int
    var sentAny: bool
    var pending: bool

    ghost function Value(): State
      reads this
    {
      State(bound, candidate, cookie, issuedAt, lastSent, sentAny, pending)
    }

    constructor ()
      ensures Value() == INITIAL
    {
      bound, candidate, cookie := UNBOUND, UNBOUND, [];
      issuedAt, lastSent, sentAny, pending := 0, 0, false, false;
    }

    method MakeChallenge(src: Endpoint, now: int, random: Option<Cookie>) returns (out: Option<Cookie>)
      modifies this
      ensures (Value(), out) == Challenged(old(Value()), src, now, random)
    {
      if sentAny && now - lastSent < CHALLENGE_INTERVAL { return None; }
      var resend := pending && src == candidate && now - issuedAt < COOKIE_LIFETIME;
      if !resend {
        if random.None? { return None; }
        cookie := random.value;
        candidate := src;
        issuedAt := now;
        pending := true;
      }
      lastSent := now;
      sentAny := true;
      out := Some(cookie);
    }

    method AcceptEcho(src: Endpoint, echo: Cookie, now: int) returns (ok: bool)
      modifies this
      ensures (Value(), ok) == Echoed(old(Value()), src, echo, now)
    {
      if !pending || src != candidate { return false; }
      if now - issuedAt > COOKIE_LIFETIME {
        pending := false;
        return false;
      }
      if echo != cookie { return false; }
      pending := false;
      bound := src;
      ok := true;
    }
  }

  // ---- runs ----

  datatype Event =
    | Trigger(src: Endpoint, now: int, random: Option<Cookie>)
    | Echo(src: Endpoint, cookie: Cookie, now: int)

  // What went out and what was bound. Each cookie drawn has a number, so two
  // draws that happen to agree stay apart.
  datatype Entry =
    | Sent(to: Endpoint, cookie: Cookie, draw: nat, at: int)
    | Bound(to: Endpoint, cookie: Cookie, draw: nat, at: int)

  datatype History = History(state: State, draws: nat, log: seq<Entry>)

  const START := History(INITIAL, 0, [])

  function Happens(h: History, e: Event): History
  {
    match e
    case Trigger(src, now, random) =>
      var (state, out) := Challenged(h.state, src, now, random);
      if out.None? then h.(state := state)
      else
        var draws := if Resends(h.state, src, now) then h.draws else h.draws + 1;
        History(state, draws, h.log + [Sent(src, out.value, draws, now)])
    case Echo(src, cookie, now) =>
      var (state, ok) := Echoed(h.state, src, cookie, now);
      History(state, h.draws, if ok then h.log + [Bound(src, cookie, h.draws, now)] else h.log)
  }

  function Run(h: History, events: seq<Event>): History
  {
    if events == [] then h else Happens(Run(h, events[..|events| - 1]), events[|events| - 1])
  }

  // The cookie of draw `d` first went out, to `to`, at `t`.
  ghost predicate DrawnAt(log: seq<Entry>, i: nat, to: Endpoint, cookie: Cookie, d: nat, t: int)
  {
    i < |log| && log[i] == Sent(to, cookie, d, t) && forall j :: 0 <= j < i ==> log[j].draw < d
  }

  // A binding answers a cookie that was sent to exactly that address and drawn
  // at most ten seconds before, and is the only one to use that draw.
  ghost predicate Proven(log: seq<Entry>, k: nat)
    requires k < |log| && log[k].Bound?
  {
    && (exists i: nat, t :: i < k && DrawnAt(log, i, log[k].to, log[k].cookie, log[k].draw, t) && log[k].at - t <= COOKIE_LIFETIME)
    && (forall j :: 0 <= j < |log| && j != k && log[j].Bound? ==> log[j].draw != log[k].draw)
  }

  ghost predicate Inv(h: History)
  {
    && (forall k :: 0 <= k < |h.log| ==> h.log[k].draw <= h.draws)
    && (h.state.pending ==>
          && (exists i: nat :: DrawnAt(h.log, i, h.state.candidate, h.state.cookie, h.draws, h.state.issuedAt))
          && (forall k :: 0 <= k < |h.log| && h.log[k].Bound? ==> h.log[k].draw < h.draws))
    && (forall k :: 0 <= k < |h.log| && h.log[k].Bound? ==> Proven(h.log, k))
    && h.state.bound == LastBound(h.log)
  }

  function LastBound(log: seq<Entry>): Endpoint
  {
    if log == [] then UNBOUND else if log[|log| - 1].Bound? then log[|log| - 1].to else LastBound(log[..|log| - 1])
  }

  lemma DrawnStays(log: seq<Entry>, e: Entry, i: nat, to: Endpoint, cookie: Cookie, d: nat, t: int)
    requires DrawnAt(log, i, to, cookie, d, t)
    ensures DrawnAt(log + [e], i, to, cookie, d, t)
  {
  }

  lemma ProvenStays(log: seq<Entry>, e: Entry, k: nat)
    requires k < |log| && log[k].Bound? && Proven(log, k)
    requires e.Bound? ==> e.draw != log[k].draw
    ensures Proven(log + [e], k)
  {
    var i: nat, t :| i < k && DrawnAt(log, i, log[k].to, log[k].cookie, log[k].draw, t) && log[k].at - t <= COOKIE_LIFETIME;
    DrawnStays(log, e, i, log[k].to, log[k].cookie, log[k].draw, t);
  }

  lemma TriggerKeeps(h: History, src: Endpoint, now: int, random: Option<Cookie>)
    requires Inv(h)
    ensures Inv(Happens(h, Trigger(src, now, random)))
  {
    var r := Happens(h, Trigger(src, now, random));
    if r.log != h.log {
      var e := r.log[|h.log|];
      assert r.log[..|h.log|] == h.log;
      forall k | 0 <= k < |r.log| && r.log[k].Bound? ensures Proven(r.log, k) { ProvenStays(h.log, e, k); }
      if Resends(h.state, src, now) {
        var i: nat :| DrawnAt(h.log, i, h.state.candidate, h.state.cookie, h.draws, h.state.issuedAt);
        DrawnStays(h.log, e, i, h.state.candidate, h.state.cookie, h.draws, h.state.issuedAt);
      } else {
        assert DrawnAt(r.log, |h.log|, src, r.state.cookie, r.draws, now);
      }
    }
  }

  lemma EchoKeeps(h: History, src: Endpoint, cookie: Cookie, now: int)
    requires Inv(h)
    ensures Inv(Happens(h, Echo(src, cookie, now)))
  {
    var r := Happens(h, Echo(src, cookie, now));
    if r.log != h.log {
      var e := r.log[|h.log|];
      assert r.log[..|h.log|] == h.log;
      forall k | 0 <= k < |h.log| && r.log[k].Bound? ensures Proven(r.log, k) { ProvenStays(h.log, e, k); }
      var i: nat :| DrawnAt(h.log, i, h.state.candidate, h.state.cookie, h.draws, h.state.issuedAt);
      DrawnStays(h.log, e, i, h.state.candidate, h.state.cookie, h.draws, h.state.issuedAt);
      assert Proven(r.log, |h.log|);
    }
  }

  // Over every run each binding is proven, and the endpoint traffic goes to is
  // that of the last binding.
  lemma {:induction false} EveryBindingIsProven(events: seq<Event>)
    ensures Inv(Run(START, events))
    ensures var log := Run(START, events).log;
            forall k :: 0 <= k < |log| && log[k].Bound? ==> Proven(log, k)
    ensures Run(START, events).state.bound == LastBound(Run(START, events).log)
  {
    if events != [] {
      var h, e := Run(START, events[..|events| - 1]), events[|events| - 1];
      EveryBindingIsProven(events[..|events| - 1]);
      match e {
        case Trigger(src, now, random) => TriggerKeeps(h, src, now, random);
        case Echo(src, cookie, now) => EchoKeeps(h, src, cookie, now);
      }
    }
  }

  // ---- pacing ----

  function SentTimes(log: seq<Entry>): seq<int>
  {
    if log == [] then []
    else SentTimes(log[..|log| - 1]) + if log[|log| - 1].Sent? then [log[|log| - 1].at] else []
  }

  ghost predicate Paced(times: seq<int>)
  {
    forall k :: 0 < k < |times| ==> times[k] - times[k - 1] >= CHALLENGE_INTERVAL
  }

  ghost predicate PacingInv(h: History)
  {
    var times := SentTimes(h.log);
    Paced(times) && (h.state.sentAny <==> times != []) && (times != [] ==> h.state.lastSent == times[|times| - 1])
  }

  lemma Appended(log: seq<Entry>, e: Entry)
    ensures SentTimes(log + [e]) == SentTimes(log) + if e.Sent? then [e.at] else []
  {
    assert (log + [e])[..|log + [e]| - 1] == log;
  }

  lemma TriggerIsPaced(h: History, src: Endpoint, now: int, random: Option<Cookie>)
    requires PacingInv(h)
    ensures PacingInv(Happens(h, Trigger(src, now, random)))
  {
    var r := Happens(h, Trigger(src, now, random));
    if r.log != h.log {
      TriggerSends(h, src, now, random);
      Appended(h.log, r.log[|h.log|]);
    }
  }

  lemma TriggerSends(h: History, src: Endpoint, now: int, random: Option<Cookie>)
    requires Happens(h, Trigger(src, now, random)).log != h.log
    ensures var r := Happens(h, Trigger(src, now, random));
            && |r.log| == |h.log| + 1 && r.log == h.log + [r.log[|h.log|]] && r.log[|h.log|].Sent? && r.log[|h.log|].at == now
            && r.state.lastSent == now && r.state.sentAny && (h.state.sentAny ==> now - h.state.lastSent >= CHALLENGE_INTERVAL)
  {
  }

  lemma EchoIsPaced(h: History, src: Endpoint, cookie: Cookie, now: int)
    requires PacingInv(h)
    ensures PacingInv(Happens(h, Echo(src, cookie, now)))
  {
    Appended(h.log, Bound(src, cookie, h.draws, now));
  }

  lemma {:induction false} ChallengesArePaced(events: seq<Event>)
    ensures PacingInv(Run(START, events))
  {
    if events != [] {
      ChallengesArePaced(events[..|events| - 1]);
      match events[|events| - 1] {
        case Trigger(src, now, random) => TriggerIsPaced(Run(START, events[..|events| - 1]), src, now, random);
        case Echo(src, cookie, now) => EchoIsPaced(Run(START, events[..|events| - 1]), src, cookie, now);
      }
    }
  }

  // A challenge goes out to `src` exactly if none did in the last 250 ms and
  // there is a cookie to send: the one it was challenged with less than ten
  // seconds ago, or else one the random source gives.
  lemma ChallengeGoesOutIff(events: seq<Event>, src: Endpoint, now: int, random: Option<Cookie>)
    ensures var h := Run(START, events);
            var r, times := Happens(h, Trigger(src, now, random)), SentTimes(h.log);
            var waits := h.state.pending && h.state.candidate == src && now - h.state.issuedAt < 10_000_000_000;
            && (r.log != h.log <==> (times == [] || now - times[|times| - 1] >= 250_000_000) && (waits || random.Some?))
            && (r.log != h.log ==>
                  |r.log| == |h.log| + 1 && r.log[..|h.log|] == h.log && r.log[|h.log|].Sent? && r.log[|h.log|].to == src
                  && r.log[|h.log|].at == now && r.log[|h.log|].cookie == if waits then h.state.cookie else random.value)
  {
    ChallengesArePaced(events);
  }

  lemma {:induction false} PacedSpread(times: seq<int>, i: nat, j: nat)
    requires Paced(times) && i <= j < |times|
    ensures times[j] - times[i] >= (j - i) * CHALLENGE_INTERVAL
    decreases j
  {
    if i < j { PacedSpread(times, i, j - 1); }
  }

  // Of the challenges of a run, at most T / 250 ms + 1 go out in any window of
  // length T: the ones from the i-th to the j-th span that much.
  lemma FewChallengesPerWindow(events: seq<Event>, i: nat, j: nat, window: nat)
    requires i <= j < |SentTimes(Run(START, events).log)|
    requires SentTimes(Run(START, events).log)[j] - SentTimes(Run(START, events).log)[i] <= window
    ensures j - i + 1 <= window / CHALLENGE_INTERVAL + 1
  {
    ChallengesArePaced(events);
    PacedSpread(SentTimes(Run(START, events).log), i, j);
  }

  // ---- and the honest path binds ----

  // Nothing that takes the challenge to `src` away: no trigger from elsewhere,
  // no accepted echo, and all within the cookie's lifetime.
  ghost predicate Undisturbed(s: State, events: seq<Event>)
  {
    forall k :: 0 <= k < |events| ==>
      && events[k].now - s.issuedAt < COOKIE_LIFETIME
      && (events[k].Trigger? ==> events[k].src == s.candidate)
      && (events[k].Echo? && events[k].src == s.candidate ==> events[k].cookie != s.cookie)
  }

  lemma {:induction false} StillPending(h: History, events: seq<Event>)
    requires h.state.pending && Undisturbed(h.state, events)
    ensures var r := Run(h, events).state;
            r.pending && r.candidate == h.state.candidate && r.cookie == h.state.cookie && r.issuedAt == h.state.issuedAt
  {
    if events != [] {
      assert Undisturbed(h.state, events[..|events| - 1]);
      StillPending(h, events[..|events| - 1]);
    }
  }

  // An address that is challenged and echoes the cookie in time is bound,
  // whatever repeated triggers and failed echoes come between.
  lemma HonestEchoBinds(h: History, src: Endpoint, now: int, random: Option<Cookie>, between: seq<Event>, later: int)
    requires Challenged(h.state, src, now, random).1.Some?
    requires var s := Challenged(h.state, src, now, random).0;
             Undisturbed(s, between) && later - s.issuedAt <= COOKIE_LIFETIME
    ensures var sent := Challenged(h.state, src, now, random).1.value;
            var r := Happens(Run(Happens(h, Trigger(src, now, random)), between), Echo(src, sent, later));
            r.state.bound == src && !r.state.pending
  {
    StillPending(Happens(h, Trigger(src, now, random)), between);
  }
}
