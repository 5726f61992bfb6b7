// The search worker's queue (src/community/search.cpp): one search a session,
// a newer one supersedes it, and the worker's thread interleaves with both.
module SearchWorkers {
  import opened Options

  const MAX_QUEUED: nat := 32

  // A search and where its answer goes; each submission has its own ticket.
  datatype Job = Job(owner: nat, ticket: nat)

  // `current` is the job the worker's thread is executing.
  datatype State = State(queue: seq<Job>, current: Option<Job>, runningOwner: nat, cancelRunning: bool, stop: bool)

  const IDLE := State([], None, 0, false, false)

  // Where the owner's queued search is, |queue| if there is none.
  function Place(queue: seq<Job>, owner: nat): (k: nat)
    ensures k <= |queue| && (k < |queue| ==> queue[k].owner == owner)
    ensures forall i :: 0 <= i < k ==> queue[i].owner != owner
  {
    if queue == [] || queue[0].owner == owner then 0 else 1 + Place(queue[1..], owner)
  }

  function Without(queue: seq<Job>, owner: nat): (r: seq<Job>)
    ensures forall i :: 0 <= i < |r| ==> r[i].owner != owner && r[i] in queue
    ensures forall j :: j in queue && j.owner != owner ==> j in r
  {
    if queue == [] then []
    else Without(queue[..|queue| - 1], owner) + if queue[|queue| - 1].owner == owner then [] else [queue[|queue| - 1]]
  }

  predicate Cancels(s: State, owner: nat) { s.runningOwner != 0 && s.runningOwner == owner }

  // The flag: accepted, or busy.
  function Submitted(s: State, job: Job): (State, bool)
  {
    var c := s.(cancelRunning := s.cancelRunning || Cancels(s, job.owner));
    var k := Place(s.queue, job.owner);
    if k < |s.queue| then (c.(queue := s.queue[k := job]), true)
    else if |s.queue| >= MAX_QUEUED then (c, false)
    else (c.(queue := s.queue + [job]), true)
  }

  function Cancelled(s: State, owner: nat): State
  {
    s.(queue := Without(s.queue, owner), cancelRunning := s.cancelRunning || Cancels(s, owner))
  }

  function Stopped(s: State): State { s.(stop := true, queue := [], cancelRunning := true) }

  // The worker's wait is over.
  predicate CanTake(s: State) { s.current.None? && !s.stop && s.queue != [] }

  function Taken(s: State): State
    requires CanTake(s)
  {
    State(s.queue[1..], Some(s.queue[0]), s.queue[0].owner, false, s.stop)
  }

  // The completion check; the flag says whether the answer is given.
  function Finished(s: State): (State, bool)
  {
    (s.(current := None, runningOwner := 0, cancelRunning := false), !(s.cancelRunning || s.stop))
  }

  class SearchWorker {
    var queue: seq<Job>
    var current: Option<Job>
    var runningOwner: nat
    var cancelRunning: bool
    var stop: bool

    ghost function Value(): State
      reads this
    {
      State(queue, current, runningOwner, cancelRunning, stop)
    }

    constructor ()
      ensures Value() == IDLE
    {
      queue, current, runningOwner, cancelRunning, stop := [], None, 0, false, false;
    }

    method Submit(job: Job) returns (accepted: bool)
      modifies this
      ensures (Value(), accepted) == Submitted(old(Value()), job)
    {
      if runningOwner != 0 && runningOwner == job.owner { cancelRunning := true; }
      for k := 0 to |queue|
        invariant queue == old(queue) && k <= Place(queue, job.owner)
        invariant Value() == old(Value()).(cancelRunning := old(cancelRunning) || Cancels(old(Value()), job.owner))
      {
        if queue[k].owner == job.owner {
          queue := queue[k := job];
          return true;
        }
      }
      if |queue| >= MAX_QUEUED { return false; }
      queue := queue + [job];
      accepted := true;
    }

    method Cancel(owner: nat)
      modifies this
      ensures Value() == Cancelled(old(Value()), owner)
    {
      var kept := [];
      for k := 0 to |queue|
        invariant queue == old(queue) && Value() == old(Value()) && kept == Without(queue[..k], owner)
      {
        assert queue[..k + 1][..k] == queue[..k];
        if queue[k].owner != owner { kept := kept + [queue[k]]; }
      }
      assert queue[..|queue|] == queue;
      queue := kept;
      if runningOwner != 0 && runningOwner == owner { cancelRunning := true; }
    }

    method Stop()
      modifies this
      ensures Value() == Stopped(old(Value()))
    {
      stop := true;
      queue := [];
      cancelRunning := true;
    }

    // The worker's thread takes the first job.
    method Take()
      requires CanTake(Value())
      modifies this
      ensures Value() == Taken(old(Value()))
    {
      current := Some(queue[0]);
      queue := queue[1..];
      runningOwner := current.value.owner;
      cancelRunning := false;
    }

    method Finish() returns (answers: bool)
      modifies this
      ensures (Value(), answers) == Finished(old(Value()))
    {
      var cancelled := cancelRunning || stop;
      runningOwner := 0;
      cancelRunning := false;
      current := None;
      answers := !cancelled;
    }
  }

  // ---- one call ----

  // A search is accepted exactly if its owner had one queued, which it then
  // replaces, or fewer than 32 are; it flags the owner's running search, and
  // leaves the other owners' searches as they are.
  lemma AcceptedIff(s: State, job: Job)
    ensures var (r, accepted) := Submitted(s, job);
            var queued := exists i :: 0 <= i < |s.queue| && s.queue[i].owner == job.owner;
            && (accepted <==> queued || |s.queue| < 32)
            && (accepted ==> job in r.queue && |r.queue| == |s.queue| + if queued then 0 else 1)
            && (!accepted ==> r.queue == s.queue)
            && (forall i :: 0 <= i < |s.queue| && s.queue[i].owner != job.owner ==> i < |r.queue| && r.queue[i] == s.queue[i])
            && (r.cancelRunning <==> s.cancelRunning || (job.owner != 0 && s.runningOwner == job.owner))
            && r == s.(queue := r.queue, cancelRunning := r.cancelRunning)
  {
    var k := Place(s.queue, job.owner);
    if k < |s.queue| {
      assert s.queue[k := job][k] == job;
    } else {
      assert (s.queue + [job])[|s.queue|] == job;
    }
  }

  lemma WithoutLast(queue: seq<Job>, init: seq<Job>, job: Job, owner: nat)
    requires queue == init + [job]
    ensures Without(queue, owner) == Without(init, owner) + if job.owner == owner then [] else [job]
  {
    assert queue[..|queue| - 1] == init;
  }

  lemma Chain<T>(whole: seq<T>, first: seq<T>, a: seq<T>, init: seq<T>, b: seq<T>, k: seq<T>)
    requires whole == first + k && first == a + init && b == init + k
    ensures whole == a + b
  {
  }

  lemma SplitLast<T>(a: seq<T>, b: seq<T>, init: seq<T>, last: T)
    requires b != [] && init == b[..|b| - 1] && last == b[|b| - 1]
    ensures b == init + [last] && a + b == (a + init) + [last]
  {
  }

  lemma {:induction false} WithoutConcat(a: seq<Job>, b: seq<Job>, owner: nat)
    ensures Without(a + b, owner) == Without(a, owner) + Without(b, owner)
    decreases |b|
  {
    if b == [] {
      assert a + b == a;
    } else {
      var init, last := b[..|b| - 1], b[|b| - 1];
      SplitLast(a, b, init, last);
      WithoutConcat(a, init, owner);
      WithoutLast(a + b, a + init, last, owner);
      WithoutLast(b, init, last, owner);
      Chain(Without(a + b, owner), Without(a + init, owner), Without(a, owner), Without(init, owner), Without(b, owner),
            if last.owner == owner then [] else [last]);
    }
  }

  // Cancelling takes the owner's search out of the queue, and no other.
  lemma CancelDrops(before: seq<Job>, job: Job, after: seq<Job>, owner: nat)
    ensures Without(before + [job] + after, owner) ==
            Without(before, owner) + (if job.owner == owner then [] else [job]) + Without(after, owner)
  {
    WithoutConcat(before + [job], after, owner);
    WithoutLast(before + [job], before, job, owner);
  }

  // ---- every interleaving ----

  datatype Event = Submit(owner: nat) | Cancel(owner: nat) | Take | Finish | Stop

  // The n-th submission has ticket n. `dead` are the searches refused,
  // superseded, cancelled or stopped before their completion check.
  datatype World = World(state: State, next: nat, dead: set<nat>, answered: seq<nat>)

  const START := World(IDLE, 0, {}, [])

  // The searches of one owner that have not reached their check.
  function PendingOf(s: State, owner: nat): set<nat>
  {
    (set j | j in s.queue && j.owner == owner :: j.ticket) +
    (if s.current.Some? && s.current.value.owner == owner then {s.current.value.ticket} else {})
  }

  function Pending(s: State): set<nat>
  {
    (set j | j in s.queue :: j.ticket) + (if s.current.Some? then {s.current.value.ticket} else {})
  }

  // A thread that has to wait leaves the world as it is.
  function Happens(w: World, e: Event): World
  {
    match e
    case Submit(owner) =>
      var (state, accepted) := Submitted(w.state, Job(owner, w.next));
      World(state, w.next + 1, w.dead + PendingOf(w.state, owner) + (if accepted then {} else {w.next}), w.answered)
    case Cancel(owner) => w.(state := Cancelled(w.state, owner), dead := w.dead + PendingOf(w.state, owner))
    case Stop => w.(state := Stopped(w.state), dead := w.dead + Pending(w.state))
    case Take => if CanTake(w.state) then w.(state := Taken(w.state)) else w
    case Finish =>
      if w.state.current.None? then w
      else
        var (state, answers) := Finished(w.state);
        w.(state := state, answered := if answers then w.answered + [w.state.current.value.ticket] else w.answered)
  }

  function Run(w: World, events: seq<Event>): World
  {
    if events == [] then w else Happens(Run(w, events[..|events| - 1]), events[|events| - 1])
  }

  // At most 32 jobs are queued, at most one of each owner.
  ghost predicate QueueOk(queue: seq<Job>)
  {
    |queue| <= MAX_QUEUED && forall i, j :: 0 <= i < j < |queue| ==> queue[i].owner != queue[j].owner && queue[i].ticket != queue[j].ticket
  }

  // A ticket's fate: waiting, executing, answered or dead.
  ghost predicate Fresh(w: World, t: nat) { t < w.next && t !in w.answered }

  ghost predicate QueuedOk(w: World)
  {
    QueueOk(w.state.queue) && forall j :: j in w.state.queue ==> j.owner != 0 && Fresh(w, j.ticket) && j.ticket !in w.dead
  }

  ghost predicate CurrentOk(w: World)
  {
    match w.state.current
    case None => w.state.runningOwner == 0
    case Some(j) =>
      && w.state.runningOwner == j.owner != 0 && Fresh(w, j.ticket) && (forall q :: q in w.state.queue ==> q.ticket != j.ticket)
      && ((w.state.cancelRunning || w.state.stop) <==> j.ticket in w.dead)
  }

  ghost predicate AnsweredOk(w: World)
  {
    && (forall i, j :: 0 <= i < j < |w.answered| ==> w.answered[i] != w.answered[j])
    && (forall t :: t in w.answered ==> t < w.next && t !in w.dead)
    && (forall t :: t in w.dead ==> t < w.next)
  }

  // Every submission is pending, answered or dead.
  ghost predicate Accounted(w: World)
  {
    forall t: nat :: t < w.next ==> t in w.answered || t in w.dead || t in Pending(w.state)
  }

  ghost predicate Inv(w: World) { QueuedOk(w) && CurrentOk(w) && AnsweredOk(w) && Accounted(w) }

  // ---- one step ----

  lemma SubmitQueued(w: World, owner: nat)
    requires Inv(w) && owner != 0
    ensures QueuedOk(Happens(w, Submit(owner)))
  {
    var queue, k := w.state.queue, Place(w.state.queue, owner);
    var r := Happens(w, Submit(owner));
    forall j | j in r.state.queue ensures j.owner != 0 && Fresh(r, j.ticket) && j.ticket !in r.dead {
      if j in queue && j.owner != owner { OthersSpared(w, j, owner); }
    }
  }

  // Nothing of another owner is superseded.
  lemma OthersSpared(w: World, j: Job, owner: nat)
    requires QueuedOk(w) && CurrentOk(w) && j in w.state.queue && j.owner != owner
    ensures j.ticket !in PendingOf(w.state, owner)
  {
  }

  lemma CurrentSpared(w: World, owner: nat)
    requires CurrentOk(w) && w.state.current.Some?
    ensures w.state.current.value.ticket in PendingOf(w.state, owner) <==> w.state.current.value.owner == owner
  {
  }

  lemma SubmitCurrent(w: World, owner: nat)
    requires Inv(w) && owner != 0
    ensures CurrentOk(Happens(w, Submit(owner)))
  {
    if w.state.current.Some? { CurrentSpared(w, owner); }
  }

  lemma SubmitAccounts(w: World, owner: nat)
    requires Inv(w)
    ensures AnsweredOk(Happens(w, Submit(owner))) && Accounted(Happens(w, Submit(owner)))
  {
    var queue, k := w.state.queue, Place(w.state.queue, owner);
    var r := Happens(w, Submit(owner));
    var job := Job(owner, w.next);
    assert k < |queue| ==> r.state.queue[k] == job;
    assert k == |queue| < MAX_QUEUED ==> r.state.queue[k] == job;
    forall t: nat | t < r.next ensures t in r.answered || t in r.dead || t in Pending(r.state) {
      if j :| j in queue && j.ticket == t && j.owner != owner {
        var i :| 0 <= i < |queue| && queue[i] == j;
        assert r.state.queue[i] == j;
      }
    }
  }

  lemma CancelKeeps(w: World, owner: nat)
    requires Inv(w) && owner != 0
    ensures Inv(Happens(w, Cancel(owner)))
  {
    var r := Happens(w, Cancel(owner));
    WithoutOk(w.state.queue, owner);
    forall j | j in r.state.queue ensures j.ticket !in r.dead { OthersSpared(w, j, owner); }
    if w.state.current.Some? { CurrentSpared(w, owner); }
    CancelAccounts(w, owner);
  }

  lemma CancelAccounts(w: World, owner: nat)
    requires Inv(w)
    ensures Accounted(Happens(w, Cancel(owner)))
  {
    var r := Happens(w, Cancel(owner));
    forall t: nat | t < r.next ensures t in r.answered || t in r.dead || t in Pending(r.state) {
      if j :| j in w.state.queue && j.ticket == t && j.owner != owner { assert j in r.state.queue; }
    }
  }

  lemma {:induction false} WithoutOk(queue: seq<Job>, owner: nat)
    requires QueueOk(queue)
    ensures QueueOk(Without(queue, owner)) && |Without(queue, owner)| <= |queue|
    decreases |queue|
  {
    if queue != [] {
      WithoutOk(queue[..|queue| - 1], owner);
    }
  }

  lemma StopKeeps(w: World)
    requires Inv(w)
    ensures Inv(Happens(w, Stop))
  {
  }

  lemma TakeKeeps(w: World)
    requires Inv(w)
    ensures Inv(Happens(w, Take))
  {
    if CanTake(w.state) {
      var q := w.state.queue;
      forall j | j in q[1..] ensures j.ticket != q[0].ticket {}
      forall t: nat | t in Pending(w.state) ensures t in Pending(Taken(w.state)) {
        var i :| 0 <= i < |q| && q[i].ticket == t;
        assert i > 0 ==> q[1..][i - 1] == q[i];
      }
    }
  }

  lemma FinishKeeps(w: World)
    requires Inv(w)
    ensures Inv(Happens(w, Finish))
  {
  }

  // No owner of a session is 0.
  predicate Owned(e: Event) { e.Submit? || e.Cancel? ==> e.owner != 0 }

  lemma HappensKeeps(w: World, e: Event)
    requires Inv(w) && Owned(e)
    ensures Inv(Happens(w, e))
  {
    match e {
      case Submit(owner) =>
        SubmitQueued(w, owner);
        SubmitCurrent(w, owner);
        SubmitAccounts(w, owner);
      case Cancel(owner) => CancelKeeps(w, owner);
      case Take => TakeKeeps(w);
      case Finish => FinishKeeps(w);
      case Stop => StopKeeps(w);
    }
  }

  // In every interleaving at most 32 searches are queued, at most one of each
  // owner, and every one submitted is still pending, has been answered once,
  // or is dead - and then it is not answered.
  lemma {:induction false} EverySearchIsAccountedFor(events: seq<Event>)
    requires forall i :: 0 <= i < |events| ==> Owned(events[i])
    ensures Inv(Run(START, events))
  {
    if events != [] {
      EverySearchIsAccountedFor(events[..|events| - 1]);
      HappensKeeps(Run(START, events[..|events| - 1]), events[|events| - 1]);
    }
  }

  lemma {:induction false} DeadStaysDead(w: World, events: seq<Event>)
    ensures w.dead <= Run(w, events).dead
  {
    if events != [] { DeadStaysDead(w, events[..|events| - 1]); }
  }

  lemma {:induction false} RunConcat(w: World, a: seq<Event>, b: seq<Event>)
    ensures Run(w, a + b) == Run(Run(w, a), b)
    decreases |b|
  {
    if b == [] {
      assert a + b == a;
    } else {
      assert (a + b)[..|a + b| - 1] == a + b[..|b| - 1];
      RunConcat(w, a, b[..|b| - 1]);
    }
  }

  // A search superseded or cancelled while pending never answers, whatever
  // comes later.
  lemma SupersededNeverAnswers(before: seq<Event>, e: Event, after: seq<Event>, t: nat)
    requires forall i :: 0 <= i < |before + [e] + after| ==> Owned((before + [e] + after)[i])
    requires e.Submit? || e.Cancel?
    requires t in PendingOf(Run(START, before).state, e.owner)
    ensures t !in Run(START, before + [e] + after).answered
  {
    EverySearchIsAccountedFor(before + [e] + after);
    RunConcat(START, before + [e], after);
    RunConcat(START, before, [e]);
    assert Run(Run(START, before), [e]) == Happens(Run(START, before), e) by { assert [e][..0] == []; }
    DeadStaysDead(Run(START, before + [e]), after);
  }

  // A running search answers though its owner submitted another exactly if
  // that owner is 0.
  lemma OwnSubmitAnswersIff(w: World)
    requires w.state.current.Some? && w.state.runningOwner == w.state.current.value.owner
    requires !w.state.cancelRunning && !w.state.stop
    ensures var r := Happens(Happens(w, Submit(w.state.runningOwner)), Finish);
            r.answered == if w.state.runningOwner == 0 then w.answered + [w.state.current.value.ticket] else w.answered
  {
  }

  // Such a state is one submission and one turn away.
  lemma OwnerZeroStillAnswers()
    ensures var w := Run(START, [Submit(0), Take]);
            w.state.current == Some(Job(0, 0)) && Happens(Happens(w, Submit(0)), Finish).answered == [0]
  {
    assert [Submit(0), Take][..1] == [Submit(0)] && [Submit(0)][..0] == [];
    assert Run(START, [Submit(0)]).state.queue == [Job(0, 0)];
    OwnSubmitAnswersIff(Run(START, [Submit(0), Take]));
  }

  // ---- turns ----

  // How many jobs wait before the owner's.
  ghost predicate WaitsAt(s: State, owner: nat, k: nat) { Place(s.queue, owner) == k < |s.queue| }

  // A job the owner replaces keeps its place, and nobody's submission moves
  // anyone.
  lemma SubmitKeepsTurns(s: State, job: Job, owner: nat, k: nat)
    requires WaitsAt(s, owner, k)
    ensures WaitsAt(Submitted(s, job).0, owner, k)
  {
    PlaceIs(Submitted(s, job).0.queue, owner, k);
  }

  lemma {:induction false} PlaceIs(queue: seq<Job>, owner: nat, k: nat)
    requires k < |queue| && queue[k].owner == owner && forall i :: 0 <= i < k ==> queue[i].owner != owner
    ensures Place(queue, owner) == k
  {
    if k > 0 { PlaceIs(queue[1..], owner, k - 1); }
  }

  // What comes behind the owner's job does not move it.
  lemma PlaceStays(queue: seq<Job>, more: seq<Job>, owner: nat)
    requires Place(queue, owner) < |queue|
    ensures Place(queue + more, owner) == Place(queue, owner)
  {
    PlaceIs(queue + more, owner, Place(queue, owner));
  }

  lemma {:induction false} CancelHelpsOthers(queue: seq<Job>, other: nat, owner: nat)
    requires other != owner && Place(queue, owner) < |queue|
    ensures Place(Without(queue, other), owner) <= Place(queue, owner) && Place(Without(queue, other), owner) < |Without(queue, other)|
    decreases |queue|
  {
    var n, k := |queue| - 1, Place(queue, owner);
    if k < n {
      var before, last := queue[..n], queue[n];
      PlaceIs(before, owner, k);
      CancelHelpsOthers(before, other, owner);
      CancelBehind(before, last, queue, other, owner);
    } else {
      LastStays(queue, other, owner);
    }
  }

  lemma CancelBehind(before: seq<Job>, last: Job, queue: seq<Job>, other: nat, owner: nat)
    requires |queue| == |before| + 1 && queue[..|before|] == before && queue[|before|] == last
    requires Place(Without(before, other), owner) < |Without(before, other)|
    ensures Place(Without(queue, other), owner) == Place(Without(before, other), owner) < |Without(queue, other)|
  {
    PlaceStays(Without(before, other), if last.owner == other then [] else [last], owner);
  }

  // The owner's job is the last of all.
  lemma LastStays(queue: seq<Job>, other: nat, owner: nat)
    requires other != owner && queue != [] && Place(queue, owner) == |queue| - 1
    ensures Place(Without(queue, other), owner) <= Place(queue, owner) && Place(Without(queue, other), owner) < |Without(queue, other)|
  {
    var n := |queue| - 1;
    var w := Without(queue[..n], other);
    WithoutShorter(queue[..n], other);
    forall i | 0 <= i < |w| ensures w[i].owner != owner {
      var j :| 0 <= j < n && queue[..n][j] == w[i];
    }
    PlaceIs(Without(queue, other), owner, |w|);
  }

  lemma {:induction false} WithoutShorter(queue: seq<Job>, owner: nat)
    ensures |Without(queue, owner)| <= |queue|
  {
    if queue != [] { WithoutShorter(queue[..|queue| - 1], owner); }
  }

  // The owners whose jobs were taken.
  function TakenOwners(w: World, events: seq<Event>): seq<nat>
  {
    if events == [] then []
    else
      var s := Run(w, events[..|events| - 1]).state;
      TakenOwners(w, events[..|events| - 1]) + if events[|events| - 1].Take? && CanTake(s) then [s.queue[0].owner] else []
  }

  lemma StepOfTurn(w: World, e: Event, owner: nat, at: nat) returns (next: nat)
    requires WaitsAt(w.state, owner, at) && !e.Stop? && e != Cancel(owner)
    ensures if e.Take? && CanTake(w.state)
            then if at == 0 then w.state.queue[0].owner == owner else next == at - 1 && WaitsAt(Happens(w, e).state, owner, next)
            else next <= at && WaitsAt(Happens(w, e).state, owner, next)
  {
    next := at;
    match e {
      case Submit(o) => SubmitKeepsTurns(w.state, Job(o, w.next), owner, at);
      case Cancel(o) =>
        CancelHelpsOthers(w.state.queue, o, owner);
        next := Place(Without(w.state.queue, o), owner);
      case Take =>
        if CanTake(w.state) && at > 0 {
          next := at - 1;
          PlaceIs(w.state.queue[1..], owner, next);
        }
      case Finish =>
    }
  }

  // Whatever else is submitted or cancelled, a queued search moves up with
  // each job taken: once more were taken than stood before it, it was among
  // them.
  lemma {:induction false} TurnComes(w: World, events: seq<Event>, owner: nat, k: nat) returns (at: nat)
    requires WaitsAt(w.state, owner, k)
    requires forall i :: 0 <= i < |events| ==> !events[i].Stop? && events[i] != Cancel(owner)
    ensures owner in TakenOwners(w, events) || (at + |TakenOwners(w, events)| <= k && WaitsAt(Run(w, events).state, owner, at))
    ensures |TakenOwners(w, events)| > k ==> owner in TakenOwners(w, events)
  {
    at := k;
    if events != [] {
      var before, e := events[..|events| - 1], events[|events| - 1];
      at := TurnComes(w, before, owner, k);
      if owner !in TakenOwners(w, before) { at := StepOfTurn(Run(w, before), e, owner, at); }
    }
  }
}
