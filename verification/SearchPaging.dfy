// Running a search (src/community/search.cpp): dates turned into id bounds by
// bisection, the walk cut into a page, and pages followed by cursor.
module SearchPaging {
  import opened Options
  import opened SearchQuery
  import opened SearchRows

  const DEFAULT_LIMIT := 25
  const COUNT_CAP: nat := 10000
  const RELEVANCE_POOL: nat := 2000

  // ---- dates to ids ----

  // Timestamps are assigned at insertion and grow with the ids.
  ghost predicate Monotone(ms: seq<Message>) { forall i, j :: 0 <= i < j < |ms| ==> ms[i].timestamp <= ms[j].timestamp }

  // SELECT ... WHERE id >= ? ORDER BY id LIMIT 1
  function Probe(ms: seq<Message>, id: int): (k: nat)
    ensures k <= |ms| && (k < |ms| ==> ms[k].id >= id)
    ensures forall i :: 0 <= i < k ==> ms[i].id < id
  {
    if ms == [] || ms[0].id >= id then 0 else 1 + Probe(ms[1..], id)
  }

  // `f` is the first message at or after `time`; -1: there is none.
  ghost predicate FirstAt(ms: seq<Message>, time: int, f: int)
  {
    if f == -1 then forall i :: 0 <= i < |ms| ==> ms[i].timestamp < time
    else exists k :: 0 <= k < |ms| && ms[k].id == f && ms[k].timestamp >= time && forall i :: 0 <= i < k ==> ms[i].timestamp < time
  }

  // What the first message from an id on says of the others.
  lemma ProbeSplits(db: Db, time: int, id: int, k: nat)
    requires DbOk(db) && Monotone(db.messages) && k == Probe(db.messages, id)
    ensures var ms := db.messages;
            if k == |ms| || ms[k].timestamp >= time
            then forall i :: 0 <= i < |ms| && ms[i].id >= id ==> ms[i].timestamp >= time
            else ms[k].id >= id && forall i :: 0 <= i < |ms| && ms[i].id < ms[k].id + 1 ==> ms[i].timestamp < time
  {
  }

  // first_id_at_or_after_
  method FirstIdAtOrAfter(db: Db, time: int) returns (f: int)
    requires DbOk(db) && Monotone(db.messages)
    ensures FirstAt(db.messages, time, f)
  {
    var ms := db.messages;
    if ms == [] { return -1; }
    var lo, maxId := ms[0].id, ms[|ms| - 1].id;
    var hi := maxId + 1;
    while lo < hi
      invariant lo <= hi <= maxId + 1
      invariant forall i :: 0 <= i < |ms| && ms[i].id < lo ==> ms[i].timestamp < time
      invariant forall i :: 0 <= i < |ms| && ms[i].id >= hi ==> ms[i].timestamp >= time
    {
      var mid := lo + (hi - lo) / 2;
      var k := Probe(ms, mid);
      ProbeSplits(db, time, mid, k);
      if k == |ms| { hi := mid; }
      else if ms[k].timestamp >= time { hi := mid; }
      else { lo := ms[k].id + 1; }
    }
    if lo > maxId { return -1; }
    var k := Probe(ms, lo);
    assert ms[|ms| - 1].id >= lo;
    f := ms[k].id;
  }

  datatype Window = Empty | Ids(minId: int, maxId: int)

  // Every dated message lies within the window.
  ghost predicate Covers(w: Window, db: Db, s: Spec)
  {
    forall m :: m in db.messages && Dated(s, m) ==> w.Ids? && InBounds(w.minId, w.maxId, m.id)
  }

  // What the first id at or after a time says of every message.
  lemma FirstAtSplits(db: Db, time: int, f: int, m: Message)
    requires DbOk(db) && Monotone(db.messages) && FirstAt(db.messages, time, f) && m in db.messages
    ensures f == -1 || f > 0
    ensures m.timestamp >= time <==> f != -1 && m.id >= f
  {
    var i :| 0 <= i < |db.messages| && db.messages[i] == m;
    if f != -1 {
      var k :| 0 <= k < |db.messages| && db.messages[k].id == f && db.messages[k].timestamp >= time
               && forall i :: 0 <= i < k ==> db.messages[i].timestamp < time;
      if i < k { assert db.messages[i].id < db.messages[k].id; }
      if k < i { assert db.messages[k].timestamp <= db.messages[i].timestamp && db.messages[k].id < db.messages[i].id; }
    }
  }

  method DateWindow(db: Db, s: Spec) returns (w: Window)
    requires DbOk(db) && Monotone(db.messages)
    ensures Covers(w, db, s)
  {
    var minId, maxId := 0, 0;
    if s.after > 0 {
      var f := FirstIdAtOrAfter(db, s.after);
      forall m | m in db.messages
        ensures (f == -1 || f > 0) && (m.timestamp >= s.after <==> (f != -1 && m.id >= f))
      {
        FirstAtSplits(db, s.after, f, m);
      }
      if f == -1 { return Empty; }
      if f > 0 { minId := f; }
    }
    assert forall m :: m in db.messages && Dated(s, m) ==> InBounds(minId, 0, m.id);
    if s.before > 0 {
      var f := FirstIdAtOrAfter(db, s.before);
      forall m | m in db.messages ensures m.id > 0 && (f == -1 || f > 0) && (m.timestamp >= s.before <==> f != -1 && m.id >= f) {
        FirstAtSplits(db, s.before, f, m);
      }
      if f > 0 {
        if f <= 1 { return Empty; }
        maxId := f - 1;
      }
    }
    if minId > 0 && maxId > 0 && minId > maxId { return Empty; }
    w := Ids(minId, maxId);
  }

  // ---- one page ----

  datatype Outcome = Outcome(ids: seq<int>, hasMore: bool, total: int, totalCapped: bool)

  function Limit(s: Spec): nat { if s.limit > 0 then s.limit else DEFAULT_LIMIT }

  function Min(a: int, b: int): int { if a < b then a else b }

  // How far a count goes that has `keep` results in hand.
  function CountLimit(keep: nat): nat { if keep + 1 < COUNT_CAP then COUNT_CAP else keep + 1 }

  // The first `keep` of what is left, and a count of it if asked for.
  function PageOf(left: seq<int>, keep: nat, count: bool): Outcome
  {
    Outcome(left[..Min(keep, |left|)], |left| > keep,
            if count then Min(|left|, CountLimit(keep)) else -1,
            count && |left| >= CountLimit(keep))
  }

  lemma {:induction false} DistinctPrefix(rows: seq<int>, i: nat)
    requires i <= |rows|
    ensures |Distinct(rows[..i])| <= |Distinct(rows)| && Distinct(rows)[..|Distinct(rows[..i])|] == Distinct(rows[..i])
    decreases |rows|
  {
    if i < |rows| {
      assert rows[..|rows| - 1][..i] == rows[..i];
      DistinctPrefix(rows[..|rows| - 1], i);
    } else {
      assert rows[..i] == rows;
    }
  }

  // One more row: a repeat of the last message, or a new one.
  lemma DistinctNext(rows: seq<int>, i: nat)
    requires i < |rows|
    ensures var d := Distinct(rows[..i]);
            Distinct(rows[..i + 1]) == if d != [] && d[|d| - 1] == rows[i] then d else d + [rows[i]]
  {
    assert rows[..i + 1][..i] == rows[..i];
  }

  // A walk that stops once the page is full, or enough are counted, has the
  // outcome.
  lemma StoppedEarly(rows: seq<int>, i: nat, keep: nat, count: bool)
    requires i <= |rows| && |Distinct(rows[..i])| > keep
    ensures var d := Distinct(rows[..i]);
            && (!count ==> PageOf(Distinct(rows), keep, count) == Outcome(d[..keep], true, -1, false))
            && (count && |d| == CountLimit(keep) ==> PageOf(Distinct(rows), keep, count) == Outcome(d[..keep], true, |d|, true))
  {
    DistinctPrefix(rows, i);
  }

  lemma PageGrows(d: seq<int>, id: int, keep: nat)
    ensures (d + [id])[..Min(keep, |d| + 1)] == if |d| < keep then d + [id] else d[..keep]
  {
  }

  // What the walk has after the distinct rows `d`, unless it stopped.
  ghost predicate Midway(d: seq<int>, keep: nat, count: bool, ids: seq<int>, hasMore: bool, seen: int, last: int)
  {
    && seen == |d| && last == (if d == [] then 0 else d[|d| - 1])
    && ids == d[..Min(keep, |d|)] && hasMore == (|d| > keep)
    && (|d| > keep ==> count && |d| < CountLimit(keep))
  }

  lemma MidwayNext(d: seq<int>, keep: nat, count: bool, ids: seq<int>, hasMore: bool, id: int, last: int)
    requires Midway(d, keep, count, ids, hasMore, |d|, last)
    ensures |ids| < keep <==> |d| < keep
    ensures |d| < keep ==> Midway(d + [id], keep, count, ids + [id], hasMore, |d| + 1, id)
    ensures |d| >= keep && count && |d| + 1 < COUNT_CAP ==> Midway(d + [id], keep, count, ids, true, |d| + 1, id)
    ensures |d| >= keep ==> ids == (d + [id])[..keep]
    ensures |d| >= keep && count && |d| + 1 >= COUNT_CAP ==> |d| + 1 == CountLimit(keep)
  {
    PageGrows(d, id, keep);
  }

  lemma MidwayEnds(rows: seq<int>, keep: nat, count: bool, ids: seq<int>, hasMore: bool, seen: int, last: int)
    requires Midway(Distinct(rows), keep, count, ids, hasMore, seen, last)
    ensures PageOf(Distinct(rows), keep, count) == Outcome(ids, hasMore, if count then seen else -1, false)
  {
  }

  // The loop over the rows, keeping the first `keep` messages.
  method Walk(rows: seq<int>, keep: nat, count: bool) returns (out: Outcome)
    requires forall i :: 0 <= i < |rows| ==> rows[i] > 0
    ensures out == PageOf(Distinct(rows), keep, count)
  {
    var ids: seq<int>, hasMore, seen, last := [], false, 0, 0;
    for i := 0 to |rows|
      invariant Midway(Distinct(rows[..i]), keep, count, ids, hasMore, seen, last)
    {
      var id := rows[i];
      DistinctNext(rows, i);
      if id == last { continue; }
      MidwayNext(Distinct(rows[..i]), keep, count, ids, hasMore, id, last);
      last := id;
      seen := seen + 1;
      if |ids| < keep {
        ids := ids + [id];
        continue;
      }
      hasMore := true;
      StoppedEarly(rows, i + 1, keep, count);
      if !count { return Outcome(ids, true, -1, false); }
      if seen >= COUNT_CAP { return Outcome(ids, true, seen, true); }
    }
    assert rows[..|rows|] == rows;
    MidwayEnds(rows, keep, count, ids, hasMore, seen, last);
    out := Outcome(ids, hasMore, if count then seen else -1, false);
  }

  // ---- relevance ----

  // Lower scores first, ties newest first.
  predicate Better(db: Db, expr: string, x: int, y: int)
  {
    db.score(expr, x) < db.score(expr, y) || (db.score(expr, x) == db.score(expr, y) && x > y)
  }

  function Insert(db: Db, expr: string, x: int, s: seq<int>): (r: seq<int>)
    ensures |r| == |s| + 1
  {
    if s == [] || Better(db, expr, x, s[0]) then [x] + s else [s[0]] + Insert(db, expr, x, s[1..])
  }

  // The library's sort of the pool.
  function Ranked(db: Db, expr: string, s: seq<int>): (r: seq<int>)
    ensures |r| == |s|
  {
    if s == [] then [] else Insert(db, expr, s[0], Ranked(db, expr, s[1..]))
  }

  function Pool(left: seq<int>): seq<int> { left[..Min(RELEVANCE_POOL, |left|)] }

  function RankedPage(db: Db, s: Spec, left: seq<int>): Outcome
  {
    var walked := PageOf(left, RELEVANCE_POOL, s.count);
    var ranked := Ranked(db, s.expr, Pool(left));
    var from := if 0 <= s.offset then Min(|ranked|, s.offset) else |ranked|;
    var to := Min(|ranked|, from + Limit(s));
    Outcome(ranked[from..to], to < |ranked|, walked.total, walked.totalCapped)
  }

  predicate ByRelevance(s: Spec) { s.sort.Relevance? && s.expr != "" }

  // ---- the whole search ----

  // What a search answers: by date, the page past the cursor; by relevance, a
  // page of the ranked pool.
  function Answer(db: Db, s: Spec): Outcome
  {
    if !ByRelevance(s) then PageOf(Remaining(db, s), Limit(s), s.count)
    else if s.channels == [] || s.offset < RELEVANCE_POOL then RankedPage(db, s, Remaining(db, s.(cursor := 0)))
    else Outcome([], false, -1, false)
  }

  // execute_
  method Execute(db: Db, s: Spec) returns (out: Outcome)
    requires DbOk(db) && Monotone(db.messages)
    ensures out == Answer(db, s)
  {
    var none := Outcome([], false, if s.count then 0 else -1, false);
    if s.channels == [] {
      NobodyPasses(db, s);
      return none;
    }
    var relevance := s.sort.Relevance? && s.expr != "";
    if relevance && s.offset >= RELEVANCE_POOL { return Outcome([], false, -1, false); }
    var w := DateWindow(db, s);
    if w.Empty? {
      NobodyPasses(db, s);
      return none;
    }
    if relevance { out := ExecuteRanked(db, s, w.minId, w.maxId); }
    else {
      var rows := WalkedRows(db, s, w.minId, w.maxId);
      out := Walk(rows, Limit(s), s.count);
    }
  }

  method ExecuteRanked(db: Db, s: Spec, minId: int, maxId: int) returns (out: Outcome)
    requires DbOk(db) && Covers(Ids(minId, maxId), db, s)
    ensures out == RankedPage(db, s, Remaining(db, s.(cursor := 0)))
  {
    var all := s.(cursor := 0);
    assert forall m :: Dated(all, m) == Dated(s, m);
    var rows := WalkedRows(db, all, minId, maxId);
    var walked := Walk(rows, RELEVANCE_POOL, s.count);
    var pool := Ranked(db, s.expr, walked.ids);
    var from := if 0 <= s.offset then Min(|pool|, s.offset) else |pool|;
    var to := Min(|pool|, from + Limit(s));
    out := Outcome(pool[from..to], to < |pool|, walked.total, walked.totalCapped);
  }

  method WalkedRows(db: Db, s: Spec, minId: int, maxId: int) returns (rows: seq<int>)
    requires DbOk(db) && Covers(Ids(minId, maxId), db, s)
    ensures Distinct(rows) == Remaining(db, s) && forall i :: 0 <= i < |rows| ==> rows[i] > 0
  {
    var q := BuildQuery(s, minId, maxId);
    rows := RowsOf(db, q, s.sort.Oldest?);
    RowsAreRemaining(db, s, minId, maxId);
    RemainingPositive(db, s);
    forall i | 0 <= i < |rows| ensures rows[i] > 0 { assert rows[i] in Distinct(rows); }
  }

  lemma {:induction false} FilteredNone(db: Db, s: Spec, ms: seq<Message>)
    requires forall m :: m in ms ==> !Passes(db, s, m)
    ensures Filtered(db, s, ms) == []
    decreases |ms|
  {
    if ms != [] { FilteredNone(db, s, ms[..|ms| - 1]); }
  }

  lemma NobodyPasses(db: Db, s: Spec)
    requires forall m :: m in db.messages ==> !Passes(db, s, m)
    ensures Remaining(db, s) == [] && Remaining(db, s.(cursor := 0)) == []
  {
    FilteredNone(db, s, db.messages);
    forall m | m in db.messages ensures !Passes(db, s.(cursor := 0), m) { CursorIsApart(db, s, 0, m); }
    FilteredNone(db, s.(cursor := 0), db.messages);
  }

  // The filter does not look at the cursor.
  lemma CursorIsApart(db: Db, s: Spec, cursor: int, m: Message)
    ensures Passes(db, s.(cursor := cursor), m) == Passes(db, s, m)
  {
    var t := s.(cursor := cursor);
    assert forall h :: Wanted(db, t, h, m) == Wanted(db, s, h, m);
    assert FragmentsHold(db, t, m) == FragmentsHold(db, s, m);
  }

  lemma RemainingPositive(db: Db, s: Spec)
    requires DbOk(db)
    ensures forall x :: x in Remaining(db, s) ==> x > 0
  {
    ReversedOrder(Filtered(db, s, db.messages));
    forall x | x in Filtered(db, s, db.messages) ensures x > 0 { FilteredIs(db, s, db.messages, x); }
  }

  // ---- following the cursor ----

  // What the next page has left: everything past this one.
  lemma NextPage(db: Db, s: Spec, k: nat)
    requires DbOk(db) && 0 < k <= |Remaining(db, s)|
    ensures Remaining(db, s.(cursor := Remaining(db, s)[k - 1])) == Remaining(db, s)[k..]
  {
    var left, oldest := Remaining(db, s), s.sort.Oldest?;
    var next := s.(cursor := left[k - 1]);
    RemainingIsStrict(db, s);
    RemainingIsStrict(db, next);
    RemainingPositive(db, s);
    assert left[k - 1] in left;
    forall x ensures x in Remaining(db, next) <==> x in left[k..] { PastThePage(db, s, k, x); }
    StrictIsUnique(oldest, Remaining(db, next), left[k..]);
  }

  lemma RemainingIsStrict(db: Db, s: Spec)
    requires DbOk(db)
    ensures Strict(s.sort.Oldest?, Remaining(db, s))
  {
    FilteredAscends(db, s, db.messages);
    ReversedOrder(Filtered(db, s, db.messages));
  }

  lemma RemainingIs(db: Db, s: Spec, x: int)
    ensures x in Remaining(db, s) <==> exists m :: m in db.messages && m.id == x && Passes(db, s, m) && PastCursor(s, m.id)
  {
    ReversedOrder(Filtered(db, s, db.messages));
    FilteredIs(db, s, db.messages, x);
  }

  lemma PastThePage(db: Db, s: Spec, k: nat, x: int)
    requires DbOk(db) && 0 < k <= |Remaining(db, s)| && Remaining(db, s)[k - 1] > 0 && Strict(s.sort.Oldest?, Remaining(db, s))
    ensures x in Remaining(db, s.(cursor := Remaining(db, s)[k - 1])) <==> x in Remaining(db, s)[k..]
  {
    var left := Remaining(db, s);
    var next := s.(cursor := left[k - 1]);
    RemainingIs(db, s, x);
    RemainingIs(db, s, left[k - 1]);
    assert left[k - 1] in left;
    RemainingIs(db, next, x);
    forall m ensures Passes(db, next, m) == Passes(db, s, m) { CursorIsApart(db, s, left[k - 1], m); }
    AfterInStrict(s.sort.Oldest?, left, k, x);
  }

  // In a strictly ordered list, past a member is behind it.
  lemma AfterInStrict(oldest: bool, s: seq<int>, k: nat, x: int)
    requires Strict(oldest, s) && 0 < k <= |s|
    ensures x in s[k..] <==> x in s && Before(oldest, s[k - 1], x)
  {
    assert s == s[..k] + s[k..];
    if x in s[..k] { var i :| 0 <= i < k && s[i] == x; }
    if x in s[k..] { var i :| 0 <= i < |s| - k && s[k..][i] == x; }
  }

  // The ids shown by following the answers by date, each from the last id of
  // the one before, while there is more.
  function AllPages(db: Db, s: Spec): seq<int>
    requires DbOk(db) && !ByRelevance(s)
    decreases |Remaining(db, s)|
  {
    var page := Answer(db, s);
    if !page.hasMore then page.ids
    else
      NextPage(db, s, Limit(s));
      page.ids + AllPages(db, s.(cursor := page.ids[|page.ids| - 1]))
  }

  lemma {:induction false} AllPagesAreRemaining(db: Db, s: Spec)
    requires DbOk(db) && !ByRelevance(s)
    ensures AllPages(db, s) == Remaining(db, s)
    decreases |Remaining(db, s)|
  {
    var left := Remaining(db, s);
    var page := Answer(db, s);
    if page.hasMore {
      NextPage(db, s, Limit(s));
      assert left == left[..Limit(s)] + left[Limit(s)..];
      AllPagesAreRemaining(db, s.(cursor := page.ids[|page.ids| - 1]));
    }
  }

  // Following the cursor page by page shows every message that passes the
  // filter exactly once, in sort order, and nothing else.
  lemma PagesShowEachMatchOnce(db: Db, s: Spec, x: int)
    requires DbOk(db) && !ByRelevance(s) && s.cursor <= 0
    ensures Strict(s.sort.Oldest?, AllPages(db, s))
    ensures x in AllPages(db, s) <==> exists m :: m in db.messages && m.id == x && Passes(db, s, m)
  {
    AllPagesAreRemaining(db, s);
    RemainingIsStrict(db, s);
    RemainingIs(db, s, x);
  }

  // How many results a search by date shows: as many as asked for, 25 if that
  // is not a positive number, or all that are left.
  lemma PageSize(db: Db, s: Spec)
    requires !ByRelevance(s)
    ensures var a, left, want := Answer(db, s), Remaining(db, s), if s.limit > 0 then s.limit else 25;
            && |a.ids| == Min(want, |left|) && a.ids == left[..|a.ids|]
            && (a.hasMore <==> |left| > want) && (a.total == -1 <==> !s.count)
  {
  }

  // And by relevance: so many of the ranked pool from the offset on.
  lemma RankedPageSize(db: Db, s: Spec)
    requires ByRelevance(s) && 0 <= s.offset < 2000
    ensures var a, want := Answer(db, s), if s.limit > 0 then s.limit else 25;
            var left := Min(2000, |Remaining(db, s.(cursor := 0))|) - s.offset;
            |a.ids| == (if left <= 0 then 0 else Min(want, left)) && (a.hasMore <==> left > want)
  {
  }

  // ---- the count ----

  // The messages that match.
  function Matching(db: Db, s: Spec): set<int> { set m | m in db.messages && Passes(db, s, m) :: m.id }

  lemma {:induction false} StrictSize(oldest: bool, xs: seq<int>)
    requires Strict(oldest, xs)
    ensures |xs| == |set x | x in xs|
  {
    if xs != [] {
      var n := |xs| - 1;
      StrictSize(oldest, xs[..n]);
      assert forall i :: 0 <= i < n ==> xs[..n][i] == xs[i];
      assert xs == xs[..n] + [xs[n]];
      assert (set x | x in xs) == (set x | x in xs[..n]) + {xs[n]};
    }
  }

  // Without a cursor all that match is left.
  lemma RemainingIsMatching(db: Db, s: Spec, t: Spec)
    requires DbOk(db) && s.cursor <= 0 && t == s.(cursor := t.cursor) && t.cursor <= 0
    ensures |Remaining(db, t)| == |Matching(db, s)|
  {
    forall m ensures Passes(db, t, m) == Passes(db, s, m) { CursorIsApart(db, s, t.cursor, m); }
    forall x ensures x in Remaining(db, t) <==> x in Matching(db, s) { RemainingIs(db, t, x); }
    RemainingIsStrict(db, t);
    StrictSize(t.sort.Oldest?, Remaining(db, t));
    assert (set x | x in Remaining(db, t)) == Matching(db, s);
  }

  function MostCounted(s: Spec): nat { CountLimit(if ByRelevance(s) then RELEVANCE_POOL else Limit(s)) }

  // The total answered is the number of messages that match unless it is
  // capped. A capped one falls short unless just so many match, and then the
  // flag says there are more where there are none.
  lemma CountIsExactIff(db: Db, s: Spec)
    requires DbOk(db) && s.count && s.cursor <= 0 && (ByRelevance(s) ==> s.offset < RELEVANCE_POOL)
    ensures var a, n := Answer(db, s), |Matching(db, s)|;
            && (a.totalCapped <==> n >= MostCounted(s))
            && a.total == (if a.totalCapped then MostCounted(s) else n)
            && (a.total == n <==> !a.totalCapped || n == MostCounted(s))
    ensures MostCounted(s) == if !ByRelevance(s) && s.limit >= 10_000 then s.limit + 1 else 10_000
  {
    RemainingIsMatching(db, s, if ByRelevance(s) then s.(cursor := 0) else s);
  }

  // ---- ranked pages ----

  // Scores rise, and among equal ones ids fall.
  ghost predicate InRank(db: Db, expr: string, s: seq<int>)
  {
    forall i, j :: 0 <= i < j < |s| ==>
      db.score(expr, s[i]) < db.score(expr, s[j]) || (db.score(expr, s[i]) == db.score(expr, s[j]) && s[i] >= s[j])
  }

  lemma {:induction false} InsertCounts(db: Db, expr: string, x: int, s: seq<int>)
    ensures multiset(Insert(db, expr, x, s)) == multiset{x} + multiset(s)
    ensures forall y :: y in Insert(db, expr, x, s) ==> y == x || y in s
    decreases |s|
  {
    if s != [] && !Better(db, expr, x, s[0]) {
      InsertCounts(db, expr, x, s[1..]);
      assert s == [s[0]] + s[1..];
    }
  }

  lemma RankOneMore(db: Db, expr: string, y: int, s: seq<int>)
    requires InRank(db, expr, s) && forall z :: z in s ==> y == z || Better(db, expr, y, z)
    ensures InRank(db, expr, [y] + s)
  {
    assert forall j :: 0 <= j < |s| ==> s[j] in s;
  }

  lemma RankTail(db: Db, expr: string, s: seq<int>)
    requires s != [] && InRank(db, expr, s)
    ensures InRank(db, expr, s[1..]) && forall z :: z in s ==> s[0] == z || Better(db, expr, s[0], z)
  {
  }

  lemma {:induction false} InsertRanks(db: Db, expr: string, x: int, s: seq<int>)
    requires InRank(db, expr, s)
    ensures InRank(db, expr, Insert(db, expr, x, s))
    decreases |s|
  {
    if s != [] {
      RankTail(db, expr, s);
      if Better(db, expr, x, s[0]) {
        RankOneMore(db, expr, x, s);
      } else {
        InsertRanks(db, expr, x, s[1..]);
        InsertCounts(db, expr, x, s[1..]);
        RankOneMore(db, expr, s[0], Insert(db, expr, x, s[1..]));
      }
    }
  }

  lemma {:induction false} RankedIsSorted(db: Db, expr: string, s: seq<int>)
    ensures InRank(db, expr, Ranked(db, expr, s)) && multiset(Ranked(db, expr, s)) == multiset(s)
    decreases |s|
  {
    if s != [] {
      RankedIsSorted(db, expr, s[1..]);
      InsertRanks(db, expr, s[0], Ranked(db, expr, s[1..]));
      InsertCounts(db, expr, s[0], Ranked(db, expr, s[1..]));
      assert s == [s[0]] + s[1..];
    }
  }

  // The ids shown by following ranked pages, each `limit` further on.
  function AllRanked(db: Db, s: Spec, left: seq<int>): seq<int>
    requires s.offset >= 0
    decreases |Pool(left)| - s.offset
  {
    var page := RankedPage(db, s, left);
    if !page.hasMore then page.ids else page.ids + AllRanked(db, s.(offset := s.offset + Limit(s)), left)
  }

  lemma RankedPageIs(db: Db, s: Spec, left: seq<int>, ranked: seq<int>, to: nat)
    requires ranked == Ranked(db, s.expr, Pool(left)) && 0 <= s.offset <= |ranked| && to == Min(|ranked|, s.offset + Limit(s))
    ensures var page := RankedPage(db, s, left); page.ids == ranked[s.offset..to] && page.hasMore == (to < |ranked|)
  {
  }

  lemma RestOf<T>(s: seq<T>, i: nat, j: nat)
    requires i <= j <= |s|
    ensures s[i..j] + s[j..] == s[i..] && (j == |s| ==> s[i..j] == s[i..])
  {
  }

  lemma {:induction false} RankedPagesPartition(db: Db, s: Spec, left: seq<int>)
    requires 0 <= s.offset <= |Pool(left)|
    ensures AllRanked(db, s, left) == Ranked(db, s.expr, Pool(left))[s.offset..]
    decreases |Pool(left)| - s.offset
  {
    var ranked := Ranked(db, s.expr, Pool(left));
    var to := Min(|ranked|, s.offset + Limit(s));
    RankedPageIs(db, s, left, ranked, to);
    if to < |ranked| { RankedPagesPartition(db, s.(offset := to), left); }
    RestOf(ranked, s.offset, to);
  }

  // Ranked pages show the newest 2000 matches, each exactly once, best first.
  lemma RankedPagesShowThePool(db: Db, s: Spec)
    requires DbOk(db) && ByRelevance(s) && s.offset == 0
    ensures var left := Remaining(db, s.(cursor := 0));
            multiset(AllRanked(db, s, left)) == multiset(Pool(left)) && InRank(db, s.expr, AllRanked(db, s, left))
  {
    var left := Remaining(db, s.(cursor := 0));
    RankedPagesPartition(db, s, left);
    RankedIsSorted(db, s.expr, Pool(left));
    assert Ranked(db, s.expr, Pool(left))[0..] == Ranked(db, s.expr, Pool(left));
  }
}
