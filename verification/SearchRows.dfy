// The rows a search's query walks are the messages its plain filter passes,
// whichever index drives it.
module SearchRows {
  import opened Options
  import opened SearchQuery

  ghost predicate DbOk(db: Db)
  {
    && (forall i :: 0 <= i < |db.messages| ==> db.messages[i].id > 0)
    && (forall i, j :: 0 <= i < j < |db.messages| ==> db.messages[i].id < db.messages[j].id)
    && (forall i, j :: 0 <= i < j < |db.attachments| ==> db.attachments[i].messageId <= db.attachments[j].messageId)
  }

  const NO_ATTACHMENT := Attachment(0, Image, false, [])

  predicate InBounds(minId: int, maxId: int, id: int) { (minId > 0 ==> id >= minId) && (maxId > 0 ==> id <= maxId) }

  // ---- the clauses, group by group ----

  lemma AllConcat(db: Db, x: seq<Clause>, y: seq<Clause>, m: Message, a: Attachment)
    ensures All(db, x + y, m, a) <==> All(db, x, m, a) && All(db, y, m, a)
  {
    if All(db, x + y, m, a) {
      forall c | c in x || c in y ensures Holds(db, c, m, a) { assert c in x + y; }
    }
  }

  lemma AllWhen(db: Db, on: bool, c: Clause, m: Message, a: Attachment)
    ensures All(db, When(on, c), m, a) <==> (on ==> Holds(db, c, m, a))
  {
    assert on ==> c in When(on, c);
  }

  lemma DatesHold(db: Db, s: Spec, minId: int, maxId: int, m: Message, a: Attachment)
    ensures All(db, DateClauses(s, minId, maxId), m, a) <==> Dated(s, m) && InBounds(minId, maxId, m.id)
  {
    var w, x, y, z := When(s.after > 0, From(s.after)), When(s.before > 0, Until(s.before)), When(minId > 0,
          IdFrom(minId)), When(maxId > 0, IdTo(maxId));
    AllWhen(db, s.after > 0, From(s.after), m, a);
    AllWhen(db, s.before > 0, Until(s.before), m, a);
    AllWhen(db, minId > 0, IdFrom(minId), m, a);
    AllWhen(db, maxId > 0, IdTo(maxId), m, a);
    AllConcat(db, w, x, m, a);
    AllConcat(db, w + x, y, m, a);
    AllConcat(db, w + x + y, z, m, a);
  }

  lemma CursorHolds(db: Db, s: Spec, m: Message, a: Attachment)
    ensures All(db, CursorClauses(s), m, a) <==> PastCursor(s, m.id)
  {
    AllWhen(db, s.cursor > 0, if s.sort.Oldest? then IdAbove(s.cursor) else IdBelow(s.cursor), m, a);
  }

  lemma {:induction false} KindsHold(db: Db, kinds: seq<Kind>, s: Spec, m: Message, a: Attachment)
    ensures All(db, KindClauses(kinds, s), m, a) <==>
            forall k :: k in kinds && OfKind(k) in s.has && k !in DriverKind(s) ==> HasKind(db, m.id, k)
    decreases |kinds|
  {
    if kinds != [] {
      var rest, k := kinds[..|kinds| - 1], kinds[|kinds| - 1];
      KindsHold(db, rest, s, m, a);
      var on := OfKind(k) in s.has && k !in DriverKind(s);
      AllWhen(db, on, AnyOfKind(k), m, a);
      AllConcat(db, KindClauses(rest, s), When(on, AnyOfKind(k)), m, a);
      assert kinds == rest + [k];
    }
  }

  lemma {:induction false} FragmentsAll(db: Db, fs: seq<seq<Utf8.Byte>>, negate: bool, m: Message, a: Attachment)
    ensures All(db, FragmentClauses(fs, negate), m, a) <==> forall f :: f in fs ==> HasFragment(db, m, f) != negate
    decreases |fs|
  {
    if fs != [] {
      var rest, f := fs[..|fs| - 1], fs[|fs| - 1];
      FragmentsAll(db, rest, negate, m, a);
      AllWhen(db, true, Fragment(f, negate), m, a);
      AllConcat(db, FragmentClauses(rest, negate), [Fragment(f, negate)], m, a);
      assert fs == rest + [f];
    }
  }

  lemma TextHolds(db: Db, s: Spec, m: Message, a: Attachment)
    ensures All(db, TextClauses(s), m, a) <==> FragmentsHold(db, s, m) && (Link in s.has ==> HasLink(m))
  {
    var x, y := FragmentClauses(s.contains, false), FragmentClauses(s.excludes, true);
    FragmentsAll(db, s.contains, false, m, a);
    FragmentsAll(db, s.excludes, true, m, a);
    AllWhen(db, true, Plaintext, m, a);
    AllConcat(db, [Plaintext], x, m, a);
    AllConcat(db, [Plaintext] + x, y, m, a);
    AllWhen(db, Link in s.has, AnyLink, m, a);
    AllConcat(db, if s.contains != [] || s.excludes != [] then [Plaintext] + x + y else [], When(Link in s.has, AnyLink), m, a);
  }

  lemma FilesHold(db: Db, s: Spec, m: Message, a: Attachment)
    ensures All(db, FileClauses(s), m, a) <==>
            && (File in s.has && !DriverOf(s).Files? ==> HasFile(db, m.id))
            && (forall k :: OfKind(k) in s.has && k !in DriverKind(s) ==> HasKind(db, m.id, k))
  {
    KindsHold(db, KIND_BITS, s, m, a);
    forall k: Kind ensures k in KIND_BITS {
      assert k == KIND_BITS[match k case Image => 0 case Video => 1 case Document => 2 case Audio => 3];
    }
    AllWhen(db, File in s.has && !DriverOf(s).Files?, AnyFile, m, a);
    AllConcat(db, When(File in s.has && !DriverOf(s).Files?, AnyFile), KindClauses(KIND_BITS, s), m, a);
  }

  lemma PlacesHold(db: Db, s: Spec, m: Message, a: Attachment)
    ensures All(db, PlaceClauses(s), m, a) <==>
            (!DriverOf(s).Channel? ==> m.channel in s.channels) && (!DriverOf(s).Author? && s.authors != [] ==> m.sender in s.authors)
  {
    AllWhen(db, !DriverOf(s).Channel?, ChannelIn(s.channels), m, a);
    AllWhen(db, !DriverOf(s).Author? && s.authors != [], SenderIn(s.authors), m, a);
    AllConcat(db, When(!DriverOf(s).Channel?, ChannelIn(s.channels)), When(!DriverOf(s).Author? && s.authors != [], SenderIn(s.authors)), m, a);
  }

  // What the driver's own clauses ask of a row.
  predicate DriverHolds(db: Db, s: Spec, m: Message, a: Attachment)
  {
    match DriverOf(s)
    case Fts => db.fts(s.expr, m.id)
    case Author => m.sender in s.authors
    case Files => a.messageId > 0 && forall k :: k in DriverKind(s) ==> a.kind == k
    case Channel => m.channel in s.channels
    case Scan => true
  }

  lemma {:induction false} FirstKindIs(kinds: seq<Kind>, has: set<Has>)
    ensures |FirstKind(kinds, has)| <= 1
    ensures if FirstKind(kinds, has) == [] then forall k :: k in kinds ==> OfKind(k) !in has else OfKind(FirstKind(kinds, has)[0]) in has
  {
    if kinds != [] && OfKind(kinds[0]) !in has { FirstKindIs(kinds[1..], has); }
  }

  lemma DriverClausesHold(db: Db, s: Spec, m: Message, a: Attachment)
    ensures All(db, DriverClauses(s), m, a) <==> DriverHolds(db, s, m, a)
  {
    FirstKindIs(KIND_BITS, s.has);
    var cs := DriverClauses(s);
    match DriverOf(s) {
      case Fts => AllWhen(db, true, Matches(s.expr), m, a);
      case Author => AllWhen(db, true, SenderIn(s.authors), m, a);
      case Files =>
        var kinds := DriverKind(s);
        AllWhen(db, true, Linked, m, a);
        if kinds != [] {
          AllWhen(db, true, RowKind(kinds[0]), m, a);
          AllConcat(db, [Linked], [RowKind(kinds[0])], m, a);
          assert kinds[0] in DriverKind(s) && forall k :: k in kinds <==> k == kinds[0];
        } else {
          assert cs == When(true, Linked);
        }
      case Channel =>
        AllWhen(db, true, ChannelIs(s.channels[0]), m, a);
        assert s.channels == [s.channels[0]];
      case Scan =>
    }
  }

  // Everything but what the files driver asks of the attachment.
  predicate RestHolds(db: Db, s: Spec, minId: int, maxId: int, m: Message)
  {
    && (!DriverOf(s).Channel? ==> m.channel in s.channels)
    && (!DriverOf(s).Author? && s.authors != [] ==> m.sender in s.authors)
    && Dated(s, m) && InBounds(minId, maxId, m.id) && PastCursor(s, m.id)
    && (File in s.has && !DriverOf(s).Files? ==> HasFile(db, m.id))
    && (forall k :: OfKind(k) in s.has && k !in DriverKind(s) ==> HasKind(db, m.id, k))
    && FragmentsHold(db, s, m) && (Link in s.has ==> HasLink(m))
  }

  lemma QueryHolds(db: Db, s: Spec, minId: int, maxId: int, m: Message, a: Attachment)
    ensures All(db, QueryOf(s, minId, maxId).clauses, m, a) <==> DriverHolds(db, s, m, a) && RestHolds(db, s, minId, maxId, m)
  {
    var d, p, t, c, f, x := DriverClauses(s), PlaceClauses(s), DateClauses(s, minId, maxId), CursorClauses(s), FileClauses(s), TextClauses(s);
    AllConcat(db, d, p, m, a);
    AllConcat(db, d + p, t, m, a);
    AllConcat(db, d + p + t, c, m, a);
    AllConcat(db, d + p + t + c, f, m, a);
    AllConcat(db, d + p + t + c + f, x, m, a);
    DriverClausesHold(db, s, m, a);
    PlacesHold(db, s, m, a);
    DatesHold(db, s, minId, maxId, m, a);
    CursorHolds(db, s, m, a);
    FilesHold(db, s, m, a);
    TextHolds(db, s, m, a);
  }

  // Some row of the driver's walk carries the message.
  ghost predicate Walked(db: Db, s: Spec, m: Message)
  {
    if DriverOf(s).Files? then exists a :: a in db.attachments && a.messageId == m.id && DriverHolds(db, s, m, a)
    else DriverHolds(db, s, m, NO_ATTACHMENT)
  }

  // Whichever index drives, the conditions are those of the plain filter.
  lemma PlanIsFilter(db: Db, s: Spec, minId: int, maxId: int, m: Message)
    requires m.id > 0
    ensures Walked(db, s, m) && RestHolds(db, s, minId, maxId, m) <==>
            Passes(db, s, m) && PastCursor(s, m.id) && InBounds(minId, maxId, m.id)
  {
    HasSplits(db, s, m);
    if DriverOf(s).Files? {
      FilesWalked(db, s, m);
    } else {
      assert DriverKind(s) == [];
    }
  }

  lemma HasSplits(db: Db, s: Spec, m: Message)
    ensures (forall h :: h in s.has ==> Wanted(db, s, h, m)) <==>
            && (File in s.has ==> HasFile(db, m.id))
            && (forall k :: OfKind(k) in s.has ==> HasKind(db, m.id, k))
            && (Link in s.has ==> HasLink(m))
  {
    if forall h :: h in s.has ==> Wanted(db, s, h, m) {
      assert File in s.has ==> Wanted(db, s, File, m);
      assert Link in s.has ==> Wanted(db, s, Link, m);
      forall k | OfKind(k) in s.has ensures HasKind(db, m.id, k) { assert Wanted(db, s, OfKind(k), m); }
    }
  }

  // The attachments walked are those of messages with a file, of the driver's
  // kind if it has one.
  lemma FilesWalked(db: Db, s: Spec, m: Message)
    requires DriverOf(s).Files? && m.id > 0
    ensures Walked(db, s, m) <==> HasFile(db, m.id) && forall k :: k in DriverKind(s) ==> HasKind(db, m.id, k)
    ensures forall k :: k in DriverKind(s) ==> OfKind(k) in s.has
    ensures (File in s.has || exists k :: OfKind(k) in s.has)
  {
    FirstKindIs(KIND_BITS, s.has);
    if DriverKind(s) != [] {
      var k := DriverKind(s)[0];
      assert DriverKind(s) == [k];
    }
    var h :| h in FileBits(s);
    if h.OfKind? { assert OfKind(h.kind) in s.has; }
  }

  // ---- the walk ----

  function Lookup(ms: seq<Message>, id: int): (r: Option<Message>)
    ensures r.Some? ==> r.value in ms && r.value.id == id
    ensures r.None? ==> forall m :: m in ms ==> m.id != id
  {
    if ms == [] then None else if ms[0].id == id then Some(ms[0]) else Lookup(ms[1..], id)
  }

  // One row per message that meets the conditions.
  function MessageRows(db: Db, cs: seq<Clause>, ms: seq<Message>): seq<int>
  {
    if ms == [] then []
    else MessageRows(db, cs, ms[..|ms| - 1]) + if All(db, cs, ms[|ms| - 1], NO_ATTACHMENT) then [ms[|ms| - 1].id] else []
  }

  // One row per attachment whose message, with it, meets them.
  function AttachmentRows(db: Db, cs: seq<Clause>, xs: seq<Attachment>): seq<int>
  {
    if xs == [] then []
    else
      var m := Lookup(db.messages, xs[|xs| - 1].messageId);
      AttachmentRows(db, cs, xs[..|xs| - 1]) + if m.Some? && All(db, cs, m.value, xs[|xs| - 1]) then [m.value.id] else []
  }

  function Reversed(s: seq<int>): (r: seq<int>)
    ensures |r| == |s| && forall i :: 0 <= i < |s| ==> r[i] == s[|s| - 1 - i]
  {
    seq(|s|, i requires 0 <= i < |s| => s[|s| - 1 - i])
  }

  function InOrder(s: seq<int>, oldest: bool): seq<int> { if oldest then s else Reversed(s) }

  // The rows the query answers, in its order.
  function RowsOf(db: Db, q: Query, oldest: bool): seq<int>
  {
    InOrder(if q.driver.Files? then AttachmentRows(db, q.clauses, db.attachments) else MessageRows(db, q.clauses, db.messages), oldest)
  }

  // ---- order ----

  predicate Before(oldest: bool, x: int, y: int) { if oldest then x < y else x > y }

  ghost predicate Strict(oldest: bool, s: seq<int>) { forall i, j :: 0 <= i < j < |s| ==> Before(oldest, s[i], s[j]) }

  ghost predicate Weak(oldest: bool, s: seq<int>) { forall i, j :: 0 <= i < j < |s| ==> s[i] == s[j] || Before(oldest, s[i], s[j]) }

  // Rows without the repeats of one message.
  function Distinct(rows: seq<int>): (d: seq<int>)
    ensures |d| <= |rows| && (rows == [] <==> d == []) && (rows != [] ==> d[|d| - 1] == rows[|rows| - 1])
    ensures forall x :: x in d <==> x in rows
  {
    if rows == [] then []
    else
      var d := Distinct(rows[..|rows| - 1]);
      assert rows == rows[..|rows| - 1] + [rows[|rows| - 1]];
      if d != [] && d[|d| - 1] == rows[|rows| - 1] then d else d + [rows[|rows| - 1]]
  }

  lemma {:induction false} DistinctIsStrict(oldest: bool, rows: seq<int>)
    requires Weak(oldest, rows)
    ensures Strict(oldest, Distinct(rows))
    decreases |rows|
  {
    if rows != [] {
      DistinctIsStrict(oldest, rows[..|rows| - 1]);
      var d, x := Distinct(rows[..|rows| - 1]), rows[|rows| - 1];
      forall i | 0 <= i < |d| && d[|d| - 1] != x ensures Before(oldest, d[i], x) {
        var k :| 0 <= k < |rows| - 1 && rows[k] == d[|d| - 1];
      }
    }
  }

  lemma ReversedOrder(s: seq<int>)
    ensures Weak(true, s) ==> Weak(false, Reversed(s))
    ensures Strict(true, s) ==> Strict(false, Reversed(s))
    ensures forall x :: x in Reversed(s) <==> x in s
  {
    forall x | x in s ensures x in Reversed(s) {
      var i :| 0 <= i < |s| && s[i] == x;
      assert Reversed(s)[|s| - 1 - i] == x;
    }
  }

  lemma SameEmpty<T>(a: seq<T>, b: seq<T>)
    requires forall x :: x in a <==> x in b
    ensures a == [] <==> b == []
  {
    assert a == [] || a[0] in a;
    assert b == [] || b[0] in b;
  }

  // A strictly ordered list is determined by its members.
  lemma {:induction false} StrictIsUnique(oldest: bool, a: seq<int>, b: seq<int>)
    requires Strict(oldest, a) && Strict(oldest, b) && forall x :: x in a <==> x in b
    ensures a == b
    decreases |a|
  {
    SameEmpty(a, b);
    if a != [] {
      assert a[0] in a && a[0] in b;
      assert b[0] in b;
      var i :| 0 <= i < |b| && b[i] == a[0];
      var j :| 0 <= j < |a| && a[j] == b[0];
      forall x ensures x in a[1..] <==> x in b[1..] { OnlyFirst(oldest, a, b, x); }
      StrictIsUnique(oldest, a[1..], b[1..]);
    }
  }

  lemma OnlyFirst(oldest: bool, a: seq<int>, b: seq<int>, x: int)
    requires Strict(oldest, a) && Strict(oldest, b) && a != [] && b != [] && a[0] == b[0] && forall x :: x in a <==> x in b
    ensures x in a[1..] <==> x in b[1..]
  {
    assert a == [a[0]] + a[1..] && b == [b[0]] + b[1..];
    assert x in a[1..] ==> x != a[0] && x in a;
    assert x in b[1..] ==> x != b[0] && x in b;
  }

  // ---- what is left to show ----

  // The messages that pass the filter and lie past the cursor, in sort order.
  function Filtered(db: Db, s: Spec, ms: seq<Message>): seq<int>
  {
    if ms == [] then []
    else
      var m := ms[|ms| - 1];
      Filtered(db, s, ms[..|ms| - 1]) + if Passes(db, s, m) && PastCursor(s, m.id) then [m.id] else []
  }

  function Remaining(db: Db, s: Spec): seq<int> { InOrder(Filtered(db, s, db.messages), s.sort.Oldest?) }

  lemma {:induction false} FilteredIs(db: Db, s: Spec, ms: seq<Message>, x: int)
    ensures x in Filtered(db, s, ms) <==> exists m :: m in ms && m.id == x && Passes(db, s, m) && PastCursor(s, m.id)
    decreases |ms|
  {
    if ms != [] {
      FilteredIs(db, s, ms[..|ms| - 1], x);
      assert ms == ms[..|ms| - 1] + [ms[|ms| - 1]];
    }
  }

  lemma {:induction false} MessageRowsAre(db: Db, cs: seq<Clause>, ms: seq<Message>, x: int)
    ensures x in MessageRows(db, cs, ms) <==> exists m :: m in ms && m.id == x && All(db, cs, m, NO_ATTACHMENT)
    decreases |ms|
  {
    if ms != [] {
      MessageRowsAre(db, cs, ms[..|ms| - 1], x);
      assert ms == ms[..|ms| - 1] + [ms[|ms| - 1]];
    }
  }

  ghost predicate AttachmentRow(db: Db, cs: seq<Clause>, a: Attachment, x: int)
  {
    a.messageId == x && var m := Lookup(db.messages, x); m.Some? && All(db, cs, m.value, a)
  }

  lemma {:induction false} AttachmentRowsAre(db: Db, cs: seq<Clause>, xs: seq<Attachment>, x: int)
    ensures x in AttachmentRows(db, cs, xs) <==> exists a :: a in xs && AttachmentRow(db, cs, a, x)
    decreases |xs|
  {
    if xs != [] {
      var last := xs[|xs| - 1];
      AttachmentRowsAre(db, cs, xs[..|xs| - 1], x);
      assert xs == xs[..|xs| - 1] + [last];
      var m := Lookup(db.messages, last.messageId);
      assert AttachmentRow(db, cs, last, x) <==> m.Some? && All(db, cs, m.value, last) && m.value.id == x;
      assert last in xs && forall a :: a in xs[..|xs| - 1] ==> a in xs;
    }
  }

  ghost predicate Ascending(ms: seq<Message>) { forall i, j :: 0 <= i < j < |ms| ==> ms[i].id < ms[j].id }

  lemma {:induction false} FilteredAscends(db: Db, s: Spec, ms: seq<Message>)
    requires Ascending(ms)
    ensures Strict(true, Filtered(db, s, ms))
    ensures forall i :: 0 <= i < |Filtered(db, s, ms)| ==> ms != [] && Filtered(db, s, ms)[i] <= ms[|ms| - 1].id
    decreases |ms|
  {
    if ms != [] { FilteredAscends(db, s, ms[..|ms| - 1]); }
  }

  lemma {:induction false} MessageRowsAscend(db: Db, cs: seq<Clause>, ms: seq<Message>)
    requires Ascending(ms)
    ensures Weak(true, MessageRows(db, cs, ms))
    ensures forall i :: 0 <= i < |MessageRows(db, cs, ms)| ==> ms != [] && MessageRows(db, cs, ms)[i] <= ms[|ms| - 1].id
    decreases |ms|
  {
    if ms != [] { MessageRowsAscend(db, cs, ms[..|ms| - 1]); }
  }

  lemma {:induction false} AttachmentRowsAscend(db: Db, cs: seq<Clause>, xs: seq<Attachment>)
    requires forall i, j :: 0 <= i < j < |xs| ==> xs[i].messageId <= xs[j].messageId
    ensures Weak(true, AttachmentRows(db, cs, xs))
    ensures forall i :: 0 <= i < |AttachmentRows(db, cs, xs)| ==> xs != [] && AttachmentRows(db, cs, xs)[i] <= xs[|xs| - 1].messageId
    decreases |xs|
  {
    if xs != [] { AttachmentRowsAscend(db, cs, xs[..|xs| - 1]); }
  }

  lemma {:induction false} LookupFinds(ms: seq<Message>, m: Message)
    requires Ascending(ms) && m in ms
    ensures Lookup(ms, m.id) == Some(m)
  {
    if ms[0] != m {
      assert ms == [ms[0]] + ms[1..];
      LookupFinds(ms[1..], m);
    }
  }

  // Some row carries exactly the messages left.
  lemma RowIffRemaining(db: Db, s: Spec, minId: int, maxId: int, x: int)
    requires DbOk(db) && forall m :: m in db.messages && Passes(db, s, m) ==> InBounds(minId, maxId, m.id)
    ensures x in RowsOf(db, QueryOf(s, minId, maxId), true) <==> x in Filtered(db, s, db.messages)
  {
    var q := QueryOf(s, minId, maxId);
    FilteredIs(db, s, db.messages, x);
    if DriverOf(s).Files? {
      AttachmentRowsAre(db, q.clauses, db.attachments, x);
      FileRowIff(db, s, minId, maxId, x);
    } else {
      MessageRowsAre(db, q.clauses, db.messages, x);
      forall m | m in db.messages
        ensures All(db, q.clauses, m, NO_ATTACHMENT) <==> Passes(db, s, m) && PastCursor(s, m.id)
      {
        QueryHolds(db, s, minId, maxId, m, NO_ATTACHMENT);
        PlanIsFilter(db, s, minId, maxId, m);
      }
    }
  }

  lemma FileRowIff(db: Db, s: Spec, minId: int, maxId: int, x: int)
    requires DbOk(db) && DriverOf(s).Files? && forall m :: m in db.messages && Passes(db, s, m) ==> InBounds(minId, maxId, m.id)
    ensures (exists a :: a in db.attachments && AttachmentRow(db, QueryOf(s, minId, maxId).clauses, a, x)) <==>
            exists m :: m in db.messages && m.id == x && Passes(db, s, m) && PastCursor(s, m.id)
  {
    var found := Lookup(db.messages, x);
    if found.Some? {
      var m := found.value;
      PlanIsFilter(db, s, minId, maxId, m);
      forall a | a in db.attachments
        ensures All(db, QueryOf(s, minId, maxId).clauses, m, a) <==> DriverHolds(db, s, m, a) && RestHolds(db, s, minId, maxId, m)
      {
        QueryHolds(db, s, minId, maxId, m, a);
      }
      forall n | n in db.messages && n.id == x ensures n == m { LookupFinds(db.messages, n); }
    }
  }

  // The distinct rows of the query are the messages left, in order.
  lemma RowsAreRemaining(db: Db, s: Spec, minId: int, maxId: int)
    requires DbOk(db) && forall m :: m in db.messages && Passes(db, s, m) ==> InBounds(minId, maxId, m.id)
    ensures Distinct(RowsOf(db, QueryOf(s, minId, maxId), s.sort.Oldest?)) == Remaining(db, s)
  {
    var q, oldest := QueryOf(s, minId, maxId), s.sort.Oldest?;
    var rows, hits := RowsOf(db, q, true), Filtered(db, s, db.messages);
    AttachmentRowsAscend(db, q.clauses, db.attachments);
    MessageRowsAscend(db, q.clauses, db.messages);
    FilteredAscends(db, s, db.messages);
    ReversedOrder(rows);
    ReversedOrder(hits);
    DistinctIsStrict(oldest, InOrder(rows, oldest));
    forall x ensures x in rows <==> x in hits { RowIffRemaining(db, s, minId, maxId, x); }
    StrictIsUnique(oldest, Distinct(InOrder(rows, oldest)), InOrder(hits, oldest));
  }
}
