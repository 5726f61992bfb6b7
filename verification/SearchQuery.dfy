// The search planner (src/community/search.cpp): which index a search walks
// and the conditions of its query, against the plain filter it stands for.
module SearchQuery {
  import opened Utf8
  import opened SearchFold

  datatype Message = Message(id: int, channel: string, sender: int, timestamp: int, content: seq<Byte>, encrypted: bool)

  datatype Kind = Image | Video | Document | Audio
  datatype Attachment = Attachment(messageId: int, kind: Kind, encrypted: bool, filename: seq<Byte>)

  // Rows in id order. The text index is a predicate and a score: which messages
  // an expression matches, and how well (lower is better).
  datatype Db = Db(messages: seq<Message>, attachments: seq<Attachment>, fts: (string, int) -> bool, score: (string, int) -> int)

  datatype Has = File | OfKind(kind: Kind) | Link
  datatype Sort = Newest | Oldest | Relevance

  datatype Spec = Spec(channels: seq<string>, expr: string, contains: seq<seq<Byte>>, excludes: seq<seq<Byte>>, authors: seq<int>,
                       after: int, before: int, has: set<Has>, sort: Sort, cursor: int, offset: int, limit: int, count: bool)

  const KIND_BITS: seq<Kind> := [Image, Video, Document, Audio]

  const HTTP: seq<Byte> := [0x68, 0x74, 0x74, 0x70, 0x3A, 0x2F, 0x2F]
  const HTTPS: seq<Byte> := [0x68, 0x74, 0x74, 0x70, 0x73, 0x3A, 0x2F, 0x2F]

  predicate HasLink(m: Message) { Occurs(HTTP, m.content) || Occurs(HTTPS, m.content) }

  predicate HasFile(db: Db, id: int) { exists a :: a in db.attachments && a.messageId == id }

  predicate HasKind(db: Db, id: int, kind: Kind) { exists a :: a in db.attachments && a.messageId == id && a.kind == kind }

  // Inside-word matching, in the text or an unencrypted file name.
  predicate HasFragment(db: Db, m: Message, f: seq<Byte>)
  {
    Occurs(f, Fold(m.content)) ||
    exists a :: a in db.attachments && a.messageId == m.id && !a.encrypted && Occurs(f, Fold(a.filename))
  }

  // ---- the plain filter ----

  predicate FragmentsHold(db: Db, s: Spec, m: Message)
  {
    && (s.contains != [] || s.excludes != [] ==> !m.encrypted)
    && (forall f :: f in s.contains ==> HasFragment(db, m, f))
    && (forall f :: f in s.excludes ==> !HasFragment(db, m, f))
  }

  predicate Wanted(db: Db, s: Spec, h: Has, m: Message)
  {
    match h
    case File => HasFile(db, m.id)
    case OfKind(kind) => HasKind(db, m.id, kind)
    case Link => HasLink(m)
  }

  predicate Dated(s: Spec, m: Message) { (s.after > 0 ==> m.timestamp >= s.after) && (s.before > 0 ==> m.timestamp < s.before) }

  // The message passes every condition of the search.
  predicate Passes(db: Db, s: Spec, m: Message)
  {
    && m.channel in s.channels
    && (s.expr != "" ==> db.fts(s.expr, m.id))
    && (s.authors != [] ==> m.sender in s.authors)
    && Dated(s, m)
    && (forall h :: h in s.has ==> Wanted(db, s, h, m))
    && FragmentsHold(db, s, m)
  }

  predicate PastCursor(s: Spec, id: int) { s.cursor > 0 ==> if s.sort.Oldest? then id > s.cursor else id < s.cursor }

  // ---- the query ----

  datatype Driver = Fts | Author | Files | Channel | Scan

  datatype Clause =
    | Matches(expr: string) | ChannelIs(channel: string) | ChannelIn(channels: seq<string>) | SenderIn(authors: seq<int>)
    | Linked | RowKind(kind: Kind)
    | From(time: int) | Until(time: int) | IdFrom(id: int) | IdTo(id: int) | IdAbove(id: int) | IdBelow(id: int)
    | AnyFile | AnyOfKind(kind: Kind) | Plaintext | Fragment(f: seq<Byte>, negate: bool) | AnyLink

  datatype Query = Query(driver: Driver, clauses: seq<Clause>)

  // A row: a message and, when the walk follows the attachments, one of them.
  predicate Holds(db: Db, c: Clause, m: Message, a: Attachment)
  {
    match c
    case Matches(expr) => db.fts(expr, m.id)
    case ChannelIs(channel) => m.channel == channel
    case ChannelIn(channels) => m.channel in channels
    case SenderIn(authors) => m.sender in authors
    case Linked => a.messageId > 0
    case RowKind(kind) => a.kind == kind
    case From(time) => m.timestamp >= time
    case Until(time) => m.timestamp < time
    case IdFrom(id) => m.id >= id
    case IdTo(id) => m.id <= id
    case IdAbove(id) => m.id > id
    case IdBelow(id) => m.id < id
    case AnyFile => HasFile(db, m.id)
    case AnyOfKind(kind) => HasKind(db, m.id, kind)
    case Plaintext => !m.encrypted
    case Fragment(f, negate) => HasFragment(db, m, f) != negate
    case AnyLink => HasLink(m)
  }

  predicate All(db: Db, cs: seq<Clause>, m: Message, a: Attachment)
  {
    forall c :: c in cs ==> Holds(db, c, m, a)
  }

  function FileBits(s: Spec): set<Has> { s.has - {Link} }

  function DriverOf(s: Spec): Driver
  {
    if s.expr != "" then Fts
    else if s.authors != [] then Author
    else if FileBits(s) != {} then Files
    else if |s.channels| == 1 then Channel
    else Scan
  }

  // The first kind asked for, in the table's order.
  function FirstKind(kinds: seq<Kind>, has: set<Has>): seq<Kind>
  {
    if kinds == [] then [] else if OfKind(kinds[0]) in has then [kinds[0]] else FirstKind(kinds[1..], has)
  }

  // The kind the walk itself filters on, if any.
  function DriverKind(s: Spec): seq<Kind> { if DriverOf(s).Files? then FirstKind(KIND_BITS, s.has) else [] }

  function When(on: bool, c: Clause): seq<Clause> { if on then [c] else [] }

  function DriverClauses(s: Spec): seq<Clause>
  {
    match DriverOf(s)
    case Fts => [Matches(s.expr)]
    case Author => [SenderIn(s.authors)]
    case Files => [Linked] + if DriverKind(s) != [] then [RowKind(DriverKind(s)[0])] else []
    case Channel => if |s.channels| == 1 then [ChannelIs(s.channels[0])] else []
    case Scan => []
  }

  function KindClauses(kinds: seq<Kind>, s: Spec): seq<Clause>
  {
    if kinds == [] then []
    else
      KindClauses(kinds[..|kinds| - 1], s) +
      When(OfKind(kinds[|kinds| - 1]) in s.has && kinds[|kinds| - 1] !in DriverKind(s), AnyOfKind(kinds[|kinds| - 1]))
  }

  function FragmentClauses(fs: seq<seq<Byte>>, negate: bool): seq<Clause>
  {
    if fs == [] then [] else FragmentClauses(fs[..|fs| - 1], negate) + [Fragment(fs[|fs| - 1], negate)]
  }

  function PlaceClauses(s: Spec): seq<Clause>
  {
    When(!DriverOf(s).Channel?, ChannelIn(s.channels)) + When(!DriverOf(s).Author? && s.authors != [], SenderIn(s.authors))
  }

  function DateClauses(s: Spec, minId: int, maxId: int): seq<Clause>
  {
    When(s.after > 0, From(s.after)) + When(s.before > 0, Until(s.before)) + When(minId > 0, IdFrom(minId)) + When(maxId > 0, IdTo(maxId))
  }

  function CursorClauses(s: Spec): seq<Clause>
  {
    When(s.cursor > 0, if s.sort.Oldest? then IdAbove(s.cursor) else IdBelow(s.cursor))
  }

  function FileClauses(s: Spec): seq<Clause>
  {
    When(File in s.has && !DriverOf(s).Files?, AnyFile) + KindClauses(KIND_BITS, s)
  }

  function TextClauses(s: Spec): seq<Clause>
  {
    (if s.contains != [] || s.excludes != []
     then [Plaintext] + FragmentClauses(s.contains, false) + FragmentClauses(s.excludes, true)
     else []) +
    When(Link in s.has, AnyLink)
  }

  function QueryOf(s: Spec, minId: int, maxId: int): Query
  {
    Query(DriverOf(s), DriverClauses(s) + PlaceClauses(s) + DateClauses(s, minId, maxId) + CursorClauses(s) + FileClauses(s) + TextClauses(s))
  }

  // The query is built clause by clause.
  method BuildQuery(s: Spec, minId: int, maxId: int) returns (q: Query)
    ensures q == QueryOf(s, minId, maxId)
  {
    var driver, driverKind, cs := StartWalk(s);
    cs := AddPlaces(cs, s, driver);
    cs := AddDates(cs, s, minId, maxId);
    if s.cursor > 0 { cs := cs + [if s.sort.Oldest? then IdAbove(s.cursor) else IdBelow(s.cursor)]; }
    cs := AddFiles(cs, s, driver, driverKind);
    cs := AddText(cs, s);
    q := Query(driver, cs);
  }

  method StartWalk(s: Spec) returns (driver: Driver, driverKind: seq<Kind>, cs: seq<Clause>)
    ensures driver == DriverOf(s) && driverKind == DriverKind(s) && cs == DriverClauses(s)
  {
    driver :=
      if s.expr != "" then Fts else if s.authors != [] then Author else if s.has - {Link} != {} then Files
      else if |s.channels| == 1 then Channel else Scan;
    driverKind, cs := [], [];
    match driver {
      case Fts => cs := [Matches(s.expr)];
      case Author => cs := [SenderIn(s.authors)];
      case Files =>
        cs := [Linked];
        driverKind := PickKind(s);
        if driverKind != [] { cs := cs + [RowKind(driverKind[0])]; }
      case Channel => cs := [ChannelIs(s.channels[0])];
      case Scan =>
    }
  }

  method AddPlaces(was: seq<Clause>, s: Spec, driver: Driver) returns (cs: seq<Clause>)
    requires driver == DriverOf(s)
    ensures cs == was + PlaceClauses(s)
  {
    cs := was;
    if !driver.Channel? { cs := cs + [ChannelIn(s.channels)]; }
    if !driver.Author? && s.authors != [] { cs := cs + [SenderIn(s.authors)]; }
  }

  method PickKind(s: Spec) returns (k: seq<Kind>)
    ensures k == FirstKind(KIND_BITS, s.has)
  {
    for i := 0 to |KIND_BITS|
      invariant FirstKind(KIND_BITS, s.has) == FirstKind(KIND_BITS[i..], s.has)
    {
      assert KIND_BITS[i..][1..] == KIND_BITS[i + 1..];
      if OfKind(KIND_BITS[i]) in s.has { return [KIND_BITS[i]]; }
    }
    k := [];
  }

  method AddDates(was: seq<Clause>, s: Spec, minId: int, maxId: int) returns (cs: seq<Clause>)
    ensures cs == was + DateClauses(s, minId, maxId)
  {
    cs := was;
    if s.after > 0 { cs := cs + [From(s.after)]; }
    if s.before > 0 { cs := cs + [Until(s.before)]; }
    if minId > 0 { cs := cs + [IdFrom(minId)]; }
    if maxId > 0 { cs := cs + [IdTo(maxId)]; }
  }

  lemma KindClausesMore(kinds: seq<Kind>, i: nat, s: Spec)
    requires i < |kinds|
    ensures KindClauses(kinds[..i + 1], s) ==
            KindClauses(kinds[..i], s) + When(OfKind(kinds[i]) in s.has && kinds[i] !in DriverKind(s), AnyOfKind(kinds[i]))
  {
    assert kinds[..i + 1][..i] == kinds[..i];
  }

  method AddFiles(was: seq<Clause>, s: Spec, driver: Driver, driverKind: seq<Kind>) returns (cs: seq<Clause>)
    requires driver == DriverOf(s) && driverKind == DriverKind(s)
    ensures cs == was + FileClauses(s)
  {
    cs := was;
    if File in s.has && !driver.Files? { cs := cs + [AnyFile]; }
    ghost var before := cs;
    for i := 0 to |KIND_BITS|
      invariant cs == before + KindClauses(KIND_BITS[..i], s)
    {
      KindClausesMore(KIND_BITS, i, s);
      if OfKind(KIND_BITS[i]) in s.has && KIND_BITS[i] !in driverKind { cs := cs + [AnyOfKind(KIND_BITS[i])]; }
    }
    assert KIND_BITS[..|KIND_BITS|] == KIND_BITS;
  }

  method AddText(was: seq<Clause>, s: Spec) returns (cs: seq<Clause>)
    ensures cs == was + TextClauses(s)
  {
    cs := was;
    if s.contains != [] || s.excludes != [] {
      cs := cs + [Plaintext];
      cs := AddFragments(cs, s.contains, false);
      cs := AddFragments(cs, s.excludes, true);
    }
    if Link in s.has { cs := cs + [AnyLink]; }
  }

  method AddFragments(was: seq<Clause>, fs: seq<seq<Byte>>, negate: bool) returns (cs: seq<Clause>)
    ensures cs == was + FragmentClauses(fs, negate)
  {
    cs := was;
    for i := 0 to |fs|
      invariant cs == was + FragmentClauses(fs[..i], negate)
    {
      assert fs[..i + 1][..i] == fs[..i];
      cs := cs + [Fragment(fs[i], negate)];
    }
    assert fs[..|fs|] == fs;
  }
}
