// Who can change an upload and by how much, whatever the clients send
// (src/community/attachment_http.cpp).
module UploadRights {
  import opened Options
  import opened Uploads
  import opened UploadRuns

  // ---- any run, of any clients ----

  predicate PossibleRun(w: World, events: seq<Event>)
    decreases |events|, 0
  {
    InPlace(w) &&
    (events == [] ||
      (PossibleRun(w, events[..|events| - 1])
       && InPlace(Reached(w, events[..|events| - 1])) && Possible(Reached(w, events[..|events| - 1]), events[|events| - 1])))
  }

  function Reached(w: World, events: seq<Event>): World
    requires PossibleRun(w, events)
    decreases |events|, 1
  {
    if events == [] then w else Happens(Reached(w, events[..|events| - 1]), events[|events| - 1])
  }

  // A PATCH is taken exactly from the uploader, while a member and the upload
  // is open, at the file's end, within both sizes; complete, exactly from the
  // same, for a whole file.
  lemma TakenIff(row: Row, uid: int, member: bool, offset: Option<int>, length: int)
    ensures PatchRefused(row, uid, member, offset, length) == None <==>
            && row.uploading && uid == row.uploader && member && offset == Some(|row.file|) && length >= 0
            && (row.expected > 0 ==> |row.file| + length <= row.expected) && (row.limit > 0 ==> |row.file| + length <= row.limit)
    ensures PatchRefused(row, uid, member, offset, length) == Some(403) <==> row.uploading && !(uid == row.uploader && member)
    ensures CompleteRefused(row, uid, member) == None <==>
            row.uploading && uid == row.uploader && member && (row.expected > 0 ==> |row.file| == row.expected)
  {
  }

  // ---- how far the file can grow ----

  // What is on disk and what is to come stay within the declared size and the
  // server's limit.
  ghost predicate TransferFits(t: Transfer, row: Row)
  {
    && t.position <= |row.file| && t.position + |t.unflushed| + t.remain == t.final
    && (row.expected > 0 ==> t.final <= row.expected) && (row.limit > 0 ==> t.final <= row.limit)
  }

  ghost predicate Fits(w: World)
  {
    && (forall c :: c in w.transfers ==> TransferFits(w.transfers[c], w.row))
    && (w.row.expected > 0 ==> |w.row.file| <= w.row.expected) && (w.row.limit > 0 ==> |w.row.file| <= w.row.limit)
  }

  lemma FlushFits(w: World, conn: nat, k: nat)
    requires Fits(w) && conn in w.transfers && k <= |w.transfers[conn].unflushed|
    ensures var (row, t) := Flushed(w.row, w.transfers[conn], k);
            Fits(World(row, w.transfers[conn := t])) && Fits(World(row, w.transfers - {conn}))
    ensures |Flushed(w.row, w.transfers[conn], k).0.file| >= |w.row.file|
  {
    assert TransferFits(w.transfers[conn], w.row);
  }

  lemma MaybeFinishedFits(w: World, conn: nat)
    requires Fits(w) && conn in w.transfers
    ensures Fits(MaybeFinished(w, conn)) && |MaybeFinished(w, conn).row.file| >= |w.row.file|
  {
    FlushFits(w, conn, |w.transfers[conn].unflushed|);
  }

  lemma HappensFits(w: World, e: Event)
    requires InPlace(w) && Possible(w, e) && Fits(w)
    ensures Fits(Happens(w, e)) && |Happens(w, e).row.file| >= |w.row.file|
  {
    match e {
      case Patch(conn, uid, member, offset, length, head) =>
        if PatchRefused(w.row, uid, member, offset, length).None? {
          var t := Started(w.row, length, head);
          assert TransferFits(t, w.row);
          MaybeFinishedFits(w.(transfers := w.transfers[conn := t]), conn);
        }
      case Chunk(conn, data) =>
        var t := w.transfers[conn];
        var next := t.(unflushed := t.unflushed + data, remain := t.remain - |data|);
        assert TransferFits(t, w.row) && TransferFits(next, w.row);
        MaybeFinishedFits(w.(transfers := w.transfers[conn := next]), conn);
      case Flush(conn, k) => FlushFits(w, conn, k);
      case Close(conn, k) => FlushFits(w, conn, k);
      case Complete(_, _) =>
    }
  }

  // The file never outgrows the size declared, nor a positive server limit,
  // and never gets shorter.
  lemma {:induction false} NeverOutgrows(w: World, events: seq<Event>)
    requires PossibleRun(w, events) && Fits(w)
    ensures Fits(Reached(w, events)) && |Reached(w, events).row.file| >= |w.row.file|
  {
    if events != [] {
      NeverOutgrows(w, events[..|events| - 1]);
      HappensFits(Reached(w, events[..|events| - 1]), events[|events| - 1]);
    }
  }

  // ---- who can change it ----

  datatype Author = Author(uid: int, member: bool)

  // Who sent the connection's last PATCH.
  function Patcher(events: seq<Event>, conn: nat): Option<Author>
  {
    if events == [] then None
    else
      var e := events[|events| - 1];
      if e.Patch? && e.conn == conn then Some(Author(e.uid, e.member)) else Patcher(events[..|events| - 1], conn)
  }

  function AuthorOf(events: seq<Event>, e: Event): Option<Author>
  {
    match e
    case Patch(_, uid, member, _, _, _) => Some(Author(uid, member))
    case Complete(uid, member) => Some(Author(uid, member))
    case Chunk(conn, _) => Patcher(events, conn)
    case Flush(conn, _) => Patcher(events, conn)
    case Close(conn, _) => Patcher(events, conn)
  }

  // Every transfer under way was started by the uploader, as a member.
  ghost predicate AllTheirs(w: World, events: seq<Event>)
  {
    forall c :: c in w.transfers ==> Patcher(events, c) == Some(Author(w.row.uploader, true))
  }

  lemma PatcherMore(events: seq<Event>, e: Event, conn: nat)
    ensures Patcher(events + [e], conn) == if e.Patch? && e.conn == conn then Some(Author(e.uid, e.member)) else Patcher(events, conn)
  {
    assert (events + [e])[..|events|] == events;
  }

  lemma HappensTheirs(w: World, events: seq<Event>, e: Event)
    requires InPlace(w) && Possible(w, e) && AllTheirs(w, events)
    ensures Happens(w, e).row.uploader == w.row.uploader && AllTheirs(Happens(w, e), events + [e])
    ensures Happens(w, e) != w ==> AuthorOf(events, e) == Some(Author(w.row.uploader, true))
  {
    forall c ensures Patcher(events + [e], c) == if e.Patch? && e.conn == c then Some(Author(e.uid, e.member)) else Patcher(events, c) {
      PatcherMore(events, e, c);
    }
  }

  // Whatever changes the file, its row or a transfer was sent by the one who
  // began the upload, while a member.
  lemma {:induction false} OnlyTheUploader(w: World, events: seq<Event>)
    requires PossibleRun(w, events) && w.transfers == map[]
    ensures AllTheirs(Reached(w, events), events) && Reached(w, events).row.uploader == w.row.uploader
    ensures events != [] ==>
              var before := events[..|events| - 1];
              Reached(w, events) != Reached(w, before) ==>
              AuthorOf(before, events[|events| - 1]) == Some(Author(w.row.uploader, true))
  {
    if events != [] {
      var before, e := events[..|events| - 1], events[|events| - 1];
      OnlyTheUploader(w, before);
      HappensTheirs(Reached(w, before), before, e);
      assert before + [e] == events;
    }
  }
}
