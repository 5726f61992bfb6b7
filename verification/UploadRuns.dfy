// Whole uploads: any number of connections, cut short wherever the network
// pleases, by a client that sends its own file's bytes.
module UploadRuns {
  import opened Options
  import opened Decimal
  import opened Uploads

  datatype World = World(row: Row, transfers: map<nat, Transfer>)

  datatype Event =
    | Patch(conn: nat, uid: int, member: bool, offset: Option<int>, length: int, head: Bytes)
    | Chunk(conn: nat, data: Bytes)
    | Flush(conn: nat, k: nat)
    | Close(conn: nat, k: nat)
    | Complete(uid: int, member: bool)

  function Finished(w: World, conn: nat): World
    requires conn in w.transfers && w.transfers[conn].position <= |w.row.file|
  {
    World(Flushed(w.row, w.transfers[conn], |w.transfers[conn].unflushed|).0, w.transfers - {conn})
  }

  // Once the body is whole the transfer ends.
  function MaybeFinished(w: World, conn: nat): World
    requires conn in w.transfers && w.transfers[conn].position <= |w.row.file|
  {
    if w.transfers[conn].remain == 0 then Finished(w, conn) else w
  }

  predicate InPlace(w: World) { forall c :: c in w.transfers ==> w.transfers[c].position <= |w.row.file| }

  // A connection handles one request at a time.
  predicate Possible(w: World, e: Event)
  {
    match e
    case Patch(conn, _, _, _, _, _) => conn !in w.transfers
    case Chunk(conn, data) => conn in w.transfers && w.transfers[conn].remain > 0 && |data| == Min(w.transfers[conn].remain, PATCH_BUF_SIZE)
    case Flush(conn, k) => conn in w.transfers && k <= |w.transfers[conn].unflushed|
    case Close(conn, k) => conn in w.transfers && k <= |w.transfers[conn].unflushed|
    case Complete(_, _) => true
  }

  function Happens(w: World, e: Event): World
    requires InPlace(w) && Possible(w, e)
  {
    match e
    case Patch(conn, uid, member, offset, length, head) =>
      if PatchRefused(w.row, uid, member, offset, length).Some? then w
      else MaybeFinished(w.(transfers := w.transfers[conn := Started(w.row, length, head)]), conn)
    case Chunk(conn, data) =>
      var t := w.transfers[conn];
      MaybeFinished(w.(transfers := w.transfers[conn := t.(unflushed := t.unflushed + data, remain := t.remain - |data|)]), conn)
    case Flush(conn, k) =>
      var (row, t) := Flushed(w.row, w.transfers[conn], k);
      World(row, w.transfers[conn := t])
    case Close(conn, k) => World(Flushed(w.row, w.transfers[conn], k).0, w.transfers - {conn})
    case Complete(uid, member) =>
      if CompleteRefused(w.row, uid, member).Some? then w else w.(row := w.row.(uploading := false, size := |w.row.file|))
  }

  // ---- an honest client of `whole` ----

  predicate Slice(data: Bytes, whole: Bytes, at: int) { 0 <= at && at + |data| <= |whole| && data == whole[at..at + |data|] }

  // The body bytes are the file's at the offset the client gave.
  predicate Honest(w: World, e: Event, whole: Bytes)
  {
    match e
    case Patch(_, _, _, offset, length, head) =>
      offset.Some? && offset.value >= 0 && length >= 0 ==>
        (Slice(head[..Min(|head|, length)], whole, offset.value) || offset.value > |whole|)
    case Chunk(conn, data) => conn in w.transfers ==> Slice(data, whole, w.transfers[conn].position + |w.transfers[conn].unflushed|)
    case _ => true
  }

  ghost predicate TransferOk(t: Transfer, row: Row, whole: Bytes)
  {
    && t.position <= |row.file| && Slice(t.unflushed, whole, t.position)
    && t.position + |t.unflushed| + t.remain == t.final <= |whole|
  }

  // The file is a prefix of the client's, no longer than it declared.
  ghost predicate Inv(w: World, whole: Bytes)
  {
    && w.row.expected == |whole| > 0 && w.row.file <= whole
    && (forall c :: c in w.transfers ==> TransferOk(w.transfers[c], w.row, whole))
    && (!w.row.uploading ==> w.row.file == whole && w.row.size == |whole|)
  }

  lemma InvInPlace(w: World, whole: Bytes)
    requires Inv(w, whole)
    ensures InPlace(w)
  {
  }

  // Writing the file's own bytes where they belong keeps it a prefix.
  lemma WrittenIsPrefix(file: Bytes, at: nat, data: Bytes, whole: Bytes)
    requires file <= whole && at <= |file| && Slice(data, whole, at)
    ensures Written(file, at, data) <= whole && file <= Written(file, at, data)
    ensures at + |data| <= |Written(file, at, data)|
  {
    var w := Written(file, at, data);
    assert |w| == if at + |data| <= |file| then |file| else at + |data|;
    forall k | 0 <= k < |w| ensures w[k] == whole[k] {
      if at <= k < at + |data| { assert data[k - at] == whole[at..at + |data|][k - at]; }
    }
  }

  lemma SliceParts(data: Bytes, whole: Bytes, at: nat, k: nat)
    requires Slice(data, whole, at) && k <= |data|
    ensures Slice(data[..k], whole, at) && Slice(data[k..], whole, at + k)
  {
  }

  lemma SliceJoins(a: Bytes, b: Bytes, whole: Bytes, at: nat)
    requires Slice(a, whole, at) && Slice(b, whole, at + |a|)
    ensures Slice(a + b, whole, at)
  {
    assert (a + b) == whole[at..at + |a + b|];
  }

  // A stream that passes bytes on, among the other transfers.
  lemma FlushKeeps(w: World, conn: nat, k: nat, whole: Bytes)
    requires Inv(w, whole) && conn in w.transfers && k <= |w.transfers[conn].unflushed|
    ensures var (row, t) := Flushed(w.row, w.transfers[conn], k);
            && Inv(World(row, w.transfers[conn := t]), whole) && Inv(World(row, w.transfers - {conn}), whole)
            && t.position == w.transfers[conn].position + k <= |row.file|
  {
    var t := w.transfers[conn];
    SliceParts(t.unflushed, whole, t.position, k);
    WrittenIsPrefix(w.row.file, t.position, t.unflushed[..k], whole);
  }

  lemma MaybeFinishedKeeps(w: World, conn: nat, whole: Bytes)
    requires Inv(w, whole) && conn in w.transfers
    ensures Inv(MaybeFinished(w, conn), whole)
  {
    FlushKeeps(w, conn, |w.transfers[conn].unflushed|, whole);
  }

  lemma PatchKeeps(w: World, e: Event, whole: Bytes)
    requires Inv(w, whole) && e.Patch? && Possible(w, e) && Honest(w, e, whole)
    ensures InPlace(w) && Inv(Happens(w, e), whole)
  {
    if PatchRefused(w.row, e.uid, e.member, e.offset, e.length).None? {
      var t := Started(w.row, e.length, e.head);
      assert TransferOk(t, w.row, whole);
      MaybeFinishedKeeps(w.(transfers := w.transfers[e.conn := t]), e.conn, whole);
    }
  }

  lemma ChunkKeeps(w: World, conn: nat, data: Bytes, whole: Bytes)
    requires Inv(w, whole) && Possible(w, Chunk(conn, data)) && Honest(w, Chunk(conn, data), whole)
    ensures InPlace(w) && Inv(Happens(w, Chunk(conn, data)), whole)
  {
    var t := w.transfers[conn];
    SliceJoins(t.unflushed, data, whole, t.position);
    var next := t.(unflushed := t.unflushed + data, remain := t.remain - |data|);
    assert TransferOk(next, w.row, whole);
    MaybeFinishedKeeps(w.(transfers := w.transfers[conn := next]), conn, whole);
  }

  lemma HappensKeeps(w: World, e: Event, whole: Bytes)
    requires Inv(w, whole) && Possible(w, e) && Honest(w, e, whole)
    ensures InPlace(w) && Inv(Happens(w, e), whole) && w.row.file <= Happens(w, e).row.file
  {
    match e {
      case Patch(conn, _, _, _, length, head) =>
        PatchKeeps(w, e, whole);
        FileGrows(w, e, whole);
      case Chunk(conn, data) =>
        ChunkKeeps(w, conn, data, whole);
        FileGrows(w, e, whole);
      case Flush(conn, k) =>
        FlushKeeps(w, conn, k, whole);
        FileGrows(w, e, whole);
      case Close(conn, k) =>
        FlushKeeps(w, conn, k, whole);
        FileGrows(w, e, whole);
      case Complete(uid, member) =>
    }
  }

  lemma PrefixesNest(a: Bytes, b: Bytes, whole: Bytes)
    requires a <= whole && b <= whole && |a| <= |b|
    ensures a <= b
  {
  }

  // No byte once in the file is lost.
  lemma FileGrows(w: World, e: Event, whole: Bytes)
    requires Inv(w, whole) && InPlace(w) && Possible(w, e) && Inv(Happens(w, e), whole)
    ensures w.row.file <= Happens(w, e).row.file
  {
    PrefixesNest(w.row.file, Happens(w, e).row.file, whole);
  }

  // ---- whole runs ----

  ghost predicate HonestRun(w: World, events: seq<Event>, whole: Bytes)
    decreases |events|
  {
    events == [] ||
    (InPlace(w) && Possible(w, events[0]) && Honest(w, events[0], whole) && HonestRun(Happens(w, events[0]), events[1..], whole))
  }

  ghost function Run(w: World, events: seq<Event>, whole: Bytes): World
    requires HonestRun(w, events, whole)
    decreases |events|
  {
    if events == [] then w else Run(Happens(w, events[0]), events[1..], whole)
  }

  // Over any run of interrupted and overlapping uploads the file stays a
  // prefix of the client's, never longer than declared, never losing a byte,
  // and it is ready only whole.
  lemma {:induction false} FileIsAlwaysAPrefix(w: World, events: seq<Event>, whole: Bytes)
    requires Inv(w, whole) && HonestRun(w, events, whole)
    ensures var r := Run(w, events, whole);
            Inv(r, whole) && w.row.file <= r.row.file <= whole && |r.row.file| <= r.row.expected && (!r.row.uploading ==> r.row.file == whole)
    decreases |events|
  {
    if events != [] {
      HappensKeeps(w, events[0], whole);
      FileIsAlwaysAPrefix(Happens(w, events[0]), events[1..], whole);
    }
  }

  // A fresh upload of a file of that size.
  lemma FreshIsOk(uploader: int, limit: int, whole: Bytes)
    requires whole != []
    ensures Inv(World(Row(true, uploader, |whole|, limit, [], |whole|), map[]), whole)
  {
  }

  // ---- and it can always be finished ----

  // The rest of the file in chunks from `at`.
  function Chunks(conn: nat, whole: Bytes, at: nat): seq<Event>
    requires at <= |whole|
    decreases |whole| - at
  {
    if at == |whole| then []
    else
      var n := Min(|whole| - at, PATCH_BUF_SIZE);
      [Chunk(conn, whole[at..at + n])] + Chunks(conn, whole, at + n)
  }

  lemma {:induction false} ChunksFinish(w: World, conn: nat, whole: Bytes, at: nat)
    requires Inv(w, whole) && conn in w.transfers && w.row.uploading
    requires var t := w.transfers[conn]; t.remain > 0 && t.position + |t.unflushed| == at && t.final == |whole|
    ensures HonestRun(w, Chunks(conn, whole, at), whole)
    ensures var r := Run(w, Chunks(conn, whole, at), whole);
            r.row == w.row.(file := whole) && r.transfers == w.transfers - {conn}
    decreases |whole| - at
  {
    var n := Min(|whole| - at, PATCH_BUF_SIZE);
    var data := whole[at..at + n];
    ChunkFits(w, conn, whole, at, data);
    if at + n == |whole| {
      LastChunk(w, conn, whole, at, data);
    } else {
      NextChunk(w, conn, whole, at, data);
      ChunksFinish(Happens(w, Chunk(conn, data)), conn, whole, at + n);
    }
    RunFirst(w, Chunk(conn, data), Chunks(conn, whole, at + n), whole);
  }

  // The chunk is the one expected.
  lemma ChunkFits(w: World, conn: nat, whole: Bytes, at: nat, data: Bytes)
    requires Inv(w, whole) && conn in w.transfers && w.row.uploading
    requires var t := w.transfers[conn]; t.remain > 0 && t.position + |t.unflushed| == at && t.final == |whole|
    requires at < |whole| && data == whole[at..at + Min(|whole| - at, PATCH_BUF_SIZE)]
    ensures InPlace(w) && Possible(w, Chunk(conn, data)) && Honest(w, Chunk(conn, data), whole)
    ensures w.transfers[conn].remain == |whole| - at
  {
    InvInPlace(w, whole);
    assert TransferOk(w.transfers[conn], w.row, whole);
  }

  // A chunk that is not the last is only buffered.
  lemma NextChunk(w: World, conn: nat, whole: Bytes, at: nat, data: Bytes)
    requires Inv(w, whole) && InPlace(w) && conn in w.transfers && Possible(w, Chunk(conn, data)) && Honest(w, Chunk(conn, data), whole)
    requires var t := w.transfers[conn]; t.position + |t.unflushed| == at && t.final == |whole| && t.remain > |data|
    ensures var r := Happens(w, Chunk(conn, data));
            && Inv(r, whole) && r.row == w.row && conn in r.transfers && r.transfers - {conn} == w.transfers - {conn}
            && var t := r.transfers[conn]; t.remain > 0 && t.position + |t.unflushed| == at + |data| && t.final == |whole|
  {
    ChunkKeeps(w, conn, data, whole);
    var t := w.transfers[conn];
    var next := t.(unflushed := t.unflushed + data, remain := t.remain - |data|);
    assert (w.transfers[conn := next]) - {conn} == w.transfers - {conn};
  }

  lemma RunFirst(w: World, e: Event, rest: seq<Event>, whole: Bytes)
    requires InPlace(w) && Possible(w, e) && Honest(w, e, whole) && HonestRun(Happens(w, e), rest, whole)
    ensures HonestRun(w, [e] + rest, whole) && Run(w, [e] + rest, whole) == Run(Happens(w, e), rest, whole)
  {
    assert ([e] + rest)[1..] == rest;
  }

  // The last chunk ends the transfer.
  lemma LastChunk(w: World, conn: nat, whole: Bytes, at: nat, data: Bytes)
    requires Inv(w, whole) && conn in w.transfers && w.row.uploading && at <= |whole| && data == whole[at..]
    requires var t := w.transfers[conn]; t.position + |t.unflushed| == at && t.final == |whole| && t.remain == |data| > 0
    requires Possible(w, Chunk(conn, data))
    ensures InPlace(w) && Happens(w, Chunk(conn, data)) == World(w.row.(file := whole), w.transfers - {conn})
  {
    var t := w.transfers[conn];
    SliceJoins(t.unflushed, data, whole, t.position);
    WrittenIsPrefix(w.row.file, t.position, t.unflushed + data, whole);
    assert (w.transfers[conn := t.(unflushed := t.unflushed + data, remain := 0)]) - {conn} == w.transfers - {conn};
  }

  // Whatever happened before, realigning by HEAD, sending the rest in one
  // uninterrupted PATCH and completing makes the whole file ready.
  lemma ResumeCompletes(w: World, conn: nat, whole: Bytes)
    requires Inv(w, whole) && w.row.uploading && conn !in w.transfers && (w.row.limit <= 0 || |whole| <= w.row.limit)
    ensures var offset := |w.row.file|;
            var events := [Patch(conn, w.row.uploader, true, Some(offset), |whole| - offset, [])] + Chunks(conn, whole, offset)
                          + [Complete(w.row.uploader, true)];
            HonestRun(w, events, whole) &&
            var r := Run(w, events, whole).row; !r.uploading && r.file == whole && r.size == |whole|
  {
    var offset := |w.row.file|;
    var p := Patch(conn, w.row.uploader, true, Some(offset), |whole| - offset, []);
    var c := Complete(w.row.uploader, true);
    InvInPlace(w, whole);
    RestArrives(w, conn, whole);
    var rest := Chunks(conn, whole, offset);
    RunThen(w, [p] + rest, c, whole);
  }

  // One uninterrupted PATCH from where HEAD says brings the rest.
  lemma RestArrives(w: World, conn: nat, whole: Bytes)
    requires Inv(w, whole) && w.row.uploading && conn !in w.transfers && (w.row.limit <= 0 || |whole| <= w.row.limit)
    ensures var offset := |w.row.file|;
            var events := [Patch(conn, w.row.uploader, true, Some(offset), |whole| - offset, [])] + Chunks(conn, whole, offset);
            HonestRun(w, events, whole) && Run(w, events, whole).row == w.row.(file := whole)
  {
    var offset := |w.row.file|;
    var p := Patch(conn, w.row.uploader, true, Some(offset), |whole| - offset, []);
    InvInPlace(w, whole);
    assert Slice([], whole, offset);
    PatchKeeps(w, p, whole);
    var events := [p] + Chunks(conn, whole, offset);
    assert events[0] == p && events[1..] == Chunks(conn, whole, offset);
    if offset < |whole| {
      ChunksFinish(Happens(w, p), conn, whole, offset);
    } else {
      assert Happens(w, p).row == w.row.(file := whole);
    }
  }

  lemma {:induction false} RunThen(w: World, events: seq<Event>, last: Event, whole: Bytes)
    requires Inv(w, whole) && HonestRun(w, events, whole) && last.Complete?
    ensures HonestRun(w, events + [last], whole) && InPlace(Run(w, events, whole))
    ensures Run(w, events + [last], whole) == Happens(Run(w, events, whole), last)
    decreases |events|
  {
    InvInPlace(w, whole);
    if events == [] {
      assert [last][1..] == [];
    } else {
      HappensKeeps(w, events[0], whole);
      assert (events + [last])[1..] == events[1..] + [last];
      RunThen(Happens(w, events[0]), events[1..], last, whole);
    }
  }
}
