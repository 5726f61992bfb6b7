// Resumable upload (src/community/attachment_http.cpp): PATCH appends at the
// file's end, HEAD says where that is, and complete makes the file ready.
module Uploads {
  import opened Options
  import opened Decimal

  const PATCH_BUF_SIZE: nat := 256 * 1024

  type Bytes = seq<bv8>

  // The attachment's row and its file: the partial one until it is ready.
  datatype Row = Row(uploading: bool, uploader: int, expected: int, limit: int, file: Bytes, size: int)

  // A connection's upload in progress: where its stream stands in the file,
  // what the stream still buffers, and how much body is to come.
  datatype Transfer = Transfer(position: nat, unflushed: Bytes, remain: nat, final: int)

  datatype Reply = NoContent(offset: int) | Status(offset: int, length: int, ready: bool) | Done(size: int) | Refused(code: int)

  function Min(a: int, b: int): int { if a < b then a else b }

  // fwrite at `at`, which is not past the end.
  function Written(file: Bytes, at: nat, data: Bytes): Bytes
    requires at <= |file|
  {
    if at + |data| <= |file| then file[..at] + data + file[at + |data|..] else file[..at] + data
  }

  // `k` of the stream's buffered bytes reach the file.
  function Flushed(row: Row, t: Transfer, k: nat): (Row, Transfer)
    requires t.position <= |row.file| && k <= |t.unflushed|
  {
    (row.(file := Written(row.file, t.position, t.unflushed[..k])), t.(position := t.position + k, unflushed := t.unflushed[k..]))
  }

  // The checks of handle_patch before anything is opened; None: it passes.
  function PatchRefused(row: Row, uid: int, member: bool, offset: Option<int>, length: int): Option<int>
  {
    if !row.uploading then Some(409)
    else if row.uploader != uid || !member then Some(403)
    else if offset.None? || offset.value < 0 then Some(400)
    else if offset.value != |row.file| then Some(409)
    else if length < 0 then Some(411)
    else if row.expected > 0 && length > row.expected - offset.value then Some(413)
    else if row.limit > 0 && length > row.limit - offset.value then Some(413)
    else None
  }

  // The transfer that starts, with the body bytes that came with the head.
  function Started(row: Row, length: nat, head: Bytes): Transfer
  {
    var have := Min(|head|, length);
    Transfer(|row.file|, head[..have], length - have, |row.file| + length)
  }

  function CompleteRefused(row: Row, uid: int, member: bool): Option<int>
  {
    if !row.uploading then Some(409)
    else if row.uploader != uid || !member then Some(403)
    else if row.expected > 0 && |row.file| != row.expected then Some(409)
    else None
  }

  // ---- the objects ----

  class Upload {
    var uploading: bool
    const uploader: int
    const expected: int
    const limit: int
    var file: Bytes
    var size: int

    ghost function Value(): Row
      reads this
    {
      Row(uploading, uploader, expected, limit, file, size)
    }

    // handle_init leaves an empty partial file.
    constructor (uploader: int, expected: int, limit: int)
      ensures Value() == Row(true, uploader, expected, limit, [], expected)
    {
      uploading, this.uploader, this.expected, this.limit, file, size := true, uploader, expected, limit, [], expected;
    }

    // Where to go on: of all offsets it is the one PATCH takes from a member,
    // it is the declared size exactly when the upload can be completed, and a
    // file said to be ready takes neither.
    method HandleHead(uid: int, member: bool) returns (reply: Reply)
      ensures reply == Refused(403) <==> if uploading then uploader != uid else !member
      ensures reply != Refused(403) ==> reply.Status? && reply.ready == !uploading && reply.length == expected
      ensures reply.Status? && !reply.ready ==>
                (forall at: nat, length: int :: PatchRefused(Value(), uid, true, Some(at), length) == Some(409) <==> at != reply.offset)
                && (CompleteRefused(Value(), uid, true) == None <==> expected <= 0 || reply.offset == expected)
      ensures reply.Status? && reply.ready ==>
                reply.offset == size && CompleteRefused(Value(), uid, member) == Some(409)
                && forall at, length :: PatchRefused(Value(), uid, member, at, length) == Some(409)
    {
      if uploading && uploader != uid { return Refused(403); }
      if !uploading && !member { return Refused(403); }
      reply := Status(if uploading then |file| else size, expected, !uploading);
    }

    method HandleComplete(uid: int, member: bool) returns (reply: Reply)
      modifies `uploading, `size
      ensures var no := CompleteRefused(old(Value()), uid, member);
              if no.Some? then reply == Refused(no.value) && Value() == old(Value())
              else reply == Done(|file|) && Value() == old(Value()).(uploading := false, size := |file|)
    {
      if !uploading { return Refused(409); }
      if uploader != uid { return Refused(403); }
      if !member { return Refused(403); }
      var actual := |file|;
      if expected > 0 && actual != expected { return Refused(409); }
      uploading := false;
      size := actual;
      reply := Done(actual);
    }
  }

  class Connection {
    const upload: Upload
    var open: bool
    var position: nat
    var unflushed: Bytes
    var remain: nat
    var final: int

    ghost function Value(): Transfer
      reads this
    {
      Transfer(position, unflushed, remain, final)
    }

    constructor (upload: Upload)
      ensures this.upload == upload && !open
    {
      this.upload, open, position, unflushed, remain, final := upload, false, 0, [], 0, 0;
    }

    // handle_patch up to the first wait for body bytes.
    method HandlePatch(uid: int, member: bool, uploadOffset: string, contentLength: int, head: Bytes) returns (reply: Option<Reply>)
      modifies this, upload`file
      ensures var no := PatchRefused(old(upload.Value()), uid, member, Stoll(uploadOffset), contentLength);
              if no.Some? then reply == Some(Refused(no.value)) && upload.Value() == old(upload.Value())
                    && open == old(open) && Value() == old(Value())
              else
                var t := Started(old(upload.Value()), contentLength, head);
                if t.remain > 0 then reply == None && open && Value() == t && upload.Value() == old(upload.Value())
                else reply == Some(NoContent(t.final)) && !open && upload.Value() == Flushed(old(upload.Value()), t, |t.unflushed|).0
    {
      if !upload.uploading { return Some(Refused(409)); }
      if upload.uploader != uid { return Some(Refused(403)); }
      if !member { return Some(Refused(403)); }
      var parsed := Stoll(uploadOffset);
      if parsed.None? { return Some(Refused(400)); }
      var offset := parsed.value;
      if offset < 0 { return Some(Refused(400)); }
      if offset != |upload.file| { return Some(Refused(409)); }
      if contentLength < 0 { return Some(Refused(411)); }
      if upload.expected > 0 && contentLength > upload.expected - offset { return Some(Refused(413)); }
      if upload.limit > 0 && contentLength > upload.limit - offset { return Some(Refused(413)); }
      open, position, unflushed, final, remain := true, offset, [], offset + contentLength, contentLength;
      if |head| > 0 {
        var have := Min(|head|, remain);
        unflushed := head[..have];
        remain := remain - have;
      } else {
        assert head[..Min(|head|, contentLength)] == [];
      }
      if remain == 0 {
        var r := FinishPatch();
        return Some(r);
      }
      reply := None;
    }

    // One completed read of a chunk.
    method ReadChunk(data: Bytes) returns (reply: Option<Reply>)
      requires open && remain > 0 && |data| == Min(remain, PATCH_BUF_SIZE) && position <= |upload.file|
      modifies this, upload`file
      ensures var t := old(Value()).(unflushed := old(unflushed) + data, remain := old(remain) - |data|);
              if t.remain > 0 then reply == None && open && Value() == t && upload.Value() == old(upload.Value())
              else reply == Some(NoContent(t.final)) && !open && upload.Value() == Flushed(old(upload.Value()), t, |t.unflushed|).0
    {
      unflushed := unflushed + data;
      remain := remain - |data|;
      if remain == 0 {
        var r := FinishPatch();
        return Some(r);
      }
      reply := None;
    }

    method FinishPatch() returns (reply: Reply)
      requires open && position <= |upload.file|
      modifies this, upload`file
      ensures reply == NoContent(old(final)) && !open && upload.Value() == Flushed(old(upload.Value()), old(Value()), |old(unflushed)|).0
    {
      Flush(|unflushed|);
      open := false;
      reply := NoContent(final);
    }

    // The stream passes on as much of its buffer as it likes.
    method Flush(k: nat)
      requires open && position <= |upload.file| && k <= |unflushed|
      modifies this`position, this`unflushed, upload`file
      ensures (upload.Value(), Value()) == Flushed(old(upload.Value()), old(Value()), k)
    {
      upload.file := Written(upload.file, position, unflushed[..k]);
      position := position + k;
      unflushed := unflushed[k..];
    }

    // close_now: a disconnect or the deadline; closing the stream gets `k`
    // buffered bytes to the file.
    method Close(k: nat)
      requires open && position <= |upload.file| && k <= |unflushed|
      modifies this, upload`file
      ensures !open && upload.Value() == Flushed(old(upload.Value()), old(Value()), k).0
    {
      Flush(k);
      open := false;
    }
  }
}
