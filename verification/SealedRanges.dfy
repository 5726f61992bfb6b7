// Ranges of an encrypted attachment
// (electron-client/electron/main/attachmentCrypto.ts, attachmentFetch.ts): a
// plaintext range becomes a range of whole sealed chunks, fetched, opened,
// joined and trimmed.
module SealedRanges {
  import opened Options
  import opened Decimal
  import opened RangeHeaders

  const TAG_BYTES: nat := 16

  type Bytes = seq<bv8>

  // Authenticated encryption under one key: chunk index and bytes.
  datatype Aead = Aead(seal: (nat, Bytes) -> Bytes, open: (nat, Bytes) -> Option<Bytes>)

  ghost predicate Genuine(a: Aead)
  {
    forall i: nat, p: Bytes :: |a.seal(i, p)| == |p| + TAG_BYTES && a.open(i, a.seal(i, p)) == Some(p)
  }

  // ---- sizes ----

  // Products and quotients go through these names.
  function Times(i: nat, c: nat): nat { i * c }

  function Quotient(x: nat, c: nat): nat
    requires c > 0
  {
    x / c
  }

  lemma TimesNext(i: nat, c: nat)
    ensures Times(i + 1, c) == Times(i, c) + c
  {
  }

  lemma TimesZero(c: nat)
    ensures Times(0, c) == 0
  {
  }

  lemma TimesSum(i: nat, c: nat, d: nat)
    ensures Times(i, c + d) == Times(i, c) + Times(i, d)
  {
  }

  lemma {:induction false} TimesGrows(i: nat, j: nat, c: nat)
    requires i <= j
    ensures Times(i, c) <= Times(j, c) && Times(j, c) == Times(i, c) + Times(j - i, c)
    decreases j
  {
    if i < j {
      TimesGrows(i, j - 1, c);
      TimesNext(j - 1, c);
      TimesNext(j - 1 - i, c);
    } else {
      TimesZero(c);
    }
  }

  lemma QuotientBounds(x: nat, c: nat)
    requires c > 0
    ensures Times(Quotient(x, c), c) <= x < Times(Quotient(x, c), c) + c
  {
    assert x == c * (x / c) + x % c;
  }

  // Below means earlier.
  lemma TimesOrders(i: nat, j: nat, c: nat)
    requires Times(i, c) < Times(j, c)
    ensures i < j
  {
    if j <= i { TimesGrows(j, i, c); }
  }

  function ChunkCount(size: nat, c: nat): nat
    requires c > 0
  {
    if size == 0 then 0 else Quotient(size + c - 1, c)
  }

  function CiphertextSize(size: nat, c: nat): nat
    requires c > 0
  {
    size + Times(ChunkCount(size, c), TAG_BYTES)
  }

  // The last chunk ends the plaintext.
  lemma CountCovers(size: nat, c: nat)
    requires c > 0 && size > 0
    ensures var n := ChunkCount(size, c); n > 0 && Times(n - 1, c) < size <= Times(n, c)
  {
    QuotientBounds(size + c - 1, c);
    TimesZero(c);
    var n := ChunkCount(size, c);
    if n > 0 { TimesNext(n - 1, c); }
  }

  // ---- the sealed file ----

  function PlainEnd(size: nat, c: nat, i: nat): nat { if Times(i + 1, c) < size then Times(i + 1, c) else size }

  // Plaintext chunk `i`, the last one short.
  function Piece(plain: Bytes, c: nat, i: nat): Bytes
  {
    if Times(i, c) <= PlainEnd(|plain|, c, i) then plain[Times(i, c)..PlainEnd(|plain|, c, i)] else []
  }

  // The first n sealed chunks.
  function Sealed(a: Aead, plain: Bytes, c: nat, n: nat): Bytes
  {
    if n == 0 then [] else Sealed(a, plain, c, n - 1) + a.seal(n - 1, Piece(plain, c, n - 1))
  }

  function SealedFile(a: Aead, plain: Bytes, c: nat): Bytes
    requires c > 0
  {
    Sealed(a, plain, c, ChunkCount(|plain|, c))
  }

  lemma {:induction false} SealedLength(a: Aead, plain: Bytes, c: nat, n: nat)
    requires Genuine(a) && c > 0 && n <= ChunkCount(|plain|, c)
    ensures |Sealed(a, plain, c, n)| == (if n < ChunkCount(|plain|, c) then Times(n, c) else |plain|) + Times(n, TAG_BYTES)
    ensures n < ChunkCount(|plain|, c) ==> Times(n, c) < |plain|
  {
    TimesZero(c);
    TimesZero(TAG_BYTES);
    if |plain| > 0 { CountCovers(|plain|, c); }
    if n < ChunkCount(|plain|, c) { TimesGrows(n, ChunkCount(|plain|, c) - 1, c); }
    if n > 0 {
      SealedLength(a, plain, c, n - 1);
      TimesNext(n - 1, TAG_BYTES);
      PieceLength(plain, c, n - 1);
    }
  }

  lemma PieceLength(plain: Bytes, c: nat, i: nat)
    requires c > 0 && i < ChunkCount(|plain|, c)
    ensures Times(i, c) + |Piece(plain, c, i)| == if i + 1 < ChunkCount(|plain|, c) then Times(i + 1, c) else |plain|
    ensures |Piece(plain, c, i)| > 0
  {
    CountCovers(|plain|, c);
    var n := ChunkCount(|plain|, c);
    TimesGrows(i, n - 1, c);
    TimesNext(i, c);
    if i + 1 < n { TimesGrows(i + 1, n - 1, c); }
  }

  lemma {:induction false} SealedPrefix(a: Aead, plain: Bytes, c: nat, m: nat, n: nat)
    requires m <= n
    ensures Sealed(a, plain, c, m) <= Sealed(a, plain, c, n)
    decreases n
  {
    if m < n { SealedPrefix(a, plain, c, m, n - 1); }
  }

  // Where chunk `i` starts in the file, and how long it is.
  lemma SealedChunkAt(a: Aead, plain: Bytes, c: nat, i: nat)
    requires Genuine(a) && c > 0 && i < ChunkCount(|plain|, c)
    ensures var s, piece := Times(i, c + TAG_BYTES), a.seal(i, Piece(plain, c, i));
            && s == |Sealed(a, plain, c, i)| && s + |piece| == |Sealed(a, plain, c, i + 1)| <= |SealedFile(a, plain, c)|
            && SealedFile(a, plain, c)[s..s + |piece|] == piece
            && |SealedFile(a, plain, c)| == CiphertextSize(|plain|, c)
            && |piece| == Min(c + TAG_BYTES, CiphertextSize(|plain|, c) - s) && |piece| > TAG_BYTES
  {
    var n := ChunkCount(|plain|, c);
    TimesSum(i, c, TAG_BYTES);
    SealedLength(a, plain, c, i);
    SealedLength(a, plain, c, i + 1);
    SealedLength(a, plain, c, n);
    SealedPrefix(a, plain, c, i + 1, n);
    PieceLength(plain, c, i);
    TimesNext(i, c);
    TimesNext(i, TAG_BYTES);
    ChunkIsCut(a, plain, c, i);
  }

  lemma ChunkIsCut(a: Aead, plain: Bytes, c: nat, i: nat)
    requires Genuine(a) && c > 0 && i < ChunkCount(|plain|, c)
    requires Times(i, c + TAG_BYTES) == |Sealed(a, plain, c, i)| && Sealed(a, plain, c, i + 1) <= SealedFile(a, plain, c)
    ensures var s, piece := Times(i, c + TAG_BYTES), a.seal(i, Piece(plain, c, i));
            s + |piece| == |Sealed(a, plain, c, i + 1)| && SealedFile(a, plain, c)[s..s + |piece|] == piece
  {
    var s, piece := Times(i, c + TAG_BYTES), a.seal(i, Piece(plain, c, i));
    var upTo := Sealed(a, plain, c, i + 1);
    assert upTo == Sealed(a, plain, c, i) + piece;
    assert SealedFile(a, plain, c)[s..s + |piece|] == upTo[s..s + |piece|] == piece;
  }

  // ---- the plan ----

  datatype Plan = Plan(firstChunk: nat, lastChunk: nat, upstream: Option<string>, trimStart: nat, trimEnd: nat, plainStart: nat, plainEnd: nat)

  predicate InSize(range: Option<Range>, size: nat) { range.Some? ==> 0 <= range.value.start <= range.value.end < size }

  // The first and last ciphertext bytes of chunks firstChunk..lastChunk.
  function CiphertextRange(first: nat, last: nat, size: nat, c: nat): (r: Range)
    requires c > 0
  {
    Range(Times(first, c + TAG_BYTES), Min(Times(last + 1, c + TAG_BYTES), CiphertextSize(size, c)) - 1)
  }

  lemma QuotientStart(x: nat, c: nat)
    requires c > 0
    ensures Times(Quotient(x, c), c) <= x
  {
    QuotientBounds(x, c);
  }

  lemma QuotientGrows(x: nat, y: nat, c: nat)
    requires c > 0 && x <= y
    ensures Quotient(x, c) <= Quotient(y, c)
  {
    QuotientBounds(x, c);
    QuotientBounds(y, c);
    if Quotient(y, c) < Quotient(x, c) {
      TimesGrows(Quotient(y, c) + 1, Quotient(x, c), c);
      TimesNext(Quotient(y, c), c);
    }
  }

  // planRange
  function PlanRange(size: nat, c: nat, range: Option<Range>): Plan
    requires c > 0 && InSize(range, size)
  {
    var plainStart: nat := if range.Some? then range.value.start else 0;
    var plainEnd: nat := if range.Some? then range.value.end else Max(0, size - 1);
    var first, last := Quotient(plainStart, c), Quotient(plainEnd, c);
    QuotientStart(plainStart, c);
    QuotientGrows(plainStart, plainEnd, c);
    QuotientStart(plainEnd, c);
    TimesGrows(first, last, c);
    var ct := CiphertextRange(first, last, size, c);
    Plan(first, last,
         if size == 0 then None else Some("bytes=" + ToString(ct.start) + "-" + ToString(ct.end)),
         plainStart - Times(first, c), plainEnd - Times(first, c) + 1, plainStart, plainEnd)
  }

  // The chunks of a plan lie in the file and cover the range.
  lemma PlanCovers(size: nat, c: nat, range: Option<Range>)
    requires c > 0 && size > 0 && InSize(range, size)
    ensures var p := PlanRange(size, c, range);
            && p.firstChunk <= p.lastChunk < ChunkCount(size, c)
            && Times(p.firstChunk, c) <= p.plainStart <= p.plainEnd < Times(p.lastChunk + 1, c) && p.plainEnd < size
  {
    var p := PlanRange(size, c, range);
    QuotientBounds(p.plainStart, c);
    QuotientBounds(p.plainEnd, c);
    QuotientGrows(p.plainStart, p.plainEnd, c);
    TimesNext(p.lastChunk, c);
    CountCovers(size, c);
    TimesOrders(p.lastChunk, ChunkCount(size, c), c);
  }

  // ---- opening what came ----

  // Buffer.subarray clamps to the buffer.
  function Sub(s: Bytes, from: nat, to: nat): Bytes
  {
    if from <= Min(to, |s|) then s[from..Min(to, |s|)] else []
  }

  // Chunks i..last opened from `off` on and joined; None: short or forged.
  function Opened(a: Aead, sealed: Bytes, i: nat, last: nat, off: nat, ctTotal: nat, c: nat): Option<Bytes>
    decreases last + 1 - i
  {
    if i > last then Some([])
    else
      var len := Min(c + TAG_BYTES, ctTotal - Times(i, c + TAG_BYTES));
      if len <= TAG_BYTES || off + len > |sealed| then None
      else
        var p := a.open(i, sealed[off..off + len]);
        if p.None? then None
        else
          var rest := Opened(a, sealed, i + 1, last, off + len, ctTotal, c);
          if rest.None? then None else Some(p.value + rest.value)
  }

  method OpenChunks(a: Aead, sealed: Bytes, first: nat, last: nat, ctTotal: nat, c: nat) returns (r: Option<Bytes>)
    requires first <= last
    ensures r == Opened(a, sealed, first, last, 0, ctTotal, c)
  {
    var plain: Bytes, off, i := [], 0, first;
    ghost var whole := Opened(a, sealed, first, last, 0, ctTotal, c);
    assert whole.Some? ==> [] + whole.value == whole.value;
    while i <= last
      invariant first <= i <= last + 1 && 0 <= off
      invariant var rest := Opened(a, sealed, i, last, off, ctTotal, c);
                whole == if rest.None? then None else Some(plain + rest.value)
    {
      var len := Min(c + TAG_BYTES, ctTotal - Times(i, c + TAG_BYTES));
      if len <= TAG_BYTES || off + len > |sealed| { return None; }
      var p := a.open(i, sealed[off..off + len]);
      if p.None? { return None; }
      ghost var rest := Opened(a, sealed, i + 1, last, off + len, ctTotal, c);
      assert rest.Some? ==> plain + (p.value + rest.value) == plain + p.value + rest.value;
      plain := plain + p.value;
      off := off + len;
      i := i + 1;
    }
    assert plain + [] == plain;
    r := Some(plain);
  }

  // The file's bytes of chunks first..last.
  ghost predicate Covering(sealed: Bytes, a: Aead, plain: Bytes, c: nat, first: nat, last: nat)
    requires c > 0
  {
    var s, e := Times(first, c + TAG_BYTES), |Sealed(a, plain, c, last + 1)|;
    s <= e <= |SealedFile(a, plain, c)| && sealed == SealedFile(a, plain, c)[s..e]
  }

  lemma SliceOfSlice(file: Bytes, s: nat, e: nat, from: nat, to: nat)
    requires s <= from <= to <= e <= |file|
    ensures file[s..e][from - s..to - s] == file[from..to]
  {
    var x, y := file[s..e][from - s..to - s], file[from..to];
    assert |x| == |y| && forall k :: 0 <= k < |x| ==> x[k] == y[k];
  }

  lemma ChunkSlice(a: Aead, plain: Bytes, c: nat, i: nat, from: nat, to: nat)
    requires Genuine(a) && c > 0 && i < ChunkCount(|plain|, c)
    requires from == Times(i, c + TAG_BYTES) && to == |Sealed(a, plain, c, i + 1)|
    ensures from <= to <= |SealedFile(a, plain, c)| && SealedFile(a, plain, c)[from..to] == a.seal(i, Piece(plain, c, i))
    ensures to - from == Min(c + TAG_BYTES, CiphertextSize(|plain|, c) - from) > TAG_BYTES
  {
    SealedChunkAt(a, plain, c, i);
  }

  // Chunk `i` in the file, between the covering chunks' ends.
  lemma ChunkPlace(a: Aead, plain: Bytes, c: nat, first: nat, i: nat, last: nat) returns (s: nat, from: nat, to: nat, e: nat)
    requires Genuine(a) && c > 0 && first <= i <= last < ChunkCount(|plain|, c)
    ensures s == Times(first, c + TAG_BYTES) && e == |Sealed(a, plain, c, last + 1)|
    ensures from == Times(i, c + TAG_BYTES) && to == |Sealed(a, plain, c, i + 1)|
    ensures s <= from <= to <= e <= |SealedFile(a, plain, c)|
    ensures SealedFile(a, plain, c)[from..to] == a.seal(i, Piece(plain, c, i))
    ensures to - from == Min(c + TAG_BYTES, CiphertextSize(|plain|, c) - from) > TAG_BYTES
  {
    s, from, to, e := Times(first, c + TAG_BYTES), Times(i, c + TAG_BYTES), |Sealed(a, plain, c, i + 1)|, |Sealed(a, plain, c, last + 1)|;
    TimesGrows(first, i, c + TAG_BYTES);
    ChunkSlice(a, plain, c, i, from, to);
    SealedEnds(a, plain, c, i + 1, last + 1);
  }

  lemma SealedEnds(a: Aead, plain: Bytes, c: nat, m: nat, n: nat)
    requires c > 0 && m <= n <= ChunkCount(|plain|, c)
    ensures |Sealed(a, plain, c, m)| <= |Sealed(a, plain, c, n)| <= |SealedFile(a, plain, c)|
  {
    SealedPrefix(a, plain, c, m, n);
    SealedPrefix(a, plain, c, n, ChunkCount(|plain|, c));
  }

  // And as the client cuts it from what came.
  lemma CutChunk(a: Aead, plain: Bytes, c: nat, sealed: Bytes, first: nat, i: nat, last: nat)
    requires Genuine(a) && c > 0 && first <= i <= last < ChunkCount(|plain|, c) && Covering(sealed, a, plain, c, first, last)
    ensures var off, len := Times(i, c + TAG_BYTES) - Times(first, c + TAG_BYTES), Min(c + TAG_BYTES,
          CiphertextSize(|plain|, c) - Times(i, c + TAG_BYTES));
            && 0 <= off && len > TAG_BYTES && off + len <= |sealed| && sealed[off..off + len] == a.seal(i, Piece(plain, c, i))
            && Times(i, c + TAG_BYTES) + len == |Sealed(a, plain, c, i + 1)|
  {
    var s, from, to, e := ChunkPlace(a, plain, c, first, i, last);
    CutFrom(SealedFile(a, plain, c), s, e, sealed, from, to);
  }

  lemma CutFrom(file: Bytes, s: nat, e: nat, part: Bytes, from: nat, to: nat)
    requires s <= from <= to <= e <= |file| && part == file[s..e]
    ensures to - s <= |part| && part[from - s..to - s] == file[from..to]
  {
    SliceOfSlice(file, s, e, from, to);
  }

  lemma NextStart(a: Aead, plain: Bytes, c: nat, i: nat)
    requires Genuine(a) && c > 0 && i + 1 < ChunkCount(|plain|, c)
    ensures |Sealed(a, plain, c, i + 1)| == Times(i + 1, c + TAG_BYTES)
  {
    SealedLength(a, plain, c, i + 1);
    TimesSum(i + 1, c, TAG_BYTES);
  }

  lemma Joined(plain: Bytes, from: nat, mid: nat, to: nat)
    requires from <= mid <= to <= |plain|
    ensures plain[from..mid] + plain[mid..to] == plain[from..to]
  {
  }

  // Opened and joined, the chunks are that stretch of the plaintext.
  lemma {:induction false} OpenedIsPlain(a: Aead, plain: Bytes, c: nat, sealed: Bytes, first: nat, i: nat, last: nat)
    requires Genuine(a) && c > 0 && first <= i <= last < ChunkCount(|plain|, c) && Covering(sealed, a, plain, c, first, last)
    ensures Times(first, c + TAG_BYTES) <= Times(i, c + TAG_BYTES)
    ensures Times(i, c) <= PlainEnd(|plain|, c, last)
    ensures Opened(a, sealed, i, last, Times(i, c + TAG_BYTES) - Times(first, c + TAG_BYTES), CiphertextSize(|plain|, c), c) ==
            Some(plain[Times(i, c)..PlainEnd(|plain|, c, last)])
    decreases last - i
  {
    if i < last {
      var off, len := CutBetween(a, plain, c, sealed, first, i, last);
      OpenedIsPlain(a, plain, c, sealed, first, i + 1, last);
      OpenStep(a, sealed, i, last, off, len, CiphertextSize(|plain|, c), c, plain, Times(i, c), Times(i + 1, c), PlainEnd(|plain|, c, last));
    } else {
      var off, len := CutAt(a, plain, c, sealed, first, i, last);
      PieceEnds(plain, c, i);
      OpenLast(a, sealed, i, off, len, CiphertextSize(|plain|, c), c, Piece(plain, c, i));
    }
  }

  lemma CutAt(a: Aead, plain: Bytes, c: nat, sealed: Bytes, first: nat, i: nat, last: nat) returns (off: nat, len: nat)
    requires Genuine(a) && c > 0 && first <= i <= last < ChunkCount(|plain|, c) && Covering(sealed, a, plain, c, first, last)
    ensures off == Times(i, c + TAG_BYTES) - Times(first, c + TAG_BYTES)
    ensures len == Min(c + TAG_BYTES, CiphertextSize(|plain|, c) - Times(i, c + TAG_BYTES)) > TAG_BYTES
    ensures off + len <= |sealed| && sealed[off..off + len] == a.seal(i, Piece(plain, c, i))
    ensures off + len == |Sealed(a, plain, c, i + 1)| - Times(first, c + TAG_BYTES)
  {
    CutChunk(a, plain, c, sealed, first, i, last);
    off := Times(i, c + TAG_BYTES) - Times(first, c + TAG_BYTES);
    len := Min(c + TAG_BYTES, CiphertextSize(|plain|, c) - Times(i, c + TAG_BYTES));
  }

  // A chunk that is not the last, and where the next one starts.
  lemma CutBetween(a: Aead, plain: Bytes, c: nat, sealed: Bytes, first: nat, i: nat, last: nat) returns (off: nat, len: nat)
    requires Genuine(a) && c > 0 && first <= i < last < ChunkCount(|plain|, c) && Covering(sealed, a, plain, c, first, last)
    ensures off == Times(i, c + TAG_BYTES) - Times(first, c + TAG_BYTES)
    ensures off + len == Times(i + 1, c + TAG_BYTES) - Times(first, c + TAG_BYTES)
    ensures len == Min(c + TAG_BYTES, CiphertextSize(|plain|, c) - Times(i, c + TAG_BYTES)) > TAG_BYTES
    ensures Times(i, c) <= Times(i + 1, c) <= |plain| && off + len <= |sealed|
    ensures sealed[off..off + len] == a.seal(i, plain[Times(i, c)..Times(i + 1, c)])
  {
    off, len := CutAt(a, plain, c, sealed, first, i, last);
    PieceEnds(plain, c, i);
    NextStart(a, plain, c, i);
  }

  // One chunk opened, before what the rest gives.
  lemma OpenStep(a: Aead, sealed: Bytes, i: nat, last: nat, off: nat, len: nat, total: nat, c: nat, plain: Bytes, from: nat, mid: nat, to: nat)
    requires Genuine(a) && i <= last && len == Min(c + TAG_BYTES, total - Times(i, c + TAG_BYTES)) > TAG_BYTES
    requires from <= mid <= to <= |plain| && off + len <= |sealed| && sealed[off..off + len] == a.seal(i, plain[from..mid])
    requires Opened(a, sealed, i + 1, last, off + len, total, c) == Some(plain[mid..to])
    ensures Opened(a, sealed, i, last, off, total, c) == Some(plain[from..to])
  {
    Joined(plain, from, mid, to);
  }

  lemma OpenLast(a: Aead, sealed: Bytes, i: nat, off: nat, len: nat, total: nat, c: nat, piece: Bytes)
    requires Genuine(a) && len == Min(c + TAG_BYTES, total - Times(i, c + TAG_BYTES)) > TAG_BYTES
    requires off + len <= |sealed| && sealed[off..off + len] == a.seal(i, piece)
    ensures Opened(a, sealed, i, i, off, total, c) == Some(piece)
  {
    assert Opened(a, sealed, i + 1, i, off + len, total, c) == Some([]);
    assert piece + [] == piece;
  }

  lemma PieceEnds(plain: Bytes, c: nat, i: nat)
    requires c > 0 && i < ChunkCount(|plain|, c)
    ensures Times(i, c) <= PlainEnd(|plain|, c, i) && Piece(plain, c, i) == plain[Times(i, c)..PlainEnd(|plain|, c, i)]
    ensures i + 1 < ChunkCount(|plain|, c) ==> PlainEnd(|plain|, c, i) == Times(i + 1, c)
  {
    PieceLength(plain, c, i);
    if i + 1 < ChunkCount(|plain|, c) {
      CountCovers(|plain|, c);
      TimesGrows(i + 1, ChunkCount(|plain|, c) - 1, c);
    }
  }

  // ---- end to end ----

  // Where the last chunk ends in the file.
  lemma ChunkEnd(a: Aead, plain: Bytes, c: nat, i: nat)
    requires Genuine(a) && c > 0 && i < ChunkCount(|plain|, c)
    ensures |Sealed(a, plain, c, i + 1)| == Min(Times(i + 1, c + TAG_BYTES), CiphertextSize(|plain|, c)) <= |SealedFile(a, plain, c)|
    ensures |SealedFile(a, plain, c)| == CiphertextSize(|plain|, c) && Times(i, c + TAG_BYTES) < |Sealed(a, plain, c, i + 1)|
  {
    SealedChunkAt(a, plain, c, i);
    TimesNext(i, c + TAG_BYTES);
  }

  // The ciphertext range asked for is the chunks' place in the file.
  lemma PlanIsCovering(a: Aead, plain: Bytes, c: nat, range: Option<Range>)
    requires Genuine(a) && c > 0 && plain != [] && InSize(range, |plain|)
    ensures var p := PlanRange(|plain|, c, range);
            var ct := CiphertextRange(p.firstChunk, p.lastChunk, |plain|, c);
            && p.firstChunk <= p.lastChunk < ChunkCount(|plain|, c)
            && 0 <= ct.start <= ct.end < |SealedFile(a, plain, c)| == CiphertextSize(|plain|, c)
            && Covering(SealedFile(a, plain, c)[ct.start..ct.end + 1], a, plain, c, p.firstChunk, p.lastChunk)
  {
    var p := PlanRange(|plain|, c, range);
    PlanCovers(|plain|, c, range);
    RangeIsCovering(a, plain, c, p.firstChunk, p.lastChunk, CiphertextRange(p.firstChunk, p.lastChunk, |plain|, c));
  }

  lemma RangeIsCovering(a: Aead, plain: Bytes, c: nat, first: nat, last: nat, ct: Range)
    requires Genuine(a) && c > 0 && first <= last < ChunkCount(|plain|, c) && ct == CiphertextRange(first, last, |plain|, c)
    ensures 0 <= ct.start <= ct.end < |SealedFile(a, plain, c)| == CiphertextSize(|plain|, c)
    ensures Covering(SealedFile(a, plain, c)[ct.start..ct.end + 1], a, plain, c, first, last)
  {
    ChunkEnd(a, plain, c, last);
    TimesGrows(first, last, c + TAG_BYTES);
  }

  // The server accepts the range string and answers those bytes.
  lemma ServerServesThePlan(a: Aead, plain: Bytes, c: nat, range: Option<Range>)
    requires Genuine(a) && c > 0 && plain != [] && InSize(range, |plain|) && CiphertextSize(|plain|, c) <= INT64_MAX
    ensures var p := PlanRange(|plain|, c, range);
            && p.upstream.Some?
            && ServerReads(p.upstream.value, |SealedFile(a, plain, c)|) == Part(CiphertextRange(p.firstChunk, p.lastChunk, |plain|, c))
  {
    var p := PlanRange(|plain|, c, range);
    var ct := CiphertextRange(p.firstChunk, p.lastChunk, |plain|, c);
    PlanIsCovering(a, plain, c, range);
    assert p.upstream.value == Text(FirstLast(ct.start, ct.end));
    ServerReadsTheRange(FirstLast(ct.start, ct.end), |SealedFile(a, plain, c)|);
  }

  // From the covering chunks, the client makes exactly the plaintext range.
  lemma ClientTrimsToRange(a: Aead, plain: Bytes, c: nat, range: Option<Range>, p: Plan, sealed: Bytes, joined: Option<Bytes>)
    requires Genuine(a) && c > 0 && plain != [] && InSize(range, |plain|) && p == PlanRange(|plain|, c, range)
    requires p.lastChunk < ChunkCount(|plain|, c) && Covering(sealed, a, plain, c, p.firstChunk, p.lastChunk)
    requires joined == Opened(a, sealed, p.firstChunk, p.lastChunk, 0, CiphertextSize(|plain|, c), c)
    ensures joined.Some? && p.plainStart <= p.plainEnd < |plain|
    ensures Sub(joined.value, p.trimStart, p.trimEnd) == plain[p.plainStart..p.plainEnd + 1]
  {
    PlanCovers(|plain|, c, range);
    OpenedIsPlain(a, plain, c, sealed, p.firstChunk, p.firstChunk, p.lastChunk);
    TrimPlan(plain, c, range, p, Times(p.firstChunk, c), PlainEnd(|plain|, c, p.lastChunk));
  }

  lemma TrimPlan(plain: Bytes, c: nat, range: Option<Range>, p: Plan, s: nat, e: nat)
    requires c > 0 && plain != [] && InSize(range, |plain|) && p == PlanRange(|plain|, c, range)
    requires s == Times(p.firstChunk, c) && e == PlainEnd(|plain|, c, p.lastChunk) && s <= e
    ensures p.plainStart <= p.plainEnd < |plain|
    ensures Sub(plain[s..e], p.trimStart, p.trimEnd) == plain[p.plainStart..p.plainEnd + 1]
  {
    PlanCovers(|plain|, c, range);
    Trimmed(plain, s, e, p.plainStart, p.plainEnd + 1);
  }

  lemma Trimmed(plain: Bytes, s: nat, e: nat, from: nat, to: nat)
    requires s <= from <= to <= e <= |plain|
    ensures Sub(plain[s..e], from - s, to - s) == plain[from..to]
  {
    SliceOfSlice(plain, s, e, from, to);
  }

  // ---- one request ----

  const MAX_RANGE_BYTES: nat := 4 * 1024 * 1024

  datatype Reply = Full(body: Bytes) | Partial(range: Range, total: nat, body: Bytes) | NotSatisfiable(total: nat) | Failed

  // A long range is answered with its beginning.
  function Capped(range: Option<Range>): Option<Range>
  {
    if range.Some? && range.value.end - range.value.start + 1 > MAX_RANGE_BYTES
    then Some(Range(range.value.start, range.value.start + MAX_RANGE_BYTES - 1)) else range
  }

  // What the upstream server answers: the part asked for, or, when it ignores
  // ranges, the whole file.
  method Upstream(file: Bytes, header: Option<string>, ignoresRanges: bool) returns (r: Option<(bool, Bytes)>)
    ensures r == if header.None? || ignoresRanges then Some((true, file))
                 else match ServerReads(header.value, |file|)
                   case Whole => Some((true, file))
                   case Refused => None
                   case Part(range) => if 0 <= range.start <= range.end < |file| then Some((false, file[range.start..range.end + 1])) else None
  {
    if header.None? || ignoresRanges { return Some((true, file)); }
    var serve := RangeBranch(header.value, |file|);
    match serve {
      case Whole => r := Some((true, file));
      case Refused => r := None;
      case Part(range) => r := if 0 <= range.start <= range.end < |file| then Some((false, file[range.start..range.end + 1])) else None;
    }
  }

  // What a request for the plaintext deserves.
  function Deserved(plain: Bytes, header: Option<string>): Reply
  {
    var range := Capped(ParseRange(header, |plain|));
    if header.Some? && header.value != "" && range.None? && plain != [] then NotSatisfiable(|plain|)
    else if range.Some? && 0 <= range.value.start <= range.value.end < |plain|
    then Partial(range.value, |plain|, plain[range.value.start..range.value.end + 1])
    else Full(plain)
  }

  // The answer to a request for the positions `x`: at most four mebibytes of
  // them.
  function Answer(plain: Bytes, x: Option<Range>): Reply
    requires x.Some? ==> 0 <= x.value.start <= x.value.end < |plain|
  {
    match x
    case Some(Range(from, to)) =>
      var end := Min(to, from + 4_194_303);
      Partial(Range(from, end), |plain|, plain[from..end + 1])
    case None => if plain == [] then Full([]) else NotSatisfiable(|plain|)
  }

  lemma AnswerTo(plain: Bytes, header: string, x: Option<Range>)
    requires header != "" && ParseRange(Some(header), |plain|) == x
    ensures x.Some? ==> 0 <= x.value.start <= x.value.end < |plain|
    ensures Deserved(plain, Some(header)) == Answer(plain, x)
  {
  }

  lemma TextParses(r: ByteRange, size: nat)
    ensures Text(r) != "" && ParseRange(Some(Text(r)), size) == Selects(r, size)
  {
    ClientReadsTheRange("", r, "", size);
    assert "" + Text(r) + "" == Text(r);
    assert Text(r)[0] == 'b';
  }

  // What the range request means, RFC 9110 read with that limit.
  function Wanted(plain: Bytes, r: ByteRange): Reply
  {
    SelectsInside(r, |plain|);
    Answer(plain, Selects(r, |plain|))
  }

  lemma SelectsInside(r: ByteRange, size: nat)
    ensures var x := Selects(r, size); x.Some? ==> 0 <= x.value.start <= x.value.end < size
  {
  }

  // Of the positions a range request selects, the first four mebibytes.
  lemma FirstFourMebibytes(plain: Bytes, r: ByteRange)
    ensures Deserved(plain, Some(Text(r))) == Wanted(plain, r)
  {
    TextParses(r, |plain|);
    AnswerTo(plain, Text(r), Selects(r, |plain|));
  }

  // A header that is no range request is refused.
  lemma NoRangeRefused(plain: Bytes, header: string)
    requires header != "" && forall a, b :: !RangeText(Trim(header), a, b)
    ensures Deserved(plain, Some(header)) == Answer(plain, None)
  {
    ParsesNothingElse(header, |plain|);
  }

  lemma WithoutRange(plain: Bytes, header: Option<string>)
    requires header.None? || header.value == ""
    ensures Deserved(plain, header) == Full(plain)
  {
  }

  // A client that asks on, from where the last answer ended, for what is
  // still missing of a range.
  function AskOn(plain: Bytes, first: nat, last: nat): (bodies: Bytes)
    requires first <= last < |plain|
    decreases last - first
  {
    var reply := Wanted(plain, FirstLast(first, last));
    if reply.range.end < last then reply.body + AskOn(plain, reply.range.end + 1, last) else reply.body
  }

  lemma AskOnce(plain: Bytes, first: nat, last: nat, end: nat)
    requires first <= last < |plain| && end == Min(last, first + 4_194_303)
    ensures AskOn(plain, first, last) == plain[first..end + 1] + if end < last then AskOn(plain, end + 1, last) else []
  {
  }

  lemma JoinedSlices(plain: Bytes, i: nat, j: nat, k: nat)
    requires i <= j <= k <= |plain|
    ensures plain[i..j] + plain[j..k] == plain[i..k]
  {
  }

  // It gets the whole of it, in order, nothing twice.
  lemma {:induction false} AskingOnGetsAll(plain: Bytes, first: nat, last: nat)
    requires first <= last < |plain|
    ensures AskOn(plain, first, last) == plain[first..last + 1]
    decreases last - first
  {
    var end := Min(last, first + 4_194_303);
    AskOnce(plain, first, last, end);
    if end < last { AskingOnGetsAll(plain, end + 1, last); }
    JoinedSlices(plain, first, end + 1, last + 1);
  }

  // The whole file cut at the chunks' ends is the range of it.
  lemma CutHere(file: Bytes, first: nat, last: nat, size: nat, c: nat)
    requires c > 0 && |file| == CiphertextSize(size, c)
    requires var ct := CiphertextRange(first, last, size, c); 0 <= ct.start <= ct.end < |file|
    ensures var ct := CiphertextRange(first, last, size, c);
            Sub(file, Times(first, c + TAG_BYTES), Min(|file|, Times(last + 1, c + TAG_BYTES))) == file[ct.start..ct.end + 1]
  {
  }

  // All the method below needs of the plan.
  lemma PlanServed(a: Aead, plain: Bytes, file: Bytes, c: nat, range: Option<Range>, plan: Plan) returns (ct: Range)
    requires Genuine(a) && c > 0 && plain != [] && file == SealedFile(a, plain, c) && CiphertextSize(|plain|, c) <= INT64_MAX
    requires InSize(range, |plain|) && plan == PlanRange(|plain|, c, range)
    ensures plan.upstream.Some? && ServerReads(plan.upstream.value, |file|) == Part(ct) && 0 <= ct.start <= ct.end < |file|
    ensures ct == CiphertextRange(plan.firstChunk, plan.lastChunk, |plain|, c) && |file| == CiphertextSize(|plain|, c)
    ensures plan.lastChunk < ChunkCount(|plain|, c) && Covering(file[ct.start..ct.end + 1], a, plain, c, plan.firstChunk, plan.lastChunk)
  {
    ct := CiphertextRange(plan.firstChunk, plan.lastChunk, |plain|, c);
    ServerServesThePlan(a, plain, c, range);
    PlanIsCovering(a, plain, c, range);
  }

  // Upstream ignored the Range: the covering chunks are cut here.
  method CutChunks(file: Bytes, first: nat, last: nat, c: nat, ghost size: nat, ghost ct: Range) returns (sealed: Bytes)
    requires c > 0 && |file| == CiphertextSize(size, c) && ct == CiphertextRange(first, last, size, c) && 0 <= ct.start <= ct.end < |file|
    ensures sealed == file[ct.start..ct.end + 1]
  {
    CutHere(file, first, last, size, c);
    sealed := Sub(file, Times(first, c + TAG_BYTES), Min(|file|, Times(last + 1, c + TAG_BYTES)));
  }

  // Either way the covering chunks arrive.
  method FetchChunks(a: Aead, ghost plain: Bytes, file: Bytes, c: nat, range: Option<Range>, plan: Plan,
        ignoresRanges: bool) returns (sealed: Option<Bytes>)
    requires Genuine(a) && c > 0 && plain != [] && file == SealedFile(a, plain, c) && CiphertextSize(|plain|, c) <= INT64_MAX
    requires InSize(range, |plain|) && plan == PlanRange(|plain|, c, range)
    ensures sealed.Some? && plan.lastChunk < ChunkCount(|plain|, c) && Covering(sealed.value, a, plain, c, plan.firstChunk, plan.lastChunk)
  {
    ghost var ct := PlanServed(a, plain, file, c, range, plan);
    var resp := Upstream(file, plan.upstream, ignoresRanges);
    if resp.None? { return None; }
    if resp.value.0 {
      var cut := CutChunks(resp.value.1, plan.firstChunk, plan.lastChunk, c, |plain|, ct);
      sealed := Some(cut);
    } else {
      sealed := Some(resp.value.1);
    }
  }

  method OpenRange(a: Aead, ghost plain: Bytes, size: nat, c: nat, range: Option<Range>, plan: Plan, sealed: Bytes) returns (body: Option<Bytes>)
    requires Genuine(a) && c > 0 && plain != [] && size == |plain| && InSize(range, |plain|) && plan == PlanRange(|plain|, c, range)
    requires plan.lastChunk < ChunkCount(|plain|, c) && Covering(sealed, a, plain, c, plan.firstChunk, plan.lastChunk)
    ensures plan.plainStart <= plan.plainEnd < |plain| && body == Some(plain[plan.plainStart..plan.plainEnd + 1])
  {
    PlanCovers(size, c, range);
    var joined := OpenChunks(a, sealed, plan.firstChunk, plan.lastChunk, CiphertextSize(size, c), c);
    ClientTrimsToRange(a, plain, c, range, plan, sealed, joined);
    if joined.None? { return None; }
    body := Some(Sub(joined.value, plan.trimStart, plan.trimEnd));
  }

  method FetchDeserved(a: Aead, ghost plain: Bytes, file: Bytes, size: nat, c: nat, header: Option<string>,
        ignoresRanges: bool) returns (reply: Reply)
    requires Genuine(a) && c > 0 && size == |plain| && file == SealedFile(a, plain, c) && CiphertextSize(size, c) <= INT64_MAX
    ensures reply == Deserved(plain, header)
  {
    var range := Capped(ParseRange(header, size));
    if header.Some? && header.value != "" && range.None? && size > 0 { return NotSatisfiable(size); }
    if size == 0 { return Full([]); }
    var plan := PlanRange(size, c, range);
    var sealed := FetchChunks(a, plain, file, c, range, plan, ignoresRanges);
    if sealed.None? { return Failed; }
    var body := OpenRange(a, plain, size, c, range, plan, sealed.value);
    if body.None? { return Failed; }
    if range.Some? { return Partial(Range(plan.plainStart, plan.plainEnd), size, body.value); }
    assert plain[0..|plain|] == plain;
    reply := Full(body.value);
  }

  // fetchDecryptedWith
  method FetchDecrypted(a: Aead, ghost plain: Bytes, file: Bytes, size: nat, c: nat, header: Option<string>,
        ignoresRanges: bool) returns (reply: Reply)
    requires Genuine(a) && c > 0 && size == |plain| && file == SealedFile(a, plain, c) && CiphertextSize(size, c) <= INT64_MAX
    ensures reply == Deserved(plain, header)
    ensures header.None? || header.value == "" ==> reply == Full(plain)
    ensures forall r: ByteRange :: header == Some(Text(r)) ==> reply == Wanted(plain, r)
  {
    reply := FetchDeserved(a, plain, file, size, c, header, ignoresRanges);
    forall r: ByteRange ensures Deserved(plain, Some(Text(r))) == Wanted(plain, r) { FirstFourMebibytes(plain, r); }
  }
}
