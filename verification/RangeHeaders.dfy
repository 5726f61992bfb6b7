// Range headers: how the client reads one against the plaintext
// (electron-client/electron/main/attachmentCrypto.ts), how the server reads
// one against the stored file (src/community/attachment_http.cpp), and what
// section 14.1.2 of RFC 9110 says one means.
module RangeHeaders {
  import opened Options
  import opened Decimal

  // Both ends included.
  datatype Range = Range(start: int, end: int)

  // A range request and its text.
  datatype ByteRange = FirstLast(first: nat, last: nat) | From(first: nat) | Suffix(length: nat)

  function Text(r: ByteRange): string
  {
    match r
    case FirstLast(a, b) => "bytes=" + ToString(a) + "-" + ToString(b)
    case From(a) => "bytes=" + ToString(a) + "-"
    case Suffix(n) => "bytes=" + "-" + ToString(n)
  }

  function Min(a: int, b: int): int { if a < b then a else b }
  function Max(a: int, b: int): int { if a < b then b else a }

  // The positions it selects of `size` bytes; None: not satisfiable, or not a
  // range at all.
  function Selects(r: ByteRange, size: nat): Option<Range>
  {
    match r
    case FirstLast(a, b) => if a <= b && a < size then Some(Range(a, Min(b, size - 1))) else None
    case From(a) => if a < size then Some(Range(a, size - 1)) else None
    case Suffix(n) => if n > 0 && size > 0 then Some(Range(Max(0, size - n), size - 1)) else None
  }

  // ---- the client ----

  // White space and line terminators of JavaScript's trim.
  predicate IsJsSpace(c: char)
  {
    '\t' <= c <= '\r' || c == ' ' || c == '\U{A0}' || c == '\U{1680}' || '\U{2000}' <= c <= '\U{200A}' || c == '\U{2028}' ||
    c == '\U{2029}' || c == '\U{202F}' || c == '\U{205F}' || c == '\U{3000}' || c == '\U{FEFF}'
  }

  function TrimLeft(s: string): string { if s != "" && IsJsSpace(s[0]) then TrimLeft(s[1..]) else s }

  function TrimRight(s: string): string { if s != "" && IsJsSpace(s[|s| - 1]) then TrimRight(s[..|s| - 1]) else s }

  function Trim(s: string): string { TrimRight(TrimLeft(s)) }

  // /^bytes=(\d*)-(\d*)$/
  function Groups(s: string): Option<(string, string)>
  {
    if "bytes=" <= s then
      var a := DigitPrefix(s[6..]);
      var rest := s[6 + |a|..];
      if rest != "" && rest[0] == '-' && AllDigits(rest[1..]) then Some((a, rest[1..])) else None
    else None
  }

  // parseRange
  function ParseRange(header: Option<string>, size: nat): (r: Option<Range>)
    ensures r.Some? ==> 0 <= r.value.start <= r.value.end < size
  {
    if header.None? || header.value == "" then None
    else
      var m := Groups(Trim(header.value));
      if m.None? then None
      else
        var (a, b) := m.value;
        if a == "" && b == "" then None
        else
          assert AllDigits(a) && AllDigits(b) by { GroupsAreDigits(Trim(header.value)); }
          var start := if a == "" then Max(0, size - Val(b)) else Val(a);
          var end := if a == "" || b == "" then size - 1 else Min(size - 1, Val(b));
          if start > end || start >= size then None else Some(Range(start, end))
  }

  lemma GroupsAreDigits(s: string)
    ensures Groups(s).Some? ==> AllDigits(Groups(s).value.0) && AllDigits(Groups(s).value.1)
  {
  }

  lemma {:induction false} TrimLeftSkips(pad: string, s: string)
    requires (forall i :: 0 <= i < |pad| ==> IsJsSpace(pad[i])) && s != "" && !IsJsSpace(s[0])
    ensures TrimLeft(pad + s) == s
  {
    if pad == "" {
      assert pad + s == s;
    } else {
      assert (pad + s)[1..] == pad[1..] + s;
      TrimLeftSkips(pad[1..], s);
    }
  }

  lemma {:induction false} TrimRightSkips(s: string, pad: string)
    requires (forall i :: 0 <= i < |pad| ==> IsJsSpace(pad[i])) && s != "" && !IsJsSpace(s[|s| - 1])
    ensures TrimRight(s + pad) == s
    decreases |pad|
  {
    if pad == "" {
      assert s + pad == s;
    } else {
      assert (s + pad)[..|s + pad| - 1] == s + pad[..|pad| - 1];
      TrimRightSkips(s, pad[..|pad| - 1]);
    }
  }

  lemma TrimSkips(before: string, s: string, after: string)
    requires forall i :: 0 <= i < |before| ==> IsJsSpace(before[i])
    requires forall i :: 0 <= i < |after| ==> IsJsSpace(after[i])
    requires s != "" && !IsJsSpace(s[0]) && !IsJsSpace(s[|s| - 1])
    ensures Trim(before + s + after) == s
  {
    assert before + s + after == before + (s + after);
    TrimLeftSkips(before, s + after);
    TrimRightSkips(s, after);
  }

  lemma GroupsOf(a: string, b: string)
    requires AllDigits(a) && AllDigits(b)
    ensures Groups("bytes=" + a + "-" + b) == Some((a, b))
  {
    var s := "bytes=" + a + "-" + b;
    DigitPrefixOfNumber(a, "-" + b);
    assert s[6..] == a + ("-" + b);
    assert s[6 + |a|..] == "-" + b;
  }

  lemma TrimmedGroups(before: string, a: string, b: string, after: string)
    requires forall i :: 0 <= i < |before| ==> IsJsSpace(before[i])
    requires forall i :: 0 <= i < |after| ==> IsJsSpace(after[i])
    requires AllDigits(a) && AllDigits(b)
    ensures Groups(Trim(before + ("bytes=" + a + "-" + b) + after)) == Some((a, b))
  {
    var s := "bytes=" + a + "-" + b;
    assert s[|s| - 1] == if b == "" then '-' else b[|b| - 1];
    TrimSkips(before, s, after);
    GroupsOf(a, b);
  }

  // The two numbers of a request's text.
  function FirstText(r: ByteRange): string { if r.Suffix? then "" else Digits(r.first) }

  function LastText(r: ByteRange): string { match r case FirstLast(_, b) => Digits(b) case From(_) => "" case Suffix(n) => Digits(n) }

  lemma TextParts(r: ByteRange)
    ensures Text(r) == "bytes=" + FirstText(r) + "-" + LastText(r)
    ensures AllDigits(FirstText(r)) && AllDigits(LastText(r)) && !(FirstText(r) == "" && LastText(r) == "")
    ensures FirstText(r) == "" <==> r.Suffix?
    ensures LastText(r) == "" <==> r.From?
    ensures Val(FirstText(r)) == if r.Suffix? then 0 else r.first
    ensures Val(LastText(r)) == match r case FirstLast(_, b) => b case From(_) => 0 case Suffix(n) => n
  {
    match r {
      case FirstLast(a, b) =>
        ValOfDigits(a);
        ValOfDigits(b);
      case From(a) => ValOfDigits(a);
      case Suffix(n) => ValOfDigits(n);
    }
  }

  // The client reads a range request, with white space around it, as RFC 9110
  // means it.
  lemma ClientReadsTheRange(before: string, r: ByteRange, after: string, size: nat)
    requires forall i :: 0 <= i < |before| ==> IsJsSpace(before[i])
    requires forall i :: 0 <= i < |after| ==> IsJsSpace(after[i])
    ensures ParseRange(Some(before + Text(r) + after), size) == Selects(r, size)
  {
    TextParts(r);
    TrimmedGroups(before, FirstText(r), LastText(r), after);
  }

  // Two numbers, one of them possibly left out.
  ghost predicate RangeText(s: string, a: string, b: string)
  {
    AllDigits(a) && AllDigits(b) && (a != "" || b != "") && s == "bytes=" + a + "-" + b
  }

  function FormOf(a: string, b: string): ByteRange
    requires AllDigits(a) && AllDigits(b)
  {
    if a == "" then Suffix(Val(b)) else if b == "" then From(Val(a)) else FirstLast(Val(a), Val(b))
  }

  lemma Parts(s: string, head: string, a: string, rest: string, b: string)
    requires head <= s && a <= s[|head|..] && rest == s[|head| + |a|..] && rest != "" && rest[0] == '-' && b == rest[1..]
    ensures s == head + a + "-" + b
  {
    assert s == s[..|head|] + s[|head|..];
    assert s[|head|..] == a + rest;
    assert rest == "-" + b;
  }

  lemma GroupsAreText(s: string)
    ensures Groups(s).Some? ==> s == "bytes=" + Groups(s).value.0 + "-" + Groups(s).value.1
  {
    if Groups(s).Some? {
      var a := DigitPrefix(s[6..]);
      Parts(s, "bytes=", a, s[6 + |a|..], s[6 + |a|..][1..]);
    }
  }

  // A header of this form, the digits with leading zeros or not, is read as
  // the range they say, and any other as none.
  lemma ParsesAs(header: string, a: string, b: string, size: nat)
    requires RangeText(Trim(header), a, b) && header != ""
    ensures ParseRange(Some(header), size) == Selects(FormOf(a, b), size)
  {
    GroupsOf(a, b);
  }

  lemma ParsesNothingElse(header: string, size: nat)
    requires forall a, b :: !RangeText(Trim(header), a, b)
    ensures ParseRange(Some(header), size) == None
  {
    GroupsAreText(Trim(header));
    GroupsAreDigits(Trim(header));
    if Groups(Trim(header)).Some? {
      var (a, b) := Groups(Trim(header)).value;
      assert !RangeText(Trim(header), a, b);
    }
  }

  // ---- the server ----

  datatype Serve = Whole | Refused | Part(range: Range)

  // string::find, |s| for npos
  function Find(s: string, c: char): (k: nat)
    ensures k <= |s| && (k < |s| ==> s[k] == c) && forall i :: 0 <= i < k ==> s[i] != c
  {
    if s == "" || s[0] == c then 0 else 1 + Find(s[1..], c)
  }

  function ServerReads(header: string, total: nat): Serve
  {
    if !("bytes=" <= header) then Whole
    else
      var r := header[6..];
      var dash := Find(r, '-');
      if dash == |r| then Refused
      else
        var start := if dash > 0 then Stoll(r[..dash]) else Some(0);
        var end := if dash + 1 < |r| then Stoll(r[dash + 1..]) else Some(total - 1);
        if start.None? || end.None? then Refused
        else if start.value < 0 || start.value >= total || end.value < start.value || end.value >= total then Refused
        else Part(Range(start.value, end.value))
  }

  // The Range branch of handle_get.
  method RangeBranch(header: string, total: nat) returns (serve: Serve)
    ensures serve == ServerReads(header, total)
  {
    var start, end := 0, total - 1;
    if header == "" || !("bytes=" <= header) { return Whole; }
    var r := header[6..];
    var dash := Find(r, '-');
    if dash == |r| { return Refused; }
    if dash > 0 {
      var n := Stoll(r[..dash]);
      if n.None? { return Refused; }
      start := n.value;
    }
    if dash + 1 < |r| {
      var n := Stoll(r[dash + 1..]);
      if n.None? { return Refused; }
      end := n.value;
    }
    if start < 0 || start >= total || end < start || end >= total { return Refused; }
    serve := Part(Range(start, end));
  }

  lemma {:induction false} FindAfterDigits(d: string, rest: string)
    requires AllDigits(d)
    ensures Find(d + ("-" + rest), '-') == |d|
  {
    var s := d + ("-" + rest);
    if d != "" {
      assert s[1..] == d[1..] + ("-" + rest);
      FindAfterDigits(d[1..], rest);
    }
  }

  // A printed number as stoll reads it: an int64 or nothing.
  lemma StollOfDigits(n: nat)
    ensures Stoll(Digits(n)) == if n <= INT64_MAX then Some(n) else None
  {
    ValOfDigits(n);
    StollReadsDigits(false, Digits(n), "");
    assert "" + Digits(n) + "" == Digits(n);
  }

  // What the server makes of a range request.
  function ServerSelects(r: ByteRange, total: nat): Option<Range>
  {
    match r
    case FirstLast(a, b) => if a <= b < total then Some(Range(a, b)) else None
    case From(a) => if a < total then Some(Range(a, total - 1)) else None
    case Suffix(n) => if n < total then Some(Range(0, n)) else None
  }

  lemma NumberRead(r: ByteRange)
    ensures !r.Suffix? ==> Stoll(FirstText(r)) == if r.first <= INT64_MAX then Some(r.first) else None
    ensures r.FirstLast? ==> Stoll(LastText(r)) == if r.last <= INT64_MAX then Some(r.last) else None
    ensures r.Suffix? ==> Stoll(LastText(r)) == if r.length <= INT64_MAX then Some(r.length) else None
  {
    match r {
      case FirstLast(a, b) =>
        StollOfDigits(a);
        StollOfDigits(b);
      case From(a) => StollOfDigits(a);
      case Suffix(n) => StollOfDigits(n);
    }
  }

  lemma DashFound(r: ByteRange)
    ensures "bytes=" <= Text(r)
    ensures var s := Text(r)[6..];
            && Find(s, '-') == |FirstText(r)| < |s| == |FirstText(r)| + 1 + |LastText(r)|
            && s[..|FirstText(r)|] == FirstText(r) && s[|FirstText(r)| + 1..] == LastText(r)
  {
    TextParts(r);
    assert Text(r)[6..] == FirstText(r) + ("-" + LastText(r));
    FindAfterDigits(FirstText(r), LastText(r));
  }

  // Another unit is ignored, a range without a dash refused, and whatever part
  // is served lies in the file.
  lemma ServerReadsOthers(header: string, total: nat)
    ensures !("bytes=" <= header) ==> ServerReads(header, total) == Whole
    ensures "bytes=" <= header && '-' !in header[6..] ==> ServerReads(header, total) == Refused
    ensures var r := ServerReads(header, total); r.Part? ==> 0 <= r.range.start <= r.range.end < total
  {
  }

  lemma ServerReadsTheRange(r: ByteRange, total: nat)
    requires total <= INT64_MAX
    ensures ServerReads(Text(r), total) == if ServerSelects(r, total).Some? then Part(ServerSelects(r, total).value) else Refused
  {
    TextParts(r);
    DashFound(r);
    NumberRead(r);
  }

  // The server agrees with RFC 9110 on exactly these: every open range, every
  // closed range that does not run past the end of the file, and a suffix
  // only of an empty file. A suffix is read as the bytes from 0, and a closed
  // range past the end is refused, not cut.
  lemma ServerAgreesIff(r: ByteRange, total: nat)
    ensures ServerSelects(r, total) == Selects(r, total) <==>
            match r
            case FirstLast(a, b) => !(a < total <= b)
            case From(_) => true
            case Suffix(_) => total == 0
  {
  }
}
