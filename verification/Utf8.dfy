// Byte limits on stored and sent text (src/community/db.hpp,
// src/server/wire_limits.hpp) over UTF-8 as section 4 of RFC 3629 defines it.
module Utf8 {
  type Byte = x: int | 0 <= x < 256

  const SIZE_T: nat := 0x1_0000_0000_0000_0000
  const ELLIPSIS: seq<Byte> := [0xE2, 0x80, 0xA6]

  // (b & 0xC0) == 0x80
  predicate Tail(b: Byte) { 0x80 <= b < 0xC0 }

  predicate Tails(s: seq<Byte>, n: nat) { n <= |s| && forall k :: 1 <= k < n ==> Tail(s[k]) }

  // Length of the character `s` starts with, 0 if there is none: the
  // productions UTF8-1 to UTF8-4.
  function CharLen(s: seq<Byte>): (n: nat)
    ensures n <= 4 && n <= |s|
    ensures n > 0 ==> !Tail(s[0]) && Tails(s, n)
  {
    if s == [] then 0
    else if s[0] < 0x80 then 1
    else if 0xC2 <= s[0] <= 0xDF then if Tails(s, 2) then 2 else 0
    else if 0xE0 <= s[0] <= 0xEF then
      if Tails(s, 3) && (s[0] == 0xE0 ==> 0xA0 <= s[1]) && (s[0] == 0xED ==> s[1] <= 0x9F) then 3 else 0
    else if 0xF0 <= s[0] <= 0xF4 then
      if Tails(s, 4) && (s[0] == 0xF0 ==> 0x90 <= s[1]) && (s[0] == 0xF4 ==> s[1] <= 0x8F) then 4 else 0
    else 0
  }

  predicate Valid(s: seq<Byte>)
  {
    s == [] || (CharLen(s) > 0 && Valid(s[CharLen(s)..]))
  }

  // Between two characters of valid text.
  predicate Boundary(s: seq<Byte>, k: nat) { k == |s| || (k < |s| && !Tail(s[k])) }

  lemma CharLenPrefix(s: seq<Byte>, k: nat)
    requires k <= |s|
    ensures CharLen(s) > 0 && CharLen(s) <= k ==> CharLen(s[..k]) == CharLen(s)
    ensures CharLen(s[..k]) > 0 ==> CharLen(s) == CharLen(s[..k])
  {
  }

  // Valid text is valid up to exactly the places where no character is cut.
  lemma {:induction false} ValidPrefixIff(s: seq<Byte>, k: nat)
    requires Valid(s) && k <= |s|
    ensures Valid(s[..k]) <==> Boundary(s, k)
    ensures Boundary(s, k) ==> Valid(s[k..])
    decreases |s|
  {
    var n := CharLen(s);
    CharLenPrefix(s, k);
    if k == 0 {
      assert s[0..] == s;
    } else if k < n {
      assert Tail(s[k]);
    } else {
      assert s[..k][n..] == s[n..][..k - n];
      assert s[k..] == s[n..][k - n..];
      ValidPrefixIff(s[n..], k - n);
    }
  }

  lemma {:induction false} ValidConcat(a: seq<Byte>, b: seq<Byte>)
    requires Valid(a) && Valid(b)
    ensures Valid(a + b)
    decreases |a|
  {
    if a == [] {
      assert a + b == b;
    } else {
      FirstOfConcat(a, b);
      ValidConcat(a[CharLen(a)..], b);
    }
  }

  lemma FirstOfConcat(a: seq<Byte>, b: seq<Byte>)
    requires CharLen(a) > 0
    ensures CharLen(a + b) == CharLen(a) && (a + b)[CharLen(a)..] == a[CharLen(a)..] + b
  {
    assert (a + b)[..|a|] == a;
    CharLenPrefix(a + b, |a|);
  }

  // ---- utf8_prefix ----

  // Where the walk back from `cut` stops.
  function Back(s: seq<Byte>, cut: nat): (k: nat)
    requires cut < |s|
    ensures k <= cut && (k == 0 || !Tail(s[k])) && forall j :: k < j <= cut ==> Tail(s[j])
  {
    if cut > 0 && Tail(s[cut]) then Back(s, cut - 1) else cut
  }

  function Prefix(s: seq<Byte>, max: nat): (p: seq<Byte>)
    ensures p <= s && |p| <= max
  {
    if |s| <= max then s else s[..Back(s, max)]
  }

  method Utf8Prefix(s: seq<Byte>, max: nat) returns (p: seq<Byte>)
    ensures p == Prefix(s, max)
  {
    if |s| <= max { return s; }
    var cut := max;
    while cut > 0 && Tail(s[cut])
      invariant 0 <= cut <= max && Back(s, cut) == Back(s, max)
    {
      cut := cut - 1;
    }
    p := s[..cut];
  }

  // `p` is the longest prefix of `s` that fits `max` and is valid.
  ghost predicate LongestValid(p: seq<Byte>, s: seq<Byte>, max: nat)
  {
    p <= s && |p| <= max && Valid(p) && forall k :: |p| < k <= max && k <= |s| ==> !Valid(s[..k])
  }

  lemma PrefixIsLongest(s: seq<Byte>, max: nat)
    requires Valid(s)
    ensures LongestValid(Prefix(s, max), s, max)
  {
    var p := Prefix(s, max);
    if |s| <= max {
      assert s[..|s|] == s;
    } else {
      FirstIsNoTail(s);
      ValidPrefixIff(s, |p|);
      forall k | |p| < k <= max && k <= |s| ensures !Valid(s[..k]) { ValidPrefixIff(s, k); }
    }
  }

  lemma FirstIsNoTail(s: seq<Byte>)
    requires Valid(s) && s != []
    ensures !Tail(s[0])
  {
  }

  lemma LongestIsUnique(p: seq<Byte>, q: seq<Byte>, s: seq<Byte>, max: nat)
    requires LongestValid(p, s, max) && LongestValid(q, s, max)
    ensures p == q
  {
    assert p == s[..|p|] && q == s[..|q|];
  }

  // Cutting twice is cutting to the smaller limit, whatever the input.
  lemma PrefixComposes(s: seq<Byte>, a: nat, b: nat)
    ensures Prefix(Prefix(s, a), b) == Prefix(s, if a < b then a else b)
  {
    var p := Prefix(s, a);
    if |s| > a && |p| > b {
      BackOfPrefix(s, |p|, b);
    } else if |s| > a && b < a {
      BackFurther(s, a, b);
    }
  }

  lemma {:induction false} BackOfPrefix(s: seq<Byte>, n: nat, cut: nat)
    requires cut < n <= |s|
    ensures Back(s[..n], cut) == Back(s, cut)
  {
    if cut > 0 && Tail(s[cut]) { BackOfPrefix(s, n, cut - 1); }
  }

  // The walk from anywhere the longer walk passed stops where it did.
  lemma {:induction false} BackFurther(s: seq<Byte>, a: nat, b: nat)
    requires a < |s| && Back(s, a) <= b <= a
    ensures Back(s, b) == Back(s, a)
    decreases a
  {
    if b < a { BackFurther(s, a - 1, b); }
  }

  // ---- clamp_utf8, clamp_display ----

  predicate Control(b: Byte) { b < 0x20 || b == 0x7F }

  function Stripped(s: seq<Byte>): (r: seq<Byte>)
    ensures |r| <= |s| && forall k :: 0 <= k < |r| ==> !Control(r[k])
  {
    if s == [] then [] else Stripped(s[..|s| - 1]) + if Control(s[|s| - 1]) then [] else [s[|s| - 1]]
  }

  // clamp_utf8
  method ClampUtf8(s: seq<Byte>, max: nat) returns (r: seq<Byte>)
    ensures r == Prefix(Stripped(s), max)
  {
    var out := StripControls(s);
    if |out| <= max { return out; }
    var cut := max;
    while cut > 0 && Tail(out[cut])
      invariant 0 <= cut <= max && Back(out, cut) == Back(out, max)
    {
      cut := cut - 1;
    }
    r := out[..cut];
  }

  // clamp_display
  method ClampDisplay(s: seq<Byte>, max: nat) returns (r: seq<Byte>)
    ensures r == Prefix(Stripped(s), max)
  {
    var out := StripControls(s);
    r := Utf8Prefix(out, max);
  }

  method StripControls(s: seq<Byte>) returns (out: seq<Byte>)
    ensures out == Stripped(s)
  {
    out := [];
    for i := 0 to |s|
      invariant out == Stripped(s[..i])
    {
      assert s[..i + 1][..i] == s[..i];
      if !Control(s[i]) { out := out + [s[i]]; }
    }
    assert s[..|s|] == s;
  }

  lemma {:induction false} StrippedConcat(a: seq<Byte>, b: seq<Byte>)
    ensures Stripped(a + b) == Stripped(a) + Stripped(b)
    decreases |b|
  {
    if b == [] {
      assert a + b == a;
    } else {
      var n := |b| - 1;
      assert (a + b)[..|a + b| - 1] == a + b[..n];
      StrippedConcat(a, b[..n]);
    }
  }

  // Just the control characters of ASCII go, wherever they stand.
  lemma StripsControls(a: seq<Byte>, c: Byte, b: seq<Byte>)
    ensures Stripped(a + [c] + b) == Stripped(a) + (if c < 0x20 || c == 0x7F then [] else [c]) + Stripped(b)
  {
    assert [c][..0] == [];
    assert Stripped([c]) == if Control(c) then [] else [c];
    StrippedConcat(a, [c]);
    StrippedConcat(a + [c], b);
  }

  lemma {:induction false} NothingToStrip(s: seq<Byte>)
    requires forall k :: 0 <= k < |s| ==> !Control(s[k])
    ensures Stripped(s) == s
    decreases |s|
  {
    if s != [] { NothingToStrip(s[..|s| - 1]); }
  }

  // Dropping control characters leaves valid text.
  lemma {:induction false} StrippedIsValid(s: seq<Byte>)
    requires Valid(s)
    ensures Valid(Stripped(s))
    decreases |s|
  {
    if s != [] {
      var n := CharLen(s);
      var (c, rest) := (s[..n], s[n..]);
      assert s == c + rest;
      StrippedConcat(c, rest);
      StrippedIsValid(rest);
      StrippedChar(s);
      ValidConcat(Stripped(c), Stripped(rest));
    }
  }

  // Of one character, all bytes stay or the character was a control.
  lemma StrippedChar(s: seq<Byte>)
    requires CharLen(s) > 0
    ensures Valid(Stripped(s[..CharLen(s)]))
  {
    var n := CharLen(s);
    var c := s[..n];
    CharLenPrefix(s, n);
    if n == 1 {
      assert c[..0] == [];
      assert Stripped(c) == if Control(c[0]) then [] else [c[0]];
    } else {
      NothingToStrip(c);
      assert c[n..] == [];
    }
  }

  // A clamped string is the longest valid prefix, within the limit, of the
  // text without its control characters; clamping again, to any limit, with
  // either function, clamps the original to the smaller one.
  lemma ClampIsLongest(s: seq<Byte>, a: nat, b: nat)
    requires Valid(s)
    ensures LongestValid(Prefix(Stripped(s), a), Stripped(s), a)
    ensures Prefix(Stripped(Prefix(Stripped(s), a)), b) == Prefix(Stripped(s), if a < b then a else b)
  {
    StrippedIsValid(s);
    PrefixIsLongest(Stripped(s), a);
    NothingToStrip(Prefix(Stripped(s), a));
    PrefixComposes(Stripped(s), a, b);
  }

  // ---- utf8_preview ----

  // `max - 3` in size_t.
  method Utf8Preview(s: seq<Byte>, max: nat) returns (r: seq<Byte>)
    requires |s| <= SIZE_T - 3 && max < SIZE_T
    ensures r == Preview(s, max)
  {
    if |s| <= max { return s; }
    var p := Utf8Prefix(s, (max - |ELLIPSIS|) % SIZE_T);
    r := p + ELLIPSIS;
  }

  function Preview(s: seq<Byte>, max: nat): seq<Byte>
  {
    if |s| <= max then s else Prefix(s, (max - |ELLIPSIS|) % SIZE_T) + ELLIPSIS
  }

  // A preview is valid text, and within its limit exactly when the text fits
  // or the limit leaves room for the ellipsis: below that the subtraction
  // wraps and the whole text is kept. Then it is the longest cut that fits.
  lemma PreviewFitsIff(s: seq<Byte>, max: nat)
    requires Valid(s) && |s| <= SIZE_T - 3 && max < SIZE_T
    ensures Valid(Preview(s, max))
    ensures |Preview(s, max)| <= max <==> |s| <= max || max >= 3
    ensures |s| > max >= 3 ==> exists p :: LongestValid(p, s, max - 3) && Preview(s, max) == p + ELLIPSIS
  {
    if |s| > max {
      var limit := (max - |ELLIPSIS|) % SIZE_T;
      Wraps(max, limit);
      PrefixIsLongest(s, limit);
      EllipsisIsValid();
      ValidConcat(Prefix(s, limit), ELLIPSIS);
      CutTo(s, max, limit);
    }
  }

  lemma Wraps(max: nat, limit: nat)
    requires max < SIZE_T && limit == (max - |ELLIPSIS|) % SIZE_T
    ensures limit == if max < 3 then max - 3 + SIZE_T else max - 3
  {
  }

  lemma CutTo(s: seq<Byte>, max: nat, limit: nat)
    requires max < |s| <= SIZE_T - 3 && limit == if max < 3 then max - 3 + SIZE_T else max - 3
    ensures |Prefix(s, limit) + ELLIPSIS| <= max <==> max >= 3
  {
  }

  lemma EllipsisIsValid()
    ensures Valid(ELLIPSIS)
  {
    assert CharLen(ELLIPSIS) == 3;
    assert ELLIPSIS[3..] == [];
  }
}
