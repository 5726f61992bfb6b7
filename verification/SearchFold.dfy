// Folding of text for inside-word search (src/community/search.cpp): lower
// case, accents off, combining marks dropped, anything else kept.
module SearchFold {
  import opened Utf8

  // kLatinFold, U+00C0 to U+017F.
  function LatinFold(c: nat): (r: nat)
    requires 0xC0 <= c < 0x180
  {
    if c <= 0xC5 then 0x61 else if c == 0xC6 then 0xE6 else if c == 0xC7 then 0x63
    else if c <= 0xCB then 0x65 else if c <= 0xCF then 0x69 else if c == 0xD0 then 0xF0
    else if c == 0xD1 then 0x6E else if c <= 0xD6 then 0x6F else if c == 0xD7 then 0xD7
    else if c == 0xD8 then 0xF8 else if c <= 0xDC then 0x75 else if c == 0xDD then 0x79
    else if c == 0xDE then 0xFE else if c == 0xDF then 0xDF else if c <= 0xE5 then 0x61
    else if c == 0xE6 then 0xE6 else if c == 0xE7 then 0x63 else if c <= 0xEB then 0x65
    else if c <= 0xEF then 0x69 else if c == 0xF0 then 0xF0 else if c == 0xF1 then 0x6E
    else if c <= 0xF6 then 0x6F else if c == 0xF7 then 0xF7 else if c == 0xF8 then 0xF8
    else if c <= 0xFC then 0x75 else if c == 0xFD then 0x79 else if c == 0xFE then 0xFE
    else if c == 0xFF then 0x79 else ExtendedFold(c)
  }

  // Its part from U+0100.
  function ExtendedFold(c: nat): (r: nat)
    requires 0x100 <= c < 0x180
  {
    if c <= 0x105 then 0x61 else if c <= 0x10D then 0x63 else if c <= 0x10F then 0x64
    else if c <= 0x111 then 0x111 else if c <= 0x11B then 0x65 else if c <= 0x123 then 0x67
    else if c <= 0x125 then 0x68 else if c <= 0x127 then 0x127 else if c <= 0x131 then 0x69
    else if c <= 0x133 then 0x133 else if c <= 0x135 then 0x6A else if c <= 0x137 then 0x6B
    else if c == 0x138 then 0x138 else if c <= 0x13E then 0x6C else if c <= 0x140 then 0x140
    else if c <= 0x142 then 0x142 else if c <= 0x148 then 0x6E else if c == 0x149 then 0x149
    else if c <= 0x14B then 0x14B else if c <= 0x151 then 0x6F else if c <= 0x153 then 0x153
    else if c <= 0x159 then 0x72 else if c <= 0x161 then 0x73 else if c <= 0x165 then 0x74
    else if c <= 0x167 then 0x167 else if c <= 0x173 then 0x75 else if c <= 0x175 then 0x77
    else if c <= 0x178 then 0x79 else if c <= 0x17E then 0x7A else 0x17F
  }

  function FoldCodePoint(c: nat): nat
  {
    if c < 0x80 then if 0x41 <= c <= 0x5A then c + 32 else c
    else if 0xC0 <= c < 0x180 then LatinFold(c)
    else if 0x391 <= c <= 0x3A9 && c != 0x3A2 then c + 0x20
    else if 0x410 <= c <= 0x42F then c + 0x20
    else if 0x400 <= c <= 0x40F then c + 0x50
    else c
  }

  predicate Combining(c: nat) { 0x300 <= c <= 0x36F }

  // What four bytes of the decoder's form can hold.
  const MAX_CODE: nat := 0x1F_FFFF

  // The low six bits, and those above them.
  function Low(c: nat): (r: nat)
    ensures r < 0x40
  {
    c % 0x40
  }

  function High(c: nat): (r: nat)
    ensures 0x40 * r <= c < 0x40 * r + 0x40 && c == 0x40 * r + Low(c)
  {
    c / 0x40
  }

  // append_utf8
  function Encode(c: nat): (r: seq<Byte>)
    requires c <= MAX_CODE
    ensures |r| == EncodedLen(c) && LeadLen(r[0]) == |r| && Tails(r, |r|)
  {
    if c < 0x80 then [c]
    else if c < 0x800 then [0xC0 + High(c), 0x80 + Low(c)]
    else if c < 0x1_0000 then [0xE0 + High(High(c)), 0x80 + Low(High(c)), 0x80 + Low(c)]
    else [0xF0 + High(High(High(c))), 0x80 + Low(High(High(c))), 0x80 + Low(High(c)), 0x80 + Low(c)]
  }

  function EncodedLen(c: nat): nat { if c < 0x80 then 1 else if c < 0x800 then 2 else if c < 0x1_0000 then 3 else 4 }

  // Length the first byte announces, 0 for a stray byte.
  function LeadLen(b: Byte): nat
  {
    if b < 0x80 then 1
    else if 0xC0 <= b < 0xE0 then 2
    else if 0xE0 <= b < 0xF0 then 3
    else if 0xF0 <= b < 0xF8 then 4
    else 0
  }

  // The code point the decoder reads, whatever the bytes after the first.
  function CodePoint(s: seq<Byte>, len: nat): (c: nat)
    requires 2 <= len <= 4 && len <= |s| && LeadLen(s[0]) == len
    ensures c <= MAX_CODE
  {
    if len == 2 then (s[0] - 0xC0) * 0x40 + Low(s[1])
    else if len == 3 then ((s[0] - 0xE0) * 0x40 + Low(s[1])) * 0x40 + Low(s[2])
    else (((s[0] - 0xF0) * 0x40 + Low(s[1])) * 0x40 + Low(s[2])) * 0x40 + Low(s[3])
  }

  // How much one round of the loop reads.
  function Step(s: seq<Byte>): (n: nat)
    requires s != []
    ensures 0 < n <= |s|
  {
    var len := LeadLen(s[0]);
    if len == 0 then 1 else if len > |s| then |s| else len
  }

  lemma FoldedIsSmall(c: nat)
    requires c <= MAX_CODE
    ensures FoldCodePoint(c) <= MAX_CODE
    ensures !Combining(c) ==> !Combining(FoldCodePoint(c))
  {
  }

  // And what it appends.
  function Folded(s: seq<Byte>): seq<Byte>
    requires s != []
  {
    var len := LeadLen(s[0]);
    if len == 0 || len > |s| then s[..Step(s)]
    else if len == 1 then [FoldCodePoint(s[0])]
    else
      var c := CodePoint(s, len);
      FoldedIsSmall(c);
      if Combining(c) then [] else Encode(FoldCodePoint(c))
  }

  function Fold(s: seq<Byte>): seq<Byte>
    decreases |s|
  {
    if s == [] then [] else Folded(s) + Fold(s[Step(s)..])
  }

  // ---- the loop ----

  method FoldBytes(s: seq<Byte>) returns (out: seq<Byte>)
    ensures out == Fold(s)
  {
    out := [];
    var i := 0;
    while i < |s|
      invariant i <= |s| && out + Fold(s[i..]) == Fold(s)
    {
      var read, chunk := FoldOne(s, i);
      RoundAt(s, i, out);
      out := out + chunk;
      i := i + read;
    }
  }

  lemma RoundAt(s: seq<Byte>, i: nat, out: seq<Byte>)
    requires i < |s|
    ensures out + Fold(s[i..]) == out + Folded(s[i..]) + Fold(s[i + Step(s[i..])..])
  {
    assert s[i..][Step(s[i..])..] == s[i + Step(s[i..])..];
  }

  // One round: the bytes read and the bytes appended.
  method FoldOne(s: seq<Byte>, i: nat) returns (read: nat, chunk: seq<Byte>)
    requires i < |s|
    ensures read == Step(s[i..]) && chunk == Folded(s[i..])
  {
    var b := s[i];
    if b < 0x80 { return 1, [if 0x41 <= b <= 0x5A then b + 32 else b]; }
    var c: nat, len: nat;
    if 0xC0 <= b < 0xE0 { c, len := b - 0xC0, 2; }
    else if 0xE0 <= b < 0xF0 { c, len := b - 0xE0, 3; }
    else if 0xF0 <= b < 0xF8 { c, len := b - 0xF0, 4; }
    else {
      assert [b] == s[i..][..1];
      return 1, [b];
    }
    if i + len > |s| {
      assert s[i..][..|s| - i] == s[i..];
      return |s| - i, s[i..];
    }
    c := c * 0x40 + Low(s[i + 1]);
    if len > 2 { c := c * 0x40 + Low(s[i + 2]); }
    if len > 3 { c := c * 0x40 + Low(s[i + 3]); }
    assert c == CodePoint(s[i..], len);
    if Combining(c) { return len, []; }
    FoldedIsSmall(c);
    read, chunk := len, Encode(FoldCodePoint(c));
  }

  // ---- idempotence ----

  lemma LatinTwice(c: nat)
    requires 0xC0 <= c < 0x180
    ensures FoldCodePoint(LatinFold(c)) == LatinFold(c)
  {
  }

  lemma CodePointTwice(c: nat)
    ensures FoldCodePoint(FoldCodePoint(c)) == FoldCodePoint(c)
  {
    if 0xC0 <= c < 0x180 { LatinTwice(c); }
  }

  lemma LowOfTail(x: nat)
    requires x < 0x40
    ensures Low(0x80 + x) == x
  {
  }

  lemma ReadsBack(c: nat, rest: seq<Byte>)
    requires 0x80 <= c <= MAX_CODE
    ensures var s := Encode(c) + rest;
            LeadLen(s[0]) == EncodedLen(c) <= |s| && CodePoint(s, EncodedLen(c)) == c
  {
    LowOfTail(Low(c));
    LowOfTail(Low(High(c)));
    LowOfTail(Low(High(High(c))));
  }

  // An encoded, already folded code point folds to itself and leaves the rest.
  lemma EncodedStays(c: nat, rest: seq<Byte>)
    requires c <= MAX_CODE && !Combining(c) && FoldCodePoint(c) == c
    ensures Fold(Encode(c) + rest) == Encode(c) + Fold(rest)
  {
    var s := Encode(c) + rest;
    if c >= 0x80 { ReadsBack(c, rest); }
    assert s[Step(s)..] == rest;
  }

  lemma StrayStays(b: Byte, rest: seq<Byte>)
    requires LeadLen(b) == 0
    ensures Fold([b] + rest) == [b] + Fold(rest)
  {
    var s := [b] + rest;
    assert s[..1] == [b] && s[1..] == rest;
  }

  // What one round appended stays under another fold.
  lemma FoldedStays(s: seq<Byte>, rest: seq<Byte>)
    requires s != [] && LeadLen(s[0]) <= |s|
    ensures Fold(Folded(s) + rest) == Folded(s) + Fold(rest)
  {
    var len := LeadLen(s[0]);
    if len == 0 {
      assert Folded(s) == [s[0]];
      StrayStays(s[0], rest);
    } else {
      var c := if len == 1 then s[0] else CodePoint(s, len);
      FoldedIsSmall(c);
      CodePointTwice(c);
      if len > 1 && Combining(c) {
        assert [] + rest == rest;
      } else {
        assert Folded(s) == Encode(FoldCodePoint(c));
        EncodedStays(FoldCodePoint(c), rest);
      }
    }
  }

  // Folding folded text changes nothing, on every byte string.
  lemma {:induction false} FoldIsIdempotent(s: seq<Byte>)
    ensures Fold(Fold(s)) == Fold(s)
    decreases |s|
  {
    if s != [] {
      if LeadLen(s[0]) > |s| {
        assert s[..|s|] == s && Fold([]) == [] && s + [] == s;
      } else {
        FoldIsIdempotent(s[Step(s)..]);
        FoldedStays(s, Fold(s[Step(s)..]));
      }
    }
  }

  // ---- concatenation ----

  // No character is cut off at the end.
  predicate Complete(s: seq<Byte>)
    decreases |s|
  {
    s == [] || (LeadLen(s[0]) <= |s| && Complete(s[Step(s)..]))
  }

  lemma {:induction false} ValidIsComplete(s: seq<Byte>)
    requires Valid(s)
    ensures Complete(s)
    decreases |s|
  {
    if s != [] { ValidIsComplete(s[CharLen(s)..]); }
  }

  // After a complete text, folding goes on as if it began there.
  lemma {:induction false} FoldConcat(a: seq<Byte>, b: seq<Byte>)
    requires Complete(a)
    ensures Fold(a + b) == Fold(a) + Fold(b)
    decreases |a|
  {
    if a == [] {
      assert a + b == b;
    } else {
      FirstRound(a, b);
      FoldConcat(a[Step(a)..], b);
    }
  }

  lemma SameRound(a: seq<Byte>, b: seq<Byte>)
    requires a != [] && LeadLen(a[0]) <= |a|
    ensures Step(a + b) == Step(a) && Folded(a + b) == Folded(a)
  {
    assert (a + b)[..Step(a)] == a[..Step(a)];
  }

  function Letters(n: nat): (b: seq<Byte>)
    ensures |b| == n && forall k :: 0 <= k < n ==> b[k] == 0x61
  {
    seq(n, _ => 0x61)
  }

  lemma {:induction false} LettersStay(n: nat)
    ensures Fold(Letters(n)) == Letters(n)
  {
    if n > 0 {
      assert Letters(n)[1..] == Letters(n - 1);
      LettersStay(n - 1);
    }
  }

  // A cut-off character swallows letters that follow it.
  lemma CutSwallows(a: seq<Byte>) returns (b: seq<Byte>)
    requires a != [] && LeadLen(a[0]) > |a|
    ensures Fold(a + b) != Fold(a) + Fold(b)
  {
    var n := LeadLen(a[0]);
    b := Letters(n - |a|);
    LettersStay(n - |a|);
    var s := a + b;
    assert s[n..] == [] && Fold(s) == Folded(s);
    assert Fold(a) == a by { assert a[|a|..] == [] && a[..|a|] == a; }
    assert (a + Letters(n - |a|))[n - 1] == 0x61;
    FoldedIsSmall(CodePoint(s, n));
  }

  lemma {:induction false} IncompleteSwallows(a: seq<Byte>) returns (b: seq<Byte>)
    requires !Complete(a)
    ensures Fold(a + b) != Fold(a) + Fold(b)
    decreases |a|
  {
    if LeadLen(a[0]) > |a| {
      b := CutSwallows(a);
    } else {
      b := IncompleteSwallows(a[Step(a)..]);
      FirstRound(a, b);
      SamePrefix(Folded(a), Fold(a[Step(a)..] + b), Fold(a[Step(a)..]) + Fold(b));
    }
  }

  lemma FoldHead(s: seq<Byte>)
    requires s != []
    ensures Fold(s) == Folded(s) + Fold(s[Step(s)..])
  {
  }

  lemma FirstJoined(a: seq<Byte>, b: seq<Byte>, rest: seq<Byte>)
    requires a != [] && LeadLen(a[0]) <= |a| && rest == a[Step(a)..] + b
    ensures Fold(a + b) == Folded(a) + Fold(rest)
  {
    FoldHead(a + b);
    SameRound(a, b);
    assert (a + b)[Step(a)..] == rest;
  }

  lemma FirstApart(a: seq<Byte>, folded: seq<Byte>)
    requires a != []
    ensures Fold(a) + folded == Folded(a) + (Fold(a[Step(a)..]) + folded)
  {
    FoldHead(a);
  }

  lemma FirstRound(a: seq<Byte>, b: seq<Byte>)
    requires a != [] && LeadLen(a[0]) <= |a|
    ensures Fold(a + b) == Folded(a) + Fold(a[Step(a)..] + b)
    ensures Fold(a) + Fold(b) == Folded(a) + (Fold(a[Step(a)..]) + Fold(b))
  {
    FirstJoined(a, b, a[Step(a)..] + b);
    FirstApart(a, Fold(b));
  }

  lemma SamePrefix(p: seq<Byte>, x: seq<Byte>, y: seq<Byte>)
    requires x != y
    ensures p + x != p + y
  {
    assert (p + x)[|p|..] == x && (p + y)[|p|..] == y;
  }

  // Folding distributes over a concatenation, whatever comes second, exactly
  // when the first part ends at a character's end.
  lemma DistributesIffComplete(a: seq<Byte>)
    ensures Complete(a) <==> forall b :: Fold(a + b) == Fold(a) + Fold(b)
  {
    if Complete(a) {
      forall b ensures Fold(a + b) == Fold(a) + Fold(b) { FoldConcat(a, b); }
    } else {
      var b := IncompleteSwallows(a);
    }
  }

  predicate OccursAt(part: seq<Byte>, text: seq<Byte>, k: nat) { k + |part| <= |text| && text[k..k + |part|] == part }

  predicate Occurs(part: seq<Byte>, text: seq<Byte>) { exists k: nat :: k <= |text| && OccursAt(part, text, k) }

  // A fragment that occurs in a text occurs, folded, in the folded text: a
  // search never misses a verbatim match.
  lemma VerbatimIsFound(part: seq<Byte>, text: seq<Byte>)
    requires Valid(part) && Valid(text) && Occurs(part, text)
    ensures Occurs(Fold(part), Fold(text))
  {
    var k: nat :| k <= |text| && OccursAt(part, text, k);
    if part == [] { assert OccursAt(Fold(part), Fold(text), 0); } else { FoundAt(part, text, k); }
  }

  lemma FoundAt(part: seq<Byte>, text: seq<Byte>, k: nat)
    requires part != [] && Valid(part) && Valid(text) && k <= |text| && OccursAt(part, text, k)
    ensures Occurs(Fold(part), Fold(text))
  {
    var before, after := text[..k], text[k + |part|..];
    SplitAround(part, text, k);
    ValidPrefixIff(text, k);
    FoundBetween(before, part, after);
  }

  lemma SplitAround(part: seq<Byte>, text: seq<Byte>, k: nat)
    requires part != [] && OccursAt(part, text, k)
    ensures text == text[..k] + (part + text[k + |part|..]) && text[k] == part[0]
  {
    assert text[k] == text[k..k + |part|][0];
  }

  lemma FoundBetween(before: seq<Byte>, part: seq<Byte>, after: seq<Byte>)
    requires Valid(before) && Valid(part)
    ensures Occurs(Fold(part), Fold(before + (part + after)))
  {
    FoldAround(before, part, after);
  }

  lemma FoldAround(before: seq<Byte>, part: seq<Byte>, after: seq<Byte>)
    requires Valid(before) && Valid(part)
    ensures OccursAt(Fold(part), Fold(before + (part + after)), |Fold(before)|)
  {
    ValidIsComplete(before);
    ValidIsComplete(part);
    FoldConcat(before, part + after);
    FoldConcat(part, after);
  }
}
