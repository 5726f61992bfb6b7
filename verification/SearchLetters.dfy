// What folding means for a reader: texts fold alike exactly when they are the
// same letters up to case and accents, and a folded fragment occurs exactly
// where such a text stands (src/community/search.hpp).
module SearchLetters {
  import opened Utf8
  import opened SearchFold
  import opened SearchQuery

  // ---- letters ----

  predicate In(c: nat, first: nat, last: nat) { first <= c <= last }

  // The small Latin letter `c` is an accented form of, in Latin-1 and Latin
  // Extended-A: the base of its canonical decomposition, and i for dotless i.
  predicate Accented(c: nat, base: nat)
  {
    match base
    case 0x61 => In(c, 0xC0, 0xC5) || In(c, 0xE0, 0xE5) || In(c, 0x100, 0x105)
    case 0x63 => c == 0xC7 || c == 0xE7 || In(c, 0x106, 0x10D)
    case 0x64 => In(c, 0x10E, 0x10F)
    case 0x65 => In(c, 0xC8, 0xCB) || In(c, 0xE8, 0xEB) || In(c, 0x112, 0x11B)
    case 0x67 => In(c, 0x11C, 0x123)
    case 0x68 => In(c, 0x124, 0x125)
    case 0x69 => In(c, 0xCC, 0xCF) || In(c, 0xEC, 0xEF) || In(c, 0x128, 0x131)
    case 0x6A => In(c, 0x134, 0x135)
    case 0x6B => In(c, 0x136, 0x137)
    case 0x6C => In(c, 0x139, 0x13E)
    case 0x6E => c == 0xD1 || c == 0xF1 || In(c, 0x143, 0x148)
    case 0x6F => In(c, 0xD2, 0xD6) || In(c, 0xF2, 0xF6) || In(c, 0x14C, 0x151)
    case 0x72 => In(c, 0x154, 0x159)
    case 0x73 => In(c, 0x15A, 0x161)
    case 0x74 => In(c, 0x162, 0x165)
    case 0x75 => In(c, 0xD9, 0xDC) || In(c, 0xF9, 0xFC) || In(c, 0x168, 0x173)
    case 0x77 => In(c, 0x174, 0x175)
    case 0x79 => c == 0xDD || c == 0xFD || c == 0xFF || In(c, 0x176, 0x178)
    case 0x7A => In(c, 0x179, 0x17E)
    case _ => false
  }

  // `small` is the small letter of the capital `c`: ASCII, Latin-1, Latin
  // Extended-A (pairs side by side), Greek without accents, Cyrillic.
  predicate CapitalOf(c: nat, small: nat)
  {
    || ((In(c, 0x41, 0x5A) || (In(c, 0xC0, 0xDE) && c != 0xD7)) && small == c + 0x20)
    || (PairedCapital(c) && small == c + 1)
    || (c == 0x178 && small == 0xFF)
    || (((In(c, 0x391, 0x3A9) && c != 0x3A2) || In(c, 0x410, 0x42F)) && small == c + 0x20)
    || (In(c, 0x400, 0x40F) && small == c + 0x50)
  }

  predicate PairedCapital(c: nat)
  {
    || ((In(c, 0x100, 0x136) || In(c, 0x14A, 0x176)) && c % 2 == 0 && c != 0x130)
    || ((In(c, 0x139, 0x147) || In(c, 0x179, 0x17D)) && c % 2 == 1)
  }

  ghost predicate HasAccent(c: nat) { exists base: nat :: Accented(c, base) }

  ghost predicate IsCapital(c: nat) { exists small: nat :: CapitalOf(c, small) }

  // `l` is the letter `c` without case and accent.
  ghost predicate Plain(c: nat, l: nat)
  {
    if HasAccent(c) then Accented(c, l)
    else if IsCapital(c) then CapitalOf(c, l)
    else l == c
  }

  lemma AccentFolds(c: nat, base: nat)
    requires Accented(c, base)
    ensures 0xC0 <= c < 0x180 && FoldCodePoint(c) == base && 0x61 <= base <= 0x7A
  {
  }

  lemma LowerTable(c: nat)
    requires 0xC0 <= c < 0x100
    ensures var r := FoldCodePoint(c); Accented(c, r) || (r >= 0x80 && if r == c then !In(c, 0xC0, 0xDE) || c == 0xD7 else CapitalOf(c, r))
  {
  }

  lemma UpperTable(c: nat)
    requires 0x100 <= c < 0x180
    ensures var r := FoldCodePoint(c); Accented(c, r) || (r >= 0x80 && if r == c then !PairedCapital(c) && c != 0x178 else CapitalOf(c, r))
  {
  }

  lemma OneSmall(c: nat, a: nat, b: nat)
    requires CapitalOf(c, a) && CapitalOf(c, b)
    ensures a == b
  {
  }

  // What folding does to a code point, if anything.
  lemma FoldMoves(c: nat)
    ensures var r := FoldCodePoint(c); r == c || Accented(c, r) || CapitalOf(c, r)
  {
    if 0xC0 <= c < 0x100 { LowerTable(c); } else if 0x100 <= c < 0x180 { UpperTable(c); }
  }

  lemma CapitalFolds(c: nat, small: nat)
    requires CapitalOf(c, small) && !HasAccent(c)
    ensures FoldCodePoint(c) == small
  {
    if 0xC0 <= c < 0x100 { LowerTable(c); } else if 0x100 <= c < 0x180 { UpperTable(c); }
    if CapitalOf(c, FoldCodePoint(c)) { OneSmall(c, small, FoldCodePoint(c)); }
  }

  // The code's table and ranges are just that.
  lemma FoldIsPlain(c: nat, l: nat)
    ensures Plain(c, l) <==> l == FoldCodePoint(c)
  {
    FoldMoves(c);
    if base: nat :| Accented(c, base) {
      AccentFolds(c, base);
      if Accented(c, l) { AccentFolds(c, l); }
    } else if small: nat :| CapitalOf(c, small) {
      CapitalFolds(c, small);
      if CapitalOf(c, l) { OneSmall(c, l, small); }
    }
  }

  // ---- text ----

  predicate Codes(cs: seq<nat>) { forall i :: 0 <= i < |cs| ==> cs[i] <= MAX_CODE }

  // The UTF-8 text of some code points.
  function TextOf(cs: seq<nat>): (s: seq<Byte>)
    requires Codes(cs)
  {
    if cs == [] then [] else Encode(cs[0]) + TextOf(cs[1..])
  }

  lemma LeadOfPair(s: seq<Byte>)
    requires CharLen(s) == 2
    ensures Encode(CodePoint(s, 2)) == s[..2]
  {
    var c := CodePoint(s, 2);
    LowOfTail(s[1] - 0x80);
    assert High(c) == s[0] - 0xC0 && Low(c) == s[1] - 0x80;
  }

  lemma LeadOfThree(s: seq<Byte>)
    requires CharLen(s) == 3
    ensures Encode(CodePoint(s, 3)) == s[..3]
  {
    var c := CodePoint(s, 3);
    LowOfTail(s[1] - 0x80);
    LowOfTail(s[2] - 0x80);
    var x: int, y: int, z: int := s[0] - 0xE0, s[1] - 0x80, s[2] - 0x80;
    assert High(c) == x * 0x40 + y && Low(c) == z;
    assert High(High(c)) == x && Low(High(c)) == y;
  }

  lemma LeadOfFour(s: seq<Byte>)
    requires CharLen(s) == 4
    ensures Encode(CodePoint(s, 4)) == s[..4]
  {
    var c := CodePoint(s, 4);
    LowOfTail(s[1] - 0x80);
    LowOfTail(s[2] - 0x80);
    LowOfTail(s[3] - 0x80);
    var w: int, x: int, y: int, z: int := s[0] - 0xF0, s[1] - 0x80, s[2] - 0x80, s[3] - 0x80;
    assert High(c) == (w * 0x40 + x) * 0x40 + y && Low(c) == z;
    assert High(High(c)) == w * 0x40 + x && Low(High(c)) == y;
    assert High(High(High(c))) == w && Low(High(High(c))) == x;
  }

  lemma CharIsEncoded(s: seq<Byte>) returns (c: nat)
    requires CharLen(s) > 0
    ensures c <= MAX_CODE && Encode(c) == s[..CharLen(s)]
  {
    var n := CharLen(s);
    if n == 1 {
      c := s[0];
    } else {
      c := CodePoint(s, n);
      if n == 2 { LeadOfPair(s); } else if n == 3 { LeadOfThree(s); } else { LeadOfFour(s); }
    }
  }

  lemma FirstChar(s: seq<Byte>) returns (c: nat, after: seq<Byte>)
    requires Valid(s) && s != []
    ensures c <= MAX_CODE && s == Encode(c) + after && Valid(after) && |after| < |s|
  {
    c := CharIsEncoded(s);
    after := s[CharLen(s)..];
  }

  lemma TextCons(c: nat, rest: seq<nat>)
    requires c <= MAX_CODE && Codes(rest)
    ensures Codes([c] + rest) && TextOf([c] + rest) == Encode(c) + TextOf(rest)
  {
    assert ([c] + rest)[1..] == rest;
  }

  // Valid text is the text of some code points.
  lemma {:induction false} ValidIsText(s: seq<Byte>) returns (cs: seq<nat>)
    requires Valid(s)
    ensures Codes(cs) && TextOf(cs) == s
    decreases |s|
  {
    if s == [] {
      cs := [];
    } else {
      var c, after := FirstChar(s);
      var rest := ValidIsText(after);
      cs := [c] + rest;
      TextCons(c, rest);
    }
  }

  lemma {:induction false} TextConcat(a: seq<nat>, b: seq<nat>)
    requires Codes(a) && Codes(b)
    ensures Codes(a + b) && TextOf(a + b) == TextOf(a) + TextOf(b)
  {
    if a == [] {
      assert a + b == b;
    } else {
      TextConcat(a[1..], b);
      assert (a + b)[1..] == a[1..] + b;
      assert Encode(a[0]) + (TextOf(a[1..]) + TextOf(b)) == Encode(a[0]) + TextOf(a[1..]) + TextOf(b);
    }
  }

  // ---- the fold of a text ----

  predicate Mark(c: nat) { In(c, 0x300, 0x36F) }

  // The combining marks left out.
  function Bare(cs: seq<nat>): (r: seq<nat>)
  {
    if cs == [] then [] else (if Mark(cs[0]) then [] else [cs[0]]) + Bare(cs[1..])
  }

  // What folding leaves of one code point.
  function PlainsOf(c: nat): seq<nat> { if Mark(c) then [] else [FoldCodePoint(c)] }

  // Every letter that is left, plain.
  function Plains(cs: seq<nat>): (r: seq<nat>)
    ensures Codes(cs) ==> Codes(r)
  {
    if cs == [] then []
    else
      PlainIsBare(cs[0]);
      PlainsOf(cs[0]) + Plains(cs[1..])
  }

  lemma {:induction false} PlainsAreBare(cs: seq<nat>)
    ensures |Plains(cs)| == |Bare(cs)|
    ensures forall i :: 0 <= i < |Bare(cs)| ==> Plains(cs)[i] == FoldCodePoint(Bare(cs)[i]) && !Mark(Plains(cs)[i])
  {
    if cs != [] {
      PlainsAreBare(cs[1..]);
      if !Mark(cs[0]) { PlainIsBare(cs[0]); }
    }
  }

  lemma PlainIsBare(c: nat)
    ensures !Mark(c) ==> !Mark(FoldCodePoint(c))
    ensures c <= MAX_CODE ==> FoldCodePoint(c) <= MAX_CODE
  {
    if c <= MAX_CODE { FoldedIsSmall(c); } else { assert FoldCodePoint(c) == c; }
  }

  lemma OneText(d: nat)
    requires d <= MAX_CODE
    ensures Codes([d]) && TextOf([d]) == Encode(d)
  {
    assert [d][1..] == [];
    assert TextOf([]) == [];
  }

  lemma FoldFirst(c: nat, rest: seq<Byte>)
    requires c <= MAX_CODE
    ensures FoldCodePoint(c) <= MAX_CODE
    ensures Fold(Encode(c) + rest) == (if Mark(c) then [] else Encode(FoldCodePoint(c))) + Fold(rest)
  {
    var s := Encode(c) + rest;
    FoldedIsSmall(c);
    if c >= 0x80 { ReadsBack(c, rest); }
    FoldHead(s);
    assert s[Step(s)..] == rest;
  }

  lemma PlainsText(c: nat)
    requires c <= MAX_CODE && FoldCodePoint(c) <= MAX_CODE
    ensures Codes(PlainsOf(c)) && TextOf(PlainsOf(c)) == if Mark(c) then [] else Encode(FoldCodePoint(c))
  {
    OneText(FoldCodePoint(c));
  }

  lemma {:induction false} FoldOfText(cs: seq<nat>)
    requires Codes(cs)
    ensures Fold(TextOf(cs)) == TextOf(Plains(cs))
  {
    if cs != [] {
      FoldOfText(cs[1..]);
      FoldFirst(cs[0], TextOf(cs[1..]));
      PlainsText(cs[0]);
      TextConcat(PlainsOf(cs[0]), Plains(cs[1..]));
    }
  }

  // ---- reading a text back ----

  lemma FirstCode(c: nat, rest: seq<Byte>, d: nat, rest': seq<Byte>)
    requires c <= MAX_CODE && d <= MAX_CODE && Encode(c) + rest == Encode(d) + rest'
    ensures c == d && rest == rest'
  {
    var s := Encode(c) + rest;
    if c >= 0x80 { ReadsBack(c, rest); }
    if d >= 0x80 { ReadsBack(d, rest'); }
    assert LeadLen(s[0]) == |Encode(c)| == |Encode(d)|;
    assert c == d;
    assert rest == s[|Encode(c)|..] && rest' == s[|Encode(d)|..];
  }

  lemma HeadJoined(a: seq<nat>, rest: seq<Byte>)
    requires Codes(a) && a != []
    ensures TextOf(a) + rest == Encode(a[0]) + (TextOf(a[1..]) + rest)
  {
  }

  lemma PrefixCons<T>(a: seq<T>, b: seq<T>)
    requires a != [] && b != [] && a[0] == b[0] && a[1..] <= b[1..]
    ensures a <= b
  {
    assert a == [a[0]] + a[1..] && b == [b[0]] + b[1..];
  }

  // A text that goes on after another is that other's letters, and more.
  lemma {:induction false} TextPrefix(a: seq<nat>, b: seq<nat>, rest: seq<Byte>)
    requires Codes(a) && Codes(b) && TextOf(b) == TextOf(a) + rest
    ensures a <= b
  {
    if a != [] {
      HeadJoined(a, rest);
      FirstCode(b[0], TextOf(b[1..]), a[0], TextOf(a[1..]) + rest);
      TextPrefix(a[1..], b[1..], rest);
      PrefixCons(a, b);
    }
  }

  lemma TextIsInjective(a: seq<nat>, b: seq<nat>)
    requires Codes(a) && Codes(b) && TextOf(a) == TextOf(b)
    ensures a == b
  {
    assert TextOf(b) == TextOf(a) + [] && TextOf(a) == TextOf(b) + [];
    TextPrefix(a, b, []);
    TextPrefix(b, a, []);
  }

  lemma PastHead<T>(head: seq<T>, rest: seq<T>, k: nat)
    requires |head| <= k < |head + rest|
    ensures (head + rest)[k] == rest[k - |head|] && (head + rest)[k..] == rest[k - |head|..]
  {
  }

  lemma NotInside(c: nat, rest: seq<Byte>, k: nat)
    requires c <= MAX_CODE && 0 < k < |Encode(c) + rest| && !Tail((Encode(c) + rest)[k])
    ensures k >= |Encode(c)|
  {
  }

  // A byte that is no tail byte starts a character.
  lemma {:induction false} Starts(cs: seq<nat>, k: nat) returns (i: nat)
    requires Codes(cs) && k < |TextOf(cs)| && !Tail(TextOf(cs)[k])
    ensures i < |cs| && TextOf(cs)[k..] == TextOf(cs[i..])
  {
    if k == 0 {
      i := 0;
      assert cs[0..] == cs && TextOf(cs)[0..] == TextOf(cs);
    } else {
      var head, rest := Encode(cs[0]), TextOf(cs[1..]);
      NotInside(cs[0], rest, k);
      PastHead(head, rest, k);
      var j := Starts(cs[1..], k - |head|);
      i := j + 1;
      assert cs[i..] == cs[1..][j..];
    }
  }

  lemma FirstStarts(cs: seq<nat>)
    requires Codes(cs) && cs != []
    ensures |TextOf(cs)| > 0 && !Tail(TextOf(cs)[0])
  {
  }

  lemma AtOccurrence(part: seq<Byte>, text: seq<Byte>, k: nat)
    requires part != [] && OccursAt(part, text, k)
    ensures k < |text| && text[k] == part[0] && text[k..] == part + text[k + |part|..]
  {
    assert text[k] == text[k..k + |part|][0];
    assert text[k..] == text[k..k + |part|] + text[k + |part|..];
  }

  // So letters are found in a text only where they stand.
  lemma LettersFound(part: seq<nat>, text: seq<nat>, k: nat) returns (i: nat)
    requires Codes(part) && Codes(text) && OccursAt(TextOf(part), TextOf(text), k)
    ensures i + |part| <= |text| && text[i..][..|part|] == part
  {
    if part == [] {
      i := 0;
    } else {
      var s, p := TextOf(text), TextOf(part);
      FirstStarts(part);
      AtOccurrence(p, s, k);
      i := Starts(text, k);
      TextPrefix(part, text[i..], s[k + |p|..]);
    }
  }

  lemma LettersOccur(part: seq<nat>, before: seq<nat>, after: seq<nat>)
    requires Codes(part) && Codes(before) && Codes(after)
    ensures Codes(before + part + after) && Occurs(TextOf(part), TextOf(before + part + after))
  {
    TextConcat(before, part);
    TextConcat(before + part, after);
    assert OccursAt(TextOf(part), TextOf(before + part + after), |TextOf(before)|);
  }

  // ---- folding alike ----

  // One letter in two forms.
  ghost predicate SameLetter(c: nat, d: nat) { exists l: nat :: Plain(c, l) && Plain(d, l) }

  // The same text up to case, accents and combining marks.
  ghost predicate Alike(a: seq<nat>, b: seq<nat>)
  {
    |Bare(a)| == |Bare(b)| && forall i :: 0 <= i < |Bare(a)| ==> SameLetter(Bare(a)[i], Bare(b)[i])
  }

  lemma SameLetterIff(c: nat, d: nat)
    ensures SameLetter(c, d) <==> FoldCodePoint(c) == FoldCodePoint(d)
  {
    FoldIsPlain(c, FoldCodePoint(c));
    FoldIsPlain(d, FoldCodePoint(c));
    if l: nat :| Plain(c, l) && Plain(d, l) {
      FoldIsPlain(c, l);
      FoldIsPlain(d, l);
    }
  }

  // A capital and its small letter are one letter, accented or not.
  lemma CaseIsNoDifference(c: nat, d: nat)
    requires CapitalOf(c, d) || Accented(c, d)
    ensures SameLetter(c, d)
  {
    SameLetterIff(c, d);
    if Accented(c, d) {
      AccentFolds(c, d);
    } else {
      CapitalPair(c, d);
    }
  }

  lemma CapitalPair(c: nat, small: nat)
    requires CapitalOf(c, small)
    ensures FoldCodePoint(c) == FoldCodePoint(small)
  {
    if 0x100 <= c < 0x140 { LowerPair(c, small); } else if 0x140 <= c < 0x180 { UpperPair(c, small); }
  }

  lemma LowerPair(c: nat, small: nat)
    requires CapitalOf(c, small) && 0x100 <= c < 0x140
    ensures FoldCodePoint(c) == FoldCodePoint(small)
  {
  }

  lemma UpperPair(c: nat, small: nat)
    requires CapitalOf(c, small) && 0x140 <= c < 0x180
    ensures FoldCodePoint(c) == FoldCodePoint(small)
  {
  }

  lemma AlikeIff(a: seq<nat>, b: seq<nat>)
    ensures Alike(a, b) <==> Plains(a) == Plains(b)
  {
    var x, y := Bare(a), Bare(b);
    PlainsAreBare(a);
    PlainsAreBare(b);
    forall i | 0 <= i < |x| && i < |y| ensures SameLetter(x[i], y[i]) <==> Plains(a)[i] == Plains(b)[i] {
      SameLetterIff(x[i], y[i]);
    }
  }

  // Two texts fold alike exactly when they are the same up to case, accents
  // and combining marks.
  lemma FoldAlikeIff(a: seq<nat>, b: seq<nat>)
    requires Codes(a) && Codes(b)
    ensures Fold(TextOf(a)) == Fold(TextOf(b)) <==> Alike(a, b)
  {
    FoldOfText(a);
    FoldOfText(b);
    AlikeIff(a, b);
    if Fold(TextOf(a)) == Fold(TextOf(b)) { TextIsInjective(Plains(a), Plains(b)); }
  }

  // A folded text has no capital, no accented letter and no combining mark.
  lemma FoldedIsPlain(cs: seq<nat>) returns (ds: seq<nat>)
    requires Codes(cs)
    ensures Codes(ds) && Fold(TextOf(cs)) == TextOf(ds)
    ensures forall i :: 0 <= i < |ds| ==> !Mark(ds[i]) && !IsCapital(ds[i]) && !HasAccent(ds[i])
  {
    ds := Plains(cs);
    FoldOfText(cs);
    PlainsAreBare(cs);
    forall i | 0 <= i < |ds| ensures !IsCapital(ds[i]) && !HasAccent(ds[i]) { FoldedLetter(Bare(cs)[i]); }
  }

  lemma FoldedLetter(c: nat)
    ensures !IsCapital(FoldCodePoint(c)) && !HasAccent(FoldCodePoint(c))
  {
    var d := FoldCodePoint(c);
    CodePointTwice(c);
    FoldIsPlain(d, d);
  }

  lemma Assoc<T>(x: seq<T>, y: seq<T>, z: seq<T>)
    ensures (x + y) + z == x + (y + z)
  {
  }

  lemma HeadOfConcat<T>(a: seq<T>, b: seq<T>)
    requires a != []
    ensures (a + b)[0] == a[0] && (a + b)[1..] == a[1..] + b
  {
  }

  lemma {:induction false} PlainsConcat(a: seq<nat>, b: seq<nat>)
    ensures Plains(a + b) == Plains(a) + Plains(b)
  {
    if a == [] {
      assert a + b == b;
    } else {
      HeadOfConcat(a, b);
      PlainsHead(a + b);
      PlainsHead(a);
      PlainsConcat(a[1..], b);
      Assoc(PlainsOf(a[0]), Plains(a[1..]), Plains(b));
    }
  }

  lemma PlainsHead(cs: seq<nat>)
    requires cs != []
    ensures Plains(cs) == PlainsOf(cs[0]) + Plains(cs[1..])
  {
  }

  lemma CutAfterHead<T>(cs: seq<T>, j: nat)
    requires j < |cs|
    ensures cs[j + 1..] == cs[1..][j..] && cs[..j + 1][0] == cs[0] && cs[..j + 1][1..] == cs[1..][..j]
  {
  }

  lemma CutAfter<T>(head: seq<T>, rest: seq<T>, k: nat)
    requires k <= |rest|
    ensures (head + rest)[..|head| + k] == head + rest[..k] && (head + rest)[|head| + k..] == rest[k..]
  {
  }

  // Where a letter that is left stood in the text.
  lemma {:induction false} PlainsCut(cs: seq<nat>, k: nat) returns (i: nat)
    requires k <= |Plains(cs)|
    ensures i <= |cs| && Plains(cs[..i]) == Plains(cs)[..k] && Plains(cs[i..]) == Plains(cs)[k..]
  {
    if k == 0 {
      i := 0;
      assert cs[0..] == cs;
    } else {
      var rest := cs[1..];
      var head := PlainsOf(cs[0]);
      PlainsHead(cs);
      var j := PlainsCut(rest, k - |head|);
      i := j + 1;
      CutAfterHead(cs, j);
      PlainsHead(cs[..i]);
      CutAfter(head, Plains(rest), k - |head|);
    }
  }

  lemma PlainsSlice(cs: seq<nat>, k: nat, n: nat) returns (i: nat, j: nat)
    requires k + n <= |Plains(cs)|
    ensures i <= j <= |cs| && Plains(cs[i..j]) == Plains(cs)[k..][..n]
  {
    i := PlainsCut(cs, k);
    var m := PlainsCut(cs[i..], n);
    j := i + m;
    assert cs[i..j] == cs[i..][..m];
  }

  lemma SliceCodes(cs: seq<nat>, i: nat, j: nat)
    requires Codes(cs) && i <= j <= |cs|
    ensures Codes(cs[..i]) && Codes(cs[i..j]) && Codes(cs[j..])
  {
  }

  lemma AlikeIsFound(part: seq<nat>, text: seq<nat>, i: nat, j: nat)
    requires Codes(part) && Codes(text) && i <= j <= |text| && Alike(part, text[i..j])
    ensures Occurs(Fold(TextOf(part)), Fold(TextOf(text)))
  {
    var before, mid, after := text[..i], text[i..j], text[j..];
    SliceCodes(text, i, j);
    assert text == before + mid + after;
    PlainsConcat(before, mid);
    PlainsConcat(before + mid, after);
    AlikeIff(part, mid);
    FoldOfText(part);
    FoldOfText(text);
    LettersOccur(Plains(mid), Plains(before), Plains(after));
  }

  lemma FoundIsAlike(part: seq<nat>, text: seq<nat>) returns (i: nat, j: nat)
    requires Codes(part) && Codes(text) && Occurs(Fold(TextOf(part)), Fold(TextOf(text)))
    ensures i <= j <= |text| && Alike(part, text[i..j])
  {
    FoldOfText(part);
    FoldOfText(text);
    var k: nat :| k <= |Fold(TextOf(text))| && OccursAt(Fold(TextOf(part)), Fold(TextOf(text)), k);
    var at := LettersFound(Plains(part), Plains(text), k);
    i, j := PlainsSlice(text, at, |Plains(part)|);
    AlikeIff(part, text[i..j]);
  }

  // A folded fragment occurs in a folded text exactly when some stretch of
  // the text is the fragment up to case, accents and combining marks.
  lemma FoundIff(part: seq<nat>, text: seq<nat>)
    requires Codes(part) && Codes(text)
    ensures Occurs(Fold(TextOf(part)), Fold(TextOf(text)))
       <==> exists i, j :: 0 <= i <= j <= |text| && Alike(part, text[i..j])
  {
    if Occurs(Fold(TextOf(part)), Fold(TextOf(text))) {
      var i, j := FoundIsAlike(part, text);
    } else if i, j :| 0 <= i <= j <= |text| && Alike(part, text[i..j]) {
      AlikeIsFound(part, text, i, j);
    }
  }

  lemma Around(before: seq<nat>, mid: seq<nat>, after: seq<nat>)
    ensures Plains(before + mid + after) == Plains(before) + Plains(mid) + Plains(after)
  {
    PlainsConcat(before + mid, after);
    PlainsConcat(before, mid);
  }

  lemma SamePlains(a: seq<nat>, b: seq<nat>)
    requires Codes(a) && Codes(b) && Plains(a) == Plains(b)
    ensures Fold(TextOf(a)) == Fold(TextOf(b))
  {
    FoldOfText(a);
    FoldOfText(b);
  }

  lemma CodesAround(before: seq<nat>, x: seq<nat>, after: seq<nat>)
    requires Codes(before) && Codes(x) && Codes(after)
    ensures Codes(before + x + after)
  {
  }

  lemma SameAround(before: seq<nat>, x: seq<nat>, y: seq<nat>, after: seq<nat>)
    requires Codes(before) && Codes(x) && Codes(y) && Codes(after) && Plains(x) == Plains(y)
    ensures Codes(before + x + after) && Codes(before + y + after)
    ensures Fold(TextOf(before + x + after)) == Fold(TextOf(before + y + after))
  {
    CodesAround(before, x, after);
    CodesAround(before, y, after);
    Around(before, x, after);
    Around(before, y, after);
    SamePlains(before + x + after, before + y + after);
  }

  lemma PlainOfAccented(c: nat, base: nat, mark: nat)
    requires Accented(c, base) && Mark(mark)
    ensures Plains([c]) == [base] == Plains([base]) == Plains([base, mark])
  {
    AccentFolds(c, base);
    assert [base, mark][1..] == [mark] && Plains([mark]) == [];
  }

  lemma AccentIsSmall(c: nat, base: nat, mark: nat)
    requires Accented(c, base) && Mark(mark)
    ensures c <= MAX_CODE && base <= MAX_CODE && Codes([c]) && Codes([base]) && Codes([base, mark])
  {
    AccentFolds(c, base);
  }

  // An accent may be part of the letter, follow it as a mark, or be missing.
  lemma AccentEitherWay(before: seq<nat>, c: nat, base: nat, mark: nat, after: seq<nat>)
    requires Codes(before) && Codes(after) && Accented(c, base) && Mark(mark)
    ensures base <= MAX_CODE && c <= MAX_CODE
    ensures var composed, plain := TextOf(before + [c] + after), TextOf(before + [base] + after);
            Fold(composed) == Fold(plain) == Fold(TextOf(before + [base, mark] + after))
  {
    PlainOfAccented(c, base, mark);
    AccentIsSmall(c, base, mark);
    SameAround(before, [c], [base], after);
    SameAround(before, [base], [base, mark], after);
  }

  // Bytes that are no text are kept: a stray one, and a cut-off character.
  lemma OddBytesStay(b: Byte, rest: seq<Byte>)
    ensures LeadLen(b) == 0 ==> Fold([b] + rest) == [b] + Fold(rest)
    ensures LeadLen(b) > 1 + |rest| ==> Fold([b] + rest) == [b] + rest
  {
    var s := [b] + rest;
    if LeadLen(b) == 0 { StrayStays(b, rest); }
    if LeadLen(b) > |s| { assert s[..|s|] == s && s[|s|..] == []; }
  }

  // A search for a folded fragment takes a message with no plain file name
  // exactly if some stretch of its text is the fragment in that sense.
  lemma FragmentIff(db: Db, m: Message, part: seq<nat>, text: seq<nat>)
    requires Codes(part) && Codes(text) && m.content == TextOf(text)
    requires forall a :: a in db.attachments && a.messageId == m.id ==> a.encrypted
    ensures HasFragment(db, m, Fold(TextOf(part))) <==> exists i, j :: 0 <= i <= j <= |text| && Alike(part, text[i..j])
  {
    FoundIff(part, text);
  }
}
