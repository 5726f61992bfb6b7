// The display order of channels: nearest category above, and the
// "text above voice in each category block" normal form.
module ChannelOrder {
  import opened Options

  type ChannelId = string

  datatype Kind = Text | Voice | Category

  // The `type` column of the channels table.
  type Kinds = map<ChannelId, Kind>

  const NO_CATEGORY: ChannelId := ""

  predicate IsCategory(kinds: Kinds, id: ChannelId) { id in kinds && kinds[id].Category? }

  predicate NoCategory(order: seq<ChannelId>, kinds: Kinds)
  {
    forall i :: 0 <= i < |order| ==> !IsCategory(kinds, order[i])
  }

  predicate Distinct(order: seq<ChannelId>)
  {
    forall i, j :: 0 <= i < j < |order| ==> order[i] != order[j]
  }

  function Ids(order: seq<ChannelId>): set<ChannelId> { set c | c in order }

  // Blocks, text first: no text channel right below a voice channel.
  predicate Normal(order: seq<ChannelId>, kinds: Kinds)
  {
    forall i :: 0 < i < |order| && order[i] in kinds && kinds[order[i]].Text? ==> order[i - 1] in kinds && !kinds[order[i - 1]].Voice?
  }

  // The category a row belongs to when `above` is the last category before
  // `order`: "" for a category, for an unlisted id, and above the first one.
  function ParentIn(order: seq<ChannelId>, kinds: Kinds, id: ChannelId, above: ChannelId): ChannelId
  {
    if order == [] then NO_CATEGORY
    else if order[0] == id then if IsCategory(kinds, id) then NO_CATEGORY else above
    else ParentIn(order[1..], kinds, id, if IsCategory(kinds, order[0]) then order[0] else above)
  }

  function LastCategory(order: seq<ChannelId>, kinds: Kinds, above: ChannelId): ChannelId
  {
    if order == [] then above
    else LastCategory(order[1..], kinds, if IsCategory(kinds, order[0]) then order[0] else above)
  }

  // The rows of one kind, in their order.
  function OfKind(order: seq<ChannelId>, kinds: Kinds, kind: Kind): (r: seq<ChannelId>)
    ensures forall id :: id in r <==> id in order && id in kinds && kinds[id] == kind
  {
    if order == [] then []
    else (if order[0] in kinds && kinds[order[0]] == kind then [order[0]] else []) + OfKind(order[1..], kinds, kind)
  }

  // One category block (no header): its text channels, then its voice ones.
  function Block(rows: seq<ChannelId>, kinds: Kinds): seq<ChannelId>
  {
    OfKind(rows, kinds, Text) + OfKind(rows, kinds, Voice)
  }

  // The list in normal form, given the rows of the block being read; category
  // headers delimit the blocks and stay where they are.
  function NormalizeFrom(block: seq<ChannelId>, order: seq<ChannelId>, kinds: Kinds): seq<ChannelId>
    decreases |order|
  {
    if order == [] then Block(block, kinds)
    else if IsCategory(kinds, order[0]) then Block(block, kinds) + ([order[0]] + NormalizeFrom([], order[1..], kinds))
    else NormalizeFrom(block + [order[0]], order[1..], kinds)
  }

  function Normalize(order: seq<ChannelId>, kinds: Kinds): seq<ChannelId> { NormalizeFrom([], order, kinds) }

  // ---- parents ----

  lemma {:induction false} ParentAppend(a: seq<ChannelId>, b: seq<ChannelId>, kinds: Kinds, id: ChannelId, above: ChannelId)
    ensures ParentIn(a + b, kinds, id, above) ==
            if id in a then ParentIn(a, kinds, id, above) else ParentIn(b, kinds, id, LastCategory(a, kinds, above))
    ensures LastCategory(a + b, kinds, above) == LastCategory(b, kinds, LastCategory(a, kinds, above))
  {
    if a == [] {
      assert a + b == b;
    } else {
      assert (a + b)[1..] == a[1..] + b;
      ParentAppend(a[1..], b, kinds, id, if IsCategory(kinds, a[0]) then a[0] else above);
    }
  }

  lemma {:induction false} ParentInBlock(rows: seq<ChannelId>, kinds: Kinds, id: ChannelId, above: ChannelId)
    requires NoCategory(rows, kinds)
    ensures ParentIn(rows, kinds, id, above) == if id in rows then above else NO_CATEGORY
    ensures LastCategory(rows, kinds, above) == above
  {
    if rows != [] {
      ParentInBlock(rows[1..], kinds, id, above);
    }
  }

  // A parent is a listed category, or none.
  lemma {:induction false} ParentIsCategory(order: seq<ChannelId>, kinds: Kinds, id: ChannelId, above: ChannelId)
    ensures var p := ParentIn(order, kinds, id, above);
            p == NO_CATEGORY || p == above || (p in order && IsCategory(kinds, p))
    ensures id !in order || IsCategory(kinds, id) ==> ParentIn(order, kinds, id, above) == NO_CATEGORY
  {
    if order != [] && order[0] != id {
      ParentIsCategory(order[1..], kinds, id, if IsCategory(kinds, order[0]) then order[0] else above);
    }
  }

  // Only the kinds of listed rows matter.
  lemma {:induction false} ParentFrame(order: seq<ChannelId>, kinds: Kinds, kinds': Kinds, id: ChannelId, above: ChannelId)
    requires forall c :: c in order ==> IsCategory(kinds, c) == IsCategory(kinds', c)
    ensures ParentIn(order, kinds, id, above) == ParentIn(order, kinds', id, above)
    ensures LastCategory(order, kinds, above) == LastCategory(order, kinds', above)
  {
    if order != [] {
      ParentFrame(order[1..], kinds, kinds', id, if IsCategory(kinds, order[0]) then order[0] else above);
    }
  }

  // ---- normalisation ----

  lemma OneMore<T>(x: T, a: seq<T>, b: seq<T>, rest: seq<T>, whole: seq<T>)
    requires multiset(a + b) == multiset(rest) && (whole == ([x] + a) + b || whole == a + ([x] + b))
    ensures multiset(whole) == multiset([x] + rest)
  {
    assert multiset([x] + a) == multiset{x} + multiset(a) && multiset([x] + b) == multiset{x} + multiset(b);
  }

  lemma FirstOfBlock(rows: seq<ChannelId>, kinds: Kinds)
    requires rows != [] && rows[0] in kinds && !IsCategory(kinds, rows[0])
    ensures var text, voice := OfKind(rows[1..], kinds, Text), OfKind(rows[1..], kinds, Voice);
            Block(rows, kinds) == ([rows[0]] + text) + voice || Block(rows, kinds) == text + ([rows[0]] + voice)
  {
  }

  lemma BlockStep(rows: seq<ChannelId>, kinds: Kinds, first: ChannelId, rest: seq<ChannelId>)
    requires rows == [first] + rest && first in kinds && !IsCategory(kinds, first)
    requires multiset(Block(rest, kinds)) == multiset(rest)
    ensures multiset(Block(rows, kinds)) == multiset(rows)
  {
    assert rows[1..] == rest;
    FirstOfBlock(rows, kinds);
    OneMore(first, OfKind(rest, kinds, Text), OfKind(rest, kinds, Voice), rest, Block(rows, kinds));
  }

  lemma {:induction false} BlockIsPermutation(rows: seq<ChannelId>, kinds: Kinds)
    requires NoCategory(rows, kinds)
    requires forall c :: c in rows ==> c in kinds
    ensures multiset(Block(rows, kinds)) == multiset(rows)
  {
    if rows != [] {
      assert !IsCategory(kinds, rows[0]);
      BlockIsPermutation(rows[1..], kinds);
      BlockStep(rows, kinds, rows[0], rows[1..]);
    }
  }

  lemma BlockFacts(rows: seq<ChannelId>, kinds: Kinds)
    requires NoCategory(rows, kinds)
    requires forall c :: c in rows ==> c in kinds
    ensures NoCategory(Block(rows, kinds), kinds)
    ensures |Block(rows, kinds)| == |rows|
    ensures forall id :: id in Block(rows, kinds) <==> id in rows
  {
    BlockIsPermutation(rows, kinds);
    var block := Block(rows, kinds);
    assert |multiset(block)| == |block| && |multiset(rows)| == |rows|;
    forall id ensures id in block <==> id in rows {
      assert id in block <==> id in multiset(block);
      assert id in rows <==> id in multiset(rows);
    }
  }

  // One step of the walk: a header closes the block, any other row joins it.
  lemma Snoc(block: seq<ChannelId>, order: seq<ChannelId>)
    requires order != []
    ensures block + order == (block + [order[0]]) + order[1..]
    ensures block + order == block + ([order[0]] + order[1..])
  {
  }

  // Normalising moves no channel to another category.
  lemma {:induction false} NormalizeKeepsParents(block: seq<ChannelId>, order: seq<ChannelId>, kinds: Kinds, id: ChannelId, above: ChannelId)
    requires forall c :: c in block || c in order ==> c in kinds
    requires NoCategory(block, kinds)
    ensures ParentIn(NormalizeFrom(block, order, kinds), kinds, id, above) == ParentIn(block + order, kinds, id, above)
    decreases |order|
  {
    BlockFacts(block, kinds);
    ParentInBlock(block, kinds, id, above);
    ParentInBlock(Block(block, kinds), kinds, id, above);
    ParentAppend(block, order, kinds, id, above);
    if order == [] {
      assert block + order == block;
    } else if IsCategory(kinds, order[0]) {
      var rest := NormalizeFrom([], order[1..], kinds);
      ParentAppend(Block(block, kinds), [order[0]] + rest, kinds, id, above);
      NormalizeKeepsParents([], order[1..], kinds, id, order[0]);
      assert [] + order[1..] == order[1..];
      assert ([order[0]] + rest)[1..] == rest;
    } else {
      Snoc(block, order);
      NormalizeKeepsParents(block + [order[0]], order[1..], kinds, id, above);
    }
  }

  // The same rows, each as often: nothing is duplicated or dropped.
  lemma {:induction false} NormalizeIsPermutation(block: seq<ChannelId>, order: seq<ChannelId>, kinds: Kinds)
    requires forall c :: c in block || c in order ==> c in kinds
    requires NoCategory(block, kinds)
    ensures multiset(NormalizeFrom(block, order, kinds)) == multiset(block + order)
    decreases |order|
  {
    if order == [] {
      BlockIsPermutation(block, kinds);
      assert block + order == block;
    } else if IsCategory(kinds, order[0]) {
      BlockIsPermutation(block, kinds);
      NormalizeIsPermutation([], order[1..], kinds);
      assert [] + order[1..] == order[1..];
      Snoc(block, order);
    } else {
      Snoc(block, order);
      NormalizeIsPermutation(block + [order[0]], order[1..], kinds);
    }
  }

  // A set of the ids is as large as the list exactly when none repeats.
  lemma {:induction false} IdsCount(order: seq<ChannelId>)
    ensures |Ids(order)| <= |order|
    ensures |Ids(order)| == |order| <==> Distinct(order)
  {
    if order != [] {
      var rest := order[1..];
      IdsCount(rest);
      assert Ids(order) == Ids(rest) + {order[0]};
      assert order[0] in rest <==> order[0] in Ids(rest);
      assert Distinct(order) <==> Distinct(rest) && order[0] !in rest by {
        if Distinct(rest) && order[0] !in rest {
          forall i, j | 0 <= i < j < |order| ensures order[i] != order[j] {
            assert order[j] == rest[j - 1] && (i > 0 ==> order[i] == rest[i - 1]);
          }
        }
      }
    } else {
      assert Ids(order) == {};
    }
  }

  lemma DistinctMultiset(order: seq<ChannelId>)
    ensures Distinct(order) <==> forall c :: multiset(order)[c] <= 1
  {
    if !Distinct(order) {
      var i, j :| 0 <= i < j < |order| && order[i] == order[j];
      assert order == order[..j] + [order[j]] + order[j + 1..];
      assert order[..j][i] == order[j];
      assert multiset(order)[order[j]] >= 2;
    } else {
      forall c ensures multiset(order)[c] <= 1 { OnceWhenDistinct(order, c); }
    }
  }

  lemma {:induction false} OnceWhenDistinct(order: seq<ChannelId>, c: ChannelId)
    requires Distinct(order)
    ensures multiset(order)[c] <= 1
  {
    if order != [] {
      OnceWhenDistinct(order[1..], c);
      assert order == [order[0]] + order[1..];
      if order[0] == c {
        assert c !in order[1..];
        assert multiset(order[1..])[c] == 0;
      }
    }
  }

  // The facts later steps need about a whole normalised list.
  lemma NormalizeFacts(order: seq<ChannelId>, kinds: Kinds)
    requires forall c :: c in order ==> c in kinds
    requires Distinct(order)
    ensures Distinct(Normalize(order, kinds))
    ensures |Normalize(order, kinds)| == |order|
    ensures forall c :: c in Normalize(order, kinds) <==> c in order
    ensures forall c :: ParentIn(Normalize(order, kinds), kinds, c, NO_CATEGORY) == ParentIn(order, kinds, c, NO_CATEGORY)
    ensures Normal(Normalize(order, kinds), kinds)
  {
    var n := Normalize(order, kinds);
    NormalizeIsNormal([], order, kinds);
    assert [] + order == order;
    NormalizeIsPermutation([], order, kinds);
    DistinctMultiset(order);
    DistinctMultiset(n);
    assert |multiset(n)| == |n| && |multiset(order)| == |order|;
    forall c
      ensures c in n <==> c in order
      ensures ParentIn(n, kinds, c, NO_CATEGORY) == ParentIn(order, kinds, c, NO_CATEGORY)
    {
      assert c in n <==> c in multiset(n);
      assert c in order <==> c in multiset(order);
      NormalizeKeepsParents([], order, kinds, c, NO_CATEGORY);
    }
  }

  lemma {:induction false} OfKindOfKind(order: seq<ChannelId>, kinds: Kinds, kind: Kind, other: Kind)
    requires forall c :: c in order ==> c in kinds && kinds[c] == kind
    ensures OfKind(order, kinds, other) == if other == kind then order else []
  {
    if order != [] {
      OfKindOfKind(order[1..], kinds, kind, other);
    }
  }

  lemma {:induction false} OfKindAppend(a: seq<ChannelId>, b: seq<ChannelId>, kinds: Kinds, kind: Kind)
    ensures OfKind(a + b, kinds, kind) == OfKind(a, kinds, kind) + OfKind(b, kinds, kind)
  {
    if a == [] {
      assert a + b == b;
    } else {
      assert (a + b)[1..] == a[1..] + b;
      OfKindAppend(a[1..], b, kinds, kind);
    }
  }

  lemma OfKindOfBlock(rows: seq<ChannelId>, kinds: Kinds, kind: Kind)
    ensures OfKind(Block(rows, kinds), kinds, kind) == if kind.Category? then [] else OfKind(rows, kinds, kind)
  {
    var text, voice := OfKind(rows, kinds, Text), OfKind(rows, kinds, Voice);
    OfKindAppend(text, voice, kinds, kind);
    OfKindOfKind(text, kinds, Text, kind);
    OfKindOfKind(voice, kinds, Voice, kind);
  }

  lemma NoHeaders(block: seq<ChannelId>, kinds: Kinds)
    requires NoCategory(block, kinds)
    ensures OfKind(block, kinds, Category) == []
  {
    FirstIn(OfKind(block, kinds, Category));
  }

  lemma HeaderStays(block: seq<ChannelId>, order: seq<ChannelId>, rest: seq<ChannelId>, kinds: Kinds, kind: Kind)
    requires order != [] && OfKind(rest, kinds, kind) == OfKind(order[1..], kinds, kind)
    requires OfKind(Block(block, kinds), kinds, kind) == OfKind(block, kinds, kind)
    ensures OfKind(Block(block, kinds) + ([order[0]] + rest), kinds, kind) == OfKind(block + order, kinds, kind)
  {
    OfKindAppend(block, order, kinds, kind);
    OfKindAppend(Block(block, kinds), [order[0]] + rest, kinds, kind);
    assert ([order[0]] + rest)[1..] == rest;
  }

  // Text channels keep their order among themselves, and so do voice channels
  // and categories.
  lemma {:induction false} NormalizeIsStable(block: seq<ChannelId>, order: seq<ChannelId>, kinds: Kinds, kind: Kind)
    requires forall c :: c in block || c in order ==> c in kinds
    requires NoCategory(block, kinds)
    ensures OfKind(NormalizeFrom(block, order, kinds), kinds, kind) == OfKind(block + order, kinds, kind)
    decreases |order|
  {
    OfKindOfBlock(block, kinds, kind);
    NoHeaders(block, kinds);
    if order == [] {
      assert block + order == block;
    } else if IsCategory(kinds, order[0]) {
      var rest := NormalizeFrom([], order[1..], kinds);
      NormalizeIsStable([], order[1..], kinds, kind);
      assert [] + order[1..] == order[1..];
      HeaderStays(block, order, rest, kinds, kind);
    } else {
      Snoc(block, order);
      NormalizeIsStable(block + [order[0]], order[1..], kinds, kind);
    }
  }

  // Every category header keeps its index.
  lemma {:induction false} NormalizeKeepsHeader(block: seq<ChannelId>, order: seq<ChannelId>, kinds: Kinds, i: nat)
    requires forall c :: c in block || c in order ==> c in kinds
    requires NoCategory(block, kinds)
    requires i < |order| && IsCategory(kinds, order[i])
    ensures |NormalizeFrom(block, order, kinds)| > |block| + i
    ensures NormalizeFrom(block, order, kinds)[|block| + i] == order[i]
    decreases |order|
  {
    BlockFacts(block, kinds);
    if i > 0 {
      assert order[i] == order[1..][i - 1];
      if IsCategory(kinds, order[0]) {
        var rest := NormalizeFrom([], order[1..], kinds);
        NormalizeKeepsHeader([], order[1..], kinds, i - 1);
        assert (Block(block, kinds) + ([order[0]] + rest))[|block| + i] == rest[i - 1];
      } else {
        NormalizeKeepsHeader(block + [order[0]], order[1..], kinds, i - 1);
      }
    }
  }

  lemma BlockNormal(rows: seq<ChannelId>, kinds: Kinds)
    ensures Normal(Block(rows, kinds), kinds)
  {
    var text, voice := OfKind(rows, kinds, Text), OfKind(rows, kinds, Voice);
    var block := text + voice;
    forall i | 0 < i < |block| && block[i] in kinds && kinds[block[i]].Text?
      ensures block[i - 1] in kinds && !kinds[block[i - 1]].Voice?
    {
      assert block[i] !in voice;
      assert i < |text|;
      assert block[i - 1] in text;
    }
  }

  // Text above voice within every block.
  lemma {:induction false} NormalizeIsNormal(block: seq<ChannelId>, order: seq<ChannelId>, kinds: Kinds)
    ensures Normal(NormalizeFrom(block, order, kinds), kinds)
    decreases |order|
  {
    BlockNormal(block, kinds);
    if order != [] {
      if IsCategory(kinds, order[0]) {
        NormalizeIsNormal([], order[1..], kinds);
      } else {
        NormalizeIsNormal(block + [order[0]], order[1..], kinds);
      }
    }
  }

  // A block already in order is left alone.
  lemma {:induction false} NormalBlock(rows: seq<ChannelId>, kinds: Kinds)
    requires NoCategory(rows, kinds) && Normal(rows, kinds)
    requires forall c :: c in rows ==> c in kinds
    ensures Block(rows, kinds) == rows
  {
    if rows != [] {
      assert !IsCategory(kinds, rows[0]);
      NormalBlock(rows[1..], kinds);
      if kinds[rows[0]].Voice? {
        VoiceBlock(rows, kinds);
      }
    }
  }

  lemma {:induction false} VoiceBlock(rows: seq<ChannelId>, kinds: Kinds)
    requires NoCategory(rows, kinds) && Normal(rows, kinds)
    requires rows != [] && forall c :: c in rows ==> c in kinds
    requires kinds[rows[0]].Voice?
    ensures OfKind(rows, kinds, Text) == []
    ensures OfKind(rows, kinds, Voice) == rows
  {
    if |rows| > 1 {
      assert !IsCategory(kinds, rows[1]);
      assert rows[1] in rows;
      VoiceBlock(rows[1..], kinds);
    }
  }

  lemma NormalParts(a: seq<ChannelId>, b: seq<ChannelId>, kinds: Kinds)
    requires Normal(a + b, kinds)
    ensures Normal(a, kinds) && Normal(b, kinds)
  {
    var s := a + b;
    forall i | 0 < i < |a| && a[i] in kinds && kinds[a[i]].Text? ensures a[i - 1] in kinds && !kinds[a[i - 1]].Voice? {
      assert s[i] == a[i] && s[i - 1] == a[i - 1];
    }
    forall i | 0 < i < |b| && b[i] in kinds && kinds[b[i]].Text? ensures b[i - 1] in kinds && !kinds[b[i - 1]].Voice? {
      assert s[|a| + i] == b[i] && s[|a| + i - 1] == b[i - 1];
    }
  }

  // An order with text above voice in every block is already normal.
  lemma {:induction false} NormalIsFixed(block: seq<ChannelId>, order: seq<ChannelId>, kinds: Kinds)
    requires forall c :: c in block || c in order ==> c in kinds
    requires NoCategory(block, kinds)
    requires Normal(block + order, kinds)
    ensures NormalizeFrom(block, order, kinds) == block + order
    decreases |order|
  {
    NormalParts(block, order, kinds);
    if order == [] {
      NormalBlock(block, kinds);
      assert block + order == block;
    } else if IsCategory(kinds, order[0]) {
      NormalBlock(block, kinds);
      NormalParts([order[0]], order[1..], kinds) by {
        assert [order[0]] + order[1..] == order;
      }
      assert [] + order[1..] == order[1..];
      NormalIsFixed([], order[1..], kinds);
      Snoc(block, order);
    } else {
      Snoc(block, order);
      NormalIsFixed(block + [order[0]], order[1..], kinds);
    }
  }

  // Normalising twice is normalising once; exactly the normal lists are fixed.
  lemma NormalizeIdempotent(order: seq<ChannelId>, kinds: Kinds)
    requires forall c :: c in order ==> c in kinds
    requires Distinct(order)
    ensures Normalize(Normalize(order, kinds), kinds) == Normalize(order, kinds)
    ensures Normal(order, kinds) <==> Normalize(order, kinds) == order
  {
    var n := Normalize(order, kinds);
    NormalizeFacts(order, kinds);
    assert [] + n == n && [] + order == order;
    NormalIsFixed([], n, kinds);
    if Normal(order, kinds) {
      NormalIsFixed([], order, kinds);
    }
  }

  // A header splits the work: what is above it and what is below it are
  // normalised on their own.
  lemma {:induction false} NormalizeSplit(block: seq<ChannelId>, x: seq<ChannelId>, header: ChannelId, y: seq<ChannelId>, kinds: Kinds)
    requires IsCategory(kinds, header)
    ensures NormalizeFrom(block, x + [header] + y, kinds) == NormalizeFrom(block, x, kinds) + ([header] + NormalizeFrom([], y, kinds))
    decreases |x|
  {
    var s := x + [header] + y;
    if x == [] {
      assert s[0] == header && s[1..] == y;
    } else {
      assert s[0] == x[0] && s[1..] == x[1..] + [header] + y;
      if IsCategory(kinds, x[0]) {
        NormalizeSplit([], x[1..], header, y, kinds);
      } else {
        NormalizeSplit(block + [x[0]], x[1..], header, y, kinds);
      }
    }
  }

  lemma {:induction false} NormalizeOneBlock(block: seq<ChannelId>, rows: seq<ChannelId>, kinds: Kinds)
    requires NoCategory(rows, kinds)
    ensures NormalizeFrom(block, rows, kinds) == Block(block + rows, kinds)
    decreases |rows|
  {
    if rows == [] {
      assert block + rows == block;
    } else {
      assert !IsCategory(kinds, rows[0]);
      Snoc(block, rows);
      NormalizeOneBlock(block + [rows[0]], rows[1..], kinds);
    }
  }

  // A row added at the end of a block stays there exactly when it is a voice
  // channel or no voice channel is above it in the block.
  lemma AppendedToBlock(rows: seq<ChannelId>, id: ChannelId, kinds: Kinds)
    requires NoCategory(rows, kinds) && id in kinds && !kinds[id].Category?
    requires forall c :: c in rows ==> c in kinds
    ensures |Block(rows + [id], kinds)| == |rows| + 1
    ensures Block(rows + [id], kinds)[|rows|] == id <==> kinds[id].Voice? || OfKind(rows, kinds, Voice) == []
  {
    BlockFacts(rows, kinds);
    OfKindAppend(rows, [id], kinds, Text);
    OfKindAppend(rows, [id], kinds, Voice);
    assert OfKind([id], kinds, Text) == if kinds[id].Text? then [id] else [];
    assert OfKind([id], kinds, Voice) == if kinds[id].Voice? then [id] else [];
    var voice := OfKind(rows, kinds, Voice);
    if kinds[id].Text? && voice != [] {
      assert Block(rows + [id], kinds)[|rows|] == voice[|voice| - 1];
      assert voice[|voice| - 1] in voice;
    }
  }

  // The first block of a list is normalised on its own.
  lemma FirstBlock(rows: seq<ChannelId>, rest: seq<ChannelId>, kinds: Kinds)
    requires NoCategory(rows, kinds)
    requires rest != [] ==> IsCategory(kinds, rest[0])
    ensures Block(rows, kinds) <= Normalize(rows + rest, kinds)
  {
    NormalizeOneBlock([], rows, kinds);
    assert [] + rows == rows;
    if rest == [] {
      assert rows + rest == rows;
    } else {
      NormalizeSplit([], rows, rest[0], rest[1..], kinds);
      assert rows + rest == rows + [rest[0]] + rest[1..];
    }
  }

  // What is below a header does not depend on what is above it.
  lemma BelowHeader(above: seq<ChannelId>, header: ChannelId, below: seq<ChannelId>, kinds: Kinds, i: nat)
    requires IsCategory(kinds, header)
    requires forall c :: c in above || c in below ==> c in kinds
    requires i < |below|
    ensures |Normalize(above + [header] + below, kinds)| == |above| + 1 + |below|
    ensures |Normalize(below, kinds)| == |below|
    ensures Normalize(above + [header] + below, kinds)[|above| + 1 + i] == Normalize(below, kinds)[i]
  {
    NormalizeSplit([], above, header, below, kinds);
    WholeLength(above, kinds);
    WholeLength(below, kinds);
  }

  lemma AppendedToFirstBlock(rows: seq<ChannelId>, id: ChannelId, rest: seq<ChannelId>, kinds: Kinds)
    requires NoCategory(rows, kinds) && id in kinds && !kinds[id].Category?
    requires forall c :: c in rows ==> c in kinds
    requires rest != [] ==> IsCategory(kinds, rest[0])
    ensures |Normalize(rows + [id] + rest, kinds)| > |rows|
    ensures Normalize(rows + [id] + rest, kinds)[|rows|] == id <==> kinds[id].Voice? || OfKind(rows, kinds, Voice) == []
  {
    AppendedToBlock(rows, id, kinds);
    FirstBlock(rows + [id], rest, kinds);
  }

  // The same inside a whole list: a channel inserted at the end of the block
  // `rows` is at that index of the normalised list exactly then.
  lemma InsertedIndex(above: seq<ChannelId>, rows: seq<ChannelId>, id: ChannelId, rest: seq<ChannelId>, kinds: Kinds)
    requires NoCategory(rows, kinds) && id in kinds && !kinds[id].Category?
    requires forall c :: c in above || c in rows || c in rest ==> c in kinds
    requires above != [] ==> IsCategory(kinds, above[|above| - 1])
    requires rest != [] ==> IsCategory(kinds, rest[0])
    ensures |Normalize(above + rows + [id] + rest, kinds)| > |above + rows|
    ensures Normalize(above + rows + [id] + rest, kinds)[|above + rows|] == id <==>
            kinds[id].Voice? || OfKind(rows, kinds, Voice) == []
  {
    var tail := rows + [id] + rest;
    AppendedToFirstBlock(rows, id, rest, kinds);
    assert above + rows + [id] + rest == above + tail;
    if above == [] {
      assert above + tail == tail;
    } else {
      var k := |above| - 1;
      assert above + tail == above[..k] + [above[k]] + tail;
      BelowHeader(above[..k], above[k], tail, kinds, |rows|);
    }
  }

  lemma WholeLength(order: seq<ChannelId>, kinds: Kinds)
    requires forall c :: c in order ==> c in kinds
    ensures |Normalize(order, kinds)| == |order|
  {
    NormalizeIsPermutation([], order, kinds);
    assert [] + order == order;
    assert |multiset(Normalize(order, kinds))| == |multiset(order)|;
  }

  // What the loop has and what is left, one row on.
  lemma NextRow(rows: seq<ChannelId>, kinds: Kinds, groupStart: nat, j: nat, out: seq<ChannelId>)
    requires groupStart <= j < |rows| && NoCategory(rows[groupStart..j], kinds)
    ensures var block, left := rows[groupStart..j], NormalizeFrom(rows[groupStart..j], rows[j..], kinds);
            if IsCategory(kinds, rows[j])
            then out + left == out + Block(block, kinds) + [rows[j]] + NormalizeFrom([], rows[j + 1..], kinds)
            else left == NormalizeFrom(rows[groupStart..j + 1], rows[j + 1..], kinds) && NoCategory(rows[groupStart..j + 1], kinds)
  {
    assert rows[j..][1..] == rows[j + 1..];
    if !IsCategory(kinds, rows[j]) { assert rows[groupStart..j] + [rows[j]] == rows[groupStart..j + 1]; }
  }

  // normalize_channel_order_: the loop over rows with a group start, flushing
  // each group text first.
  method NormalizedOrder(rows: seq<ChannelId>, kinds: Kinds) returns (out: seq<ChannelId>)
    requires forall c :: c in rows ==> c in kinds
    ensures out == Normalize(rows, kinds)
  {
    out := [];
    var groupStart := 0;
    for j := 0 to |rows|
      invariant groupStart <= j
      invariant NoCategory(rows[groupStart..j], kinds)
      invariant out + NormalizeFrom(rows[groupStart..j], rows[j..], kinds) == Normalize(rows, kinds)
    {
      NextRow(rows, kinds, groupStart, j, out);
      if IsCategory(kinds, rows[j]) {
        var group := FlushGroup(rows[groupStart..j], kinds);
        out := out + group + [rows[j]];
        groupStart := j + 1;
        assert rows[groupStart..j + 1] == [];
      }
    }
    var group := FlushGroup(rows[groupStart..], kinds);
    assert rows[groupStart..] == rows[groupStart..|rows|];
    out := out + group;
  }

  lemma NextOfKind(rows: seq<ChannelId>, kinds: Kinds, kind: Kind, j: nat)
    requires j < |rows| && rows[j] in kinds
    ensures OfKind(rows[..j + 1], kinds, kind) == OfKind(rows[..j], kinds, kind) + if kinds[rows[j]] == kind then [rows[j]] else []
  {
    assert rows[..j + 1] == rows[..j] + [rows[j]];
    OfKindAppend(rows[..j], [rows[j]], kinds, kind);
  }

  // The flush_group lambda: two passes over one block.
  method FlushGroup(rows: seq<ChannelId>, kinds: Kinds) returns (group: seq<ChannelId>)
    requires NoCategory(rows, kinds)
    requires forall c :: c in rows ==> c in kinds
    ensures group == Block(rows, kinds)
  {
    group := [];
    for j := 0 to |rows|
      invariant group == OfKind(rows[..j], kinds, Text)
    {
      NextOfKind(rows, kinds, Text, j);
      if kinds[rows[j]].Text? { group := group + [rows[j]]; }
    }
    assert rows[..|rows|] == rows;
    group := FlushVoice(group, rows, kinds);
  }

  method FlushVoice(texts: seq<ChannelId>, rows: seq<ChannelId>, kinds: Kinds) returns (group: seq<ChannelId>)
    requires NoCategory(rows, kinds)
    requires forall c :: c in rows ==> c in kinds
    ensures group == texts + OfKind(rows, kinds, Voice)
  {
    group := texts;
    for j := 0 to |rows|
      invariant group == texts + OfKind(rows[..j], kinds, Voice)
    {
      NextOfKind(rows, kinds, Voice, j);
      assert !IsCategory(kinds, rows[j]);
      if !kinds[rows[j]].Text? && !kinds[rows[j]].Category? { group := group + [rows[j]]; }
    }
    assert rows[..|rows|] == rows;
  }
}
