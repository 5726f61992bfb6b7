// What the channel operations do, stated without their own definitions: which
// channels follow a category afterwards, where each one stands, and what the
// row written by set_overwrite says (src/community/db.cpp).
module ChannelEffects {
  import opened Options
  import opened Decimal
  import opened ChannelOrder
  import opened Roles
  import opened Permissions
  import opened CategorySync
  import opened Membership
  import opened Runs

  // ---- the nearest category above ----

  // `p` is the last category above position `i`, "" if there is none.
  ghost predicate NearestAbove(order: seq<ChannelId>, kinds: Kinds, i: nat, p: ChannelId)
    requires i < |order|
  {
    if p == NO_CATEGORY then NoCategory(order[..i], kinds)
    else exists j: nat :: j < i && order[j] == p && IsCategory(kinds, p) && NoCategory(order[j + 1..i], kinds)
  }

  lemma {:induction false} LastAbove(rows: seq<ChannelId>, kinds: Kinds)
    requires NO_CATEGORY !in kinds
    ensures var p := LastCategory(rows, kinds, NO_CATEGORY);
            if p == NO_CATEGORY then NoCategory(rows, kinds)
            else exists j: nat :: j < |rows| && rows[j] == p && IsCategory(kinds, p) && NoCategory(rows[j + 1..], kinds)
  {
    if rows != [] {
      var n := |rows| - 1;
      LastAbove(rows[..n], kinds);
      assert rows == rows[..n] + [rows[n]];
      ParentAppend(rows[..n], [rows[n]], kinds, rows[n], NO_CATEGORY);
      if IsCategory(kinds, rows[n]) {
        assert rows[n + 1..] == [];
      } else if LastCategory(rows[..n], kinds, NO_CATEGORY) != NO_CATEGORY {
        var j: nat :| j < n && rows[..n][j] == LastCategory(rows[..n], kinds, NO_CATEGORY) && NoCategory(rows[..n][j + 1..], kinds);
        assert rows[j + 1..] == rows[..n][j + 1..] + [rows[n]];
      }
    }
  }

  // A channel's parent is the nearest category above it, and a category has
  // none.
  lemma ParentIsNearest(t: Tables, i: nat)
    requires OrderInv(t) && i < |t.order|
    ensures if IsCategory(t.kinds, t.order[i]) then Parent(t, t.order[i]) == NO_CATEGORY
            else NearestAbove(t.order, t.kinds, i, Parent(t, t.order[i]))
  {
    var c := t.order[i];
    assert t.order == t.order[..i] + t.order[i..];
    assert c !in t.order[..i];
    ParentAppend(t.order[..i], t.order[i..], t.kinds, c, NO_CATEGORY);
    LastAbove(t.order[..i], t.kinds);
    var p := LastCategory(t.order[..i], t.kinds, NO_CATEGORY);
    if !IsCategory(t.kinds, c) && p != NO_CATEGORY {
      var j: nat :| j < i && t.order[..i][j] == p && NoCategory(t.order[..i][j + 1..], t.kinds);
      assert t.order[..i][j + 1..] == t.order[j + 1..i];
    }
  }

  // ---- the order of the rows ----

  ghost predicate Before(order: seq<ChannelId>, x: ChannelId, y: ChannelId)
  {
    exists i, j :: 0 <= i < j < |order| && order[i] == x && order[j] == y
  }

  lemma BeforeCons(c: ChannelId, rest: seq<ChannelId>, x: ChannelId, y: ChannelId)
    ensures Before([c] + rest, x, y) <==> (c == x && y in rest) || Before(rest, x, y)
  {
    var order := [c] + rest;
    if Before(order, x, y) {
      var i, j :| 0 <= i < j < |order| && order[i] == x && order[j] == y;
      assert rest[j - 1] == y;
      if i > 0 { assert rest[i - 1] == x; }
    }
    if c == x && y in rest {
      var j :| 0 <= j < |rest| && rest[j] == y;
      assert order[0] == x && order[j + 1] == y;
    }
    if Before(rest, x, y) {
      var i, j :| 0 <= i < j < |rest| && rest[i] == x && rest[j] == y;
      assert order[i + 1] == x && order[j + 1] == y;
    }
  }

  // Picking the rows of one kind keeps their order.
  lemma {:induction false} BeforeOfKind(order: seq<ChannelId>, kinds: Kinds, kind: Kind, x: ChannelId, y: ChannelId)
    requires x in kinds && y in kinds && kinds[x] == kinds[y] == kind
    ensures Before(OfKind(order, kinds, kind), x, y) <==> Before(order, x, y)
  {
    if order != [] {
      var c, rest := order[0], order[1..];
      BeforeOfKind(rest, kinds, kind, x, y);
      BeforeCons(c, rest, x, y);
      assert order == [c] + rest;
      if c in kinds && kinds[c] == kind {
        BeforeCons(c, OfKind(rest, kinds, kind), x, y);
      } else {
        assert OfKind(order, kinds, kind) == OfKind(rest, kinds, kind);
      }
    }
  }

  // Two rows of one kind stay in the order they had.
  lemma NormalizeKeepsBefore(order: seq<ChannelId>, kinds: Kinds, x: ChannelId, y: ChannelId)
    requires (forall c :: c in order ==> c in kinds) && x in kinds && y in kinds && kinds[x] == kinds[y]
    ensures Before(Normalize(order, kinds), x, y) <==> Before(order, x, y)
  {
    NormalizeIsStable([], order, kinds, kinds[x]);
    assert [] + order == order;
    BeforeOfKind(order, kinds, kinds[x], x, y);
    BeforeOfKind(Normalize(order, kinds), kinds, kinds[x], x, y);
  }

  lemma {:induction false} DropBefore(order: seq<ChannelId>, d: ChannelId, x: ChannelId, y: ChannelId)
    requires x != d && y != d
    ensures Before(Drop(order, d), x, y) <==> Before(order, x, y)
    ensures y in Drop(order, d) <==> y in order
  {
    if order != [] {
      var c, rest := order[0], order[1..];
      DropBefore(rest, d, x, y);
      BeforeCons(c, rest, x, y);
      assert order == [c] + rest;
      if c == d {
        assert Drop(order, d) == Drop(rest, d);
      } else {
        BeforeCons(c, Drop(rest, d), x, y);
        assert Drop(order, d) == [c] + Drop(rest, d);
      }
    }
  }

  // Taking a row out again undoes its insertion.
  lemma {:induction false} DropInserted(above: seq<ChannelId>, id: ChannelId, below: seq<ChannelId>)
    requires id !in above && id !in below
    ensures Drop(above + [id] + below, id) == above + below
  {
    if above == [] {
      assert above + [id] + below == [id] + below;
      assert ([id] + below)[1..] == below;
      DropAbsent(below, id);
    } else {
      assert (above + [id] + below)[1..] == above[1..] + [id] + below;
      DropInserted(above[1..], id, below);
    }
  }

  lemma InsertedBefore(t: Tables, id: ChannelId, kind: Kind, under: ChannelId, x: ChannelId, y: ChannelId)
    requires id !in t.order && Place(t.order, t.kinds, kind, under).Some? && x != id && y != id
    ensures Before(Inserted(t, id, kind, under), x, y) <==> Before(t.order, x, y)
  {
    var p := Place(t.order, t.kinds, kind, under).value;
    DropInserted(t.order[..p], id, t.order[p..]);
    assert t.order[..p] + t.order[p..] == t.order;
    DropBefore(Inserted(t, id, kind, under), id, x, y);
  }

  lemma ReorderedOrder(t: Tables, ids: seq<ChannelId>, x: ChannelId, y: ChannelId)
    requires IsListing(t, ids) && x in t.kinds && y in t.kinds && t.kinds[x] == t.kinds[y]
    ensures Before(Reordered(t, ids).order, x, y) <==> Before(ids, x, y)
  {
    ListingKinds(t, ids);
    NormalizeKeepsBefore(ids, t.kinds, x, y);
  }

  // What the order is to be read from.
  function Asked(t: Tables, op: Op): seq<ChannelId> { if op.Reorder? && IsListing(t, op.ids) then op.ids else t.order }

  // Channels of one kind stand in the order the list asked for, and no other
  // operation changes that order.
  lemma OrderAfter(t: Tables, op: Op, x: ChannelId, y: ChannelId)
    requires Inv(t) && x in t.kinds && y in t.kinds && t.kinds[x] == t.kinds[y]
    requires op != DeleteChannel(x) && op != DeleteChannel(y)
    ensures Before(Apply(t, op).order, x, y) <==> Before(Asked(t, op), x, y)
  {
    if op.Reorder? && IsListing(t, op.ids) {
      ReorderedOrder(t, op.ids, x, y);
    } else if op.DeleteChannel? && op.channel in t.kinds {
      RemovedOrder(t, op.channel, x, y);
    } else if op.CreateChannel? && Apply(t, op) != t {
      AddedOrder(t, op.id, op.kind, op.under, x, y);
    } else {
      OrderStays(t, op);
    }
  }

  lemma OrderStays(t: Tables, op: Op)
    requires op.Reorder? ==> !IsListing(t, op.ids)
    requires op.DeleteChannel? ==> op.channel !in t.kinds
    requires op.CreateChannel? ==> Apply(t, op) == t
    ensures Apply(t, op).order == t.order
  {
  }

  lemma ListingKinds(t: Tables, ids: seq<ChannelId>)
    requires IsListing(t, ids)
    ensures forall c :: c in ids ==> c in t.kinds
  {
    forall c | c in ids ensures c in t.kinds { assert c in Ids(ids); }
  }

  lemma RemovedOrder(t: Tables, d: ChannelId, x: ChannelId, y: ChannelId)
    requires Inv(t) && d in t.kinds && x in t.kinds && y in t.kinds && t.kinds[x] == t.kinds[y] && x != d && y != d
    ensures Before(Removed(t, d).order, x, y) <==> Before(t.order, x, y)
  {
    DropFacts(t.order, d);
    NormalizeKeepsBefore(Drop(t.order, d), t.kinds - {d}, x, y);
    DropBefore(t.order, d, x, y);
  }

  lemma AddedOrder(t: Tables, id: ChannelId, kind: Kind, under: ChannelId, x: ChannelId, y: ChannelId)
    requires Inv(t) && id !in t.kinds && Place(t.order, t.kinds, kind, under).Some?
    requires x in t.kinds && y in t.kinds && t.kinds[x] == t.kinds[y]
    ensures Before(Added(t, id, kind, under).order, x, y) <==> Before(t.order, x, y)
  {
    InsertedListing(t.order, Place(t.order, t.kinds, kind, under).value, id);
    InsertedBefore(t, id, kind, under, x, y);
    NormalizeKeepsBefore(Inserted(t, id, kind, under), t.kinds[id := kind], x, y);
  }

  // ---- the columns ----

  // The kinds after an operation: a deleted channel goes, a created one comes.
  lemma KindsAfter(t: Tables, op: Op, c: ChannelId)
    ensures var t' := Apply(t, op);
            if op == DeleteChannel(c) then c !in t'.kinds
            else if c in t.kinds then c in t'.kinds && t'.kinds[c] == t.kinds[c]
            else c in t'.kinds <==> op.CreateChannel? && op.id == c && c != NO_CATEGORY && Place(t.order, t.kinds, op.kind, op.under).Some?
  {
  }

  // The categories that sync: switched on, switched off or deleted.
  lemma SyncingAfter(t: Tables, op: Op, k: ChannelId)
    requires Inv(t)
    ensures k in Apply(t, op).syncing <==>
            if op == DeleteChannel(k) then false
            else if op.SetCategorySync? && op.category == k && IsCategory(t.kinds, k) then op.on
            else k in t.syncing
  {
  }

  // Channel operations leave roles, members and bans alone.
  lemma PeopleUntouched(t: Tables, op: Op)
    requires Structural(op) || op.SetOverwrite? || op.SyncChannel? || op.RestoreOverwrites?
    ensures var t' := Apply(t, op);
            t' == t.(order := t'.order, kinds := t'.kinds, synced := t'.synced, syncing := t'.syncing, overwrites := t'.overwrites)
    ensures op.SetOverwrite? || op.SyncChannel? || op.RestoreOverwrites? || op.SetCategorySync? ==> Apply(t, op).order == t.order
  {
  }

  // ---- who follows a category afterwards ----

  lemma ReorderFollows(t: Tables, ids: seq<ChannelId>, c: ChannelId)
    requires Inv(t) && IsListing(t, ids) && c in t.kinds
    ensures Follows(Reordered(t, ids), c) <==> Follows(t, c) && ParentIn(ids, t.kinds, c, NO_CATEGORY) == Parent(t, c)
  {
    var order := Normalize(ids, t.kinds);
    ListingKinds(t, ids);
    NormalizeFacts(ids, t.kinds);
    SourceFacts(t, c);
  }

  lemma RemoveFollows(t: Tables, d: ChannelId, c: ChannelId)
    requires Inv(t) && d in t.kinds && c in t.kinds && c != d
    ensures Follows(Removed(t, d), c) <==> Follows(t, c) && Parent(t, c) != d
  {
    SourceFacts(t, c);
  }

  lemma SwitchFollows(t: Tables, k: ChannelId, on: bool, c: ChannelId)
    requires Inv(t) && c in t.kinds
    ensures Follows(Switched(t, k, on), c) <==> Follows(t, c) && (on || Parent(t, c) != k)
  {
    SourceFacts(t, c);
  }

  lemma EditStopsFollowing(t: Tables, d: ChannelId, x: Target, bits: Bits, c: ChannelId)
    requires Inv(t) && d in t.kinds && c in t.kinds
    ensures Follows(Edited(t, d, x, bits), c) <==> Follows(t, c) && c != d
  {
    SourceFacts(t, c);
    SourceFacts(t, d);
  }

  lemma SyncStartsFollowing(t: Tables, d: ChannelId, c: ChannelId)
    requires Inv(t) && CanSync(t, d) && c in t.kinds
    ensures Follows(Synced(t, d), c) <==> Follows(t, c) || c == d
  {
    ParentIsCategory(t.order, t.kinds, d, NO_CATEGORY);
  }

  // A move, a deletion and a switch release those they take from theirs, an
  // edit or a restore the channel itself, a sync adds one, and nothing else
  // changes anybody.
  ghost predicate FollowsNext(t: Tables, op: Op, c: ChannelId)
  {
    match op
    case Reorder(ids) => Follows(t, c) && (IsListing(t, ids) ==> ParentIn(ids, t.kinds, c, NO_CATEGORY) == Parent(t, c))
    case DeleteChannel(d) => Follows(t, c) && Parent(t, c) != d
    case SetCategorySync(k, on) => Follows(t, c) && (on || Parent(t, c) != k)
    case SetOverwrite(d, x, _, _) => Follows(t, c) && !(c == d && KnownTarget(t, x))
    case SyncChannel(d) => Follows(t, c) || (c == d && CanSync(t, c))
    case RestoreOverwrites(d, _) => Follows(t, c) && c != d
    case _ => Follows(t, c)
  }

  lemma StructuralFollows(t: Tables, op: Op, c: ChannelId)
    requires Inv(t) && c in t.kinds && op != DeleteChannel(c) && Structural(op)
    ensures Follows(Apply(t, op), c) <==> FollowsNext(t, op, c)
  {
    SourceFacts(t, c);
    match op
    case Reorder(ids) => if IsListing(t, ids) { ReorderFollows(t, ids, c); }
    case DeleteChannel(d) => if d in t.kinds { RemoveFollows(t, d, c); }
    case SetCategorySync(k, on) => if IsCategory(t.kinds, k) && on != (k in t.syncing) { SwitchFollows(t, k, on, c); }
    case CreateChannel(_, _, _) =>
  }

  // Exactly who follows a category after each operation.
  lemma FollowsAfter(t: Tables, op: Op, c: ChannelId)
    requires Inv(t) && c in t.kinds && op != DeleteChannel(c)
    ensures Follows(Apply(t, op), c) <==> FollowsNext(t, op, c)
  {
    if Structural(op) {
      StructuralFollows(t, op, c);
    } else {
      OtherFollows(t, op, c);
    }
  }

  lemma OtherFollows(t: Tables, op: Op, c: ChannelId)
    requires Inv(t) && c in t.kinds && !Structural(op)
    ensures Follows(Apply(t, op), c) <==> FollowsNext(t, op, c)
  {
    match op
    case SetOverwrite(d, x, allow, deny) => if d in t.kinds && KnownTarget(t, x) { EditStopsFollowing(t, d, x, Masked(allow, deny), c); }
    case SyncChannel(d) => if CanSync(t, d) { SyncStartsFollowing(t, d, c); }
    case _ =>
  }

  // A channel created in a syncing category follows it at once.
  lemma CreatedFollows(t: Tables, id: ChannelId, kind: Kind, under: ChannelId)
    requires Inv(t) && id !in t.kinds && id != NO_CATEGORY && Place(t.order, t.kinds, kind, under).Some?
    ensures Follows(Added(t, id, kind, under), id) <==> !kind.Category? && under in t.syncing
    ensures Parent(Added(t, id, kind, under), id) == if kind.Category? then NO_CATEGORY else under
  {
    AddedLayout(t, id, kind, under);
  }

  // ---- the row set_overwrite writes ----

  // The bits a row can carry: 0 to 24 but 9.
  predicate KnownBit(b: nat) { b < 25 && b != 9 }

  // A bit asked to be allowed and denied ends denied.
  lemma DenyWins(allow: Perms, deny: Perms, b: nat)
    ensures b in Masked(allow, deny).deny <==> b in deny && KnownBit(b)
    ensures b in Masked(allow, deny).allow <==> b in allow && b !in deny && KnownBit(b)
  {
  }

  // Afterwards the target's row in force on the channel is there exactly if a
  // known bit was asked for, and says just what was asked; every other row in
  // force stays.
  lemma EditWrites(t: Tables, c: ChannelId, x: Target, allow: Perms, deny: Perms)
    requires Inv(t) && c in t.kinds
    ensures var before, after := Effective(t, c), Effective(Edited(t, c, x, Masked(allow, deny)), c);
            && (x in after <==> exists b: nat :: (b in allow || b in deny) && KnownBit(b))
            && (x in after ==> forall b: nat ::
                 (b in after[x].deny <==> b in deny && KnownBit(b)) && (b in after[x].allow <==> b in allow && b !in deny && KnownBit(b)))
            && forall y :: y != x ==> (y in after <==> y in before) && (y in before ==> after[y] == before[y])
  {
    var bits := Masked(allow, deny);
    EditChangesOneTarget(t, c, x, bits);
    forall b: nat
      ensures b in bits.deny <==> b in deny && KnownBit(b)
      ensures b in bits.allow <==> b in allow && b !in deny && KnownBit(b)
    {
      DenyWins(allow, deny, b);
    }
    if b: nat :| (b in allow || b in deny) && KnownBit(b) { assert b in bits.allow || b in bits.deny; }
    if bits.allow != {} { var b :| b in bits.allow; }
    if bits.deny != {} { var b :| b in bits.deny; }
  }

  // Whether set_overwrite takes a target written as ids print.
  lemma PrintedTargetKnown(t: Tables, kind: int, n: int)
    requires INT64_MIN <= n <= INT64_MAX
    ensures KnownTarget(t, Target(kind, ToString(n))) <==>
            (kind == 0 && n >= 0 && n in t.roles) || (kind == 1 && n in t.members)
  {
    StollReadsToString(n, "");
    assert ToString(n) + "" == ToString(n);
  }

  // ---- what is taken ----

  lemma SameCounts(a: seq<ChannelId>, b: seq<ChannelId>)
    requires Distinct(a) && Distinct(b) && forall c :: c in a <==> c in b
    ensures multiset(a) == multiset(b)
  {
    DistinctMultiset(a);
    DistinctMultiset(b);
    forall c ensures multiset(a)[c] == multiset(b)[c] {
      assert c in multiset(a) <==> c in a;
      assert c in multiset(b) <==> c in b;
    }
  }

  lemma SameElements(a: seq<ChannelId>, b: seq<ChannelId>)
    requires Distinct(a) && multiset(a) == multiset(b)
    ensures Distinct(b) && forall c :: c in a <==> c in b
  {
    DistinctMultiset(a);
    DistinctMultiset(b);
    forall c ensures c in a <==> c in b {
      assert c in a <==> c in multiset(a);
      assert c in b <==> c in multiset(b);
    }
  }

  // A reorder is taken for a permutation of the channels, and nothing else.
  lemma ListingIff(t: Tables, ids: seq<ChannelId>)
    requires Inv(t)
    ensures IsListing(t, ids) <==> multiset(ids) == multiset(t.order)
  {
    if IsListing(t, ids) {
      forall c ensures c in ids <==> c in t.order { assert c in Ids(ids) <==> c in t.kinds; }
      SameCounts(ids, t.order);
    }
    if multiset(ids) == multiset(t.order) {
      SameElements(t.order, ids);
      forall c ensures c in Ids(ids) <==> c in t.kinds { assert c in ids <==> c in t.order; }
    }
  }

  // "Sync now" is taken for a channel under a category that syncs.
  lemma CanSyncIff(t: Tables, c: ChannelId)
    requires Inv(t)
    ensures CanSync(t, c) <==> Parent(t, c) in t.syncing
  {
  }

  // A channel can be created as a category, above all categories, or in one.
  lemma PlaceIff(t: Tables, kind: Kind, under: ChannelId)
    requires Inv(t)
    ensures Place(t.order, t.kinds, kind, under).Some? <==> kind.Category? || under == NO_CATEGORY || IsCategory(t.kinds, under)
  {
    if IsCategory(t.kinds, under) { assert under in t.order; }
  }
}
