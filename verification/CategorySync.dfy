// Permissions v3, category sync: what each operation on channels and
// overwrite rows does to the tables, and what it does to the rows in force.
module CategorySync {
  import opened Options
  import opened ChannelOrder
  import opened Roles
  import opened Permissions

  // ---- the operations ----

  // write_own_overwrites: the channel's rows are replaced.
  function Put(ow: Overwrites, c: ChannelId, rows: Rows): Overwrites
  {
    if rows == map[] then ow - {c} else ow[c := rows]
  }

  // Several channels at once are given rows of their own, and unsynced.
  function KeptRows(t: Tables, rowsOf: map<ChannelId, Rows>, c: ChannelId): Rows
  {
    if c in rowsOf then rowsOf[c] else RowsOf(t, c)
  }

  function Kept(t: Tables, rowsOf: map<ChannelId, Rows>): Tables
  {
    t.(synced := t.synced - rowsOf.Keys,
       overwrites := map c | c in t.overwrites.Keys + rowsOf.Keys && KeptRows(t, rowsOf, c) != map[] :: KeptRows(t, rowsOf, c))
  }

  function RowsAfterDetach(t: Tables, cs: set<ChannelId>, c: ChannelId): Rows
  {
    if c in cs then Effective(t, c) else RowsOf(t, c)
  }

  // Each of `cs` keeps the rows in force on it as its own, unsynced.
  function Detached(t: Tables, cs: set<ChannelId>): Tables
  {
    t.(synced := t.synced - cs,
       overwrites := map c | c in t.overwrites.Keys + cs && RowsAfterDetach(t, cs, c) != map[] :: RowsAfterDetach(t, cs, c))
  }

  // The channels whose rows in force are `c`'s.
  function Followers(t: Tables, c: ChannelId): set<ChannelId>
  {
    set f | f in t.kinds && f != c && Source(t, f) == c
  }

  // Synced channels that follow nothing.
  function Strays(t: Tables): set<ChannelId>
  {
    set c | c in t.synced && c in t.kinds && !IsCategory(t.kinds, c) && Source(t, c) == c
  }

  function Enforced(t: Tables): Tables { t.(synced := t.synced - Strays(t)) }

  predicate IsListing(t: Tables, ids: seq<ChannelId>)
  {
    Distinct(ids) && Ids(ids) == t.kinds.Keys
  }

  // Followers that are under another category (or none) in `order`.
  function MovedAway(t: Tables, order: seq<ChannelId>): set<ChannelId>
  {
    set c | c in t.kinds && Source(t, c) != c && ParentIn(order, t.kinds, c, NO_CATEGORY) != Parent(t, c)
  }

  function Reordered(t: Tables, ids: seq<ChannelId>): Tables
  {
    var order := Normalize(ids, t.kinds);
    Detached(t, MovedAway(t, order)).(order := order)
  }

  function Switched(t: Tables, category: ChannelId, on: bool): Tables
  {
    if on then t.(syncing := t.syncing + {category})
    else Detached(t, Followers(t, category)).(syncing := t.syncing - {category})
  }

  function Drop(order: seq<ChannelId>, c: ChannelId): seq<ChannelId>
  {
    if order == [] then [] else (if order[0] == c then [] else [order[0]]) + Drop(order[1..], c)
  }

  function Removed(t: Tables, c: ChannelId): Tables
  {
    var d := Detached(t, Followers(t, c));
    var kinds := t.kinds - {c};
    d.(order := Normalize(Drop(t.order, c), kinds), kinds := kinds, synced := d.synced - {c}, syncing := d.syncing - {c},
       overwrites := d.overwrites - {c})
  }

  // The first index from `i` on that holds a category, or the length.
  function NextCategory(order: seq<ChannelId>, kinds: Kinds, i: nat): (k: nat)
    requires i <= |order|
    ensures i <= k <= |order|
    ensures NoCategory(order[i..k], kinds)
    ensures k < |order| ==> IsCategory(kinds, order[k])
    decreases |order| - i
  {
    if i == |order| || IsCategory(kinds, order[i]) then i
    else
      var k := NextCategory(order, kinds, i + 1);
      assert order[i..k] == [order[i]] + order[i + 1..k];
      k
  }

  // The list index a new row is inserted at; None: no such category.
  function Place(order: seq<ChannelId>, kinds: Kinds, kind: Kind, category: ChannelId): (p: Option<nat>)
    ensures p.Some? ==> p.value <= |order|
  {
    if kind.Category? then Some(|order|)
    else if category == NO_CATEGORY then Some(NextCategory(order, kinds, 0))
    else if exists i | 0 <= i < |order| :: order[i] == category && IsCategory(kinds, category) then
      Some(NextCategory(order, kinds, IndexOf(order, category) + 1))
    else None
  }

  function IndexOf(order: seq<ChannelId>, c: ChannelId): (i: nat)
    requires c in order
    ensures i < |order| && order[i] == c && c !in order[..i]
  {
    if order[0] == c then 0 else
      var i := IndexOf(order[1..], c) + 1;
      assert order[..i] == [order[0]] + order[1..][..i - 1];
      i
  }

  function Inserted(t: Tables, id: ChannelId, kind: Kind, category: ChannelId): seq<ChannelId>
    requires Place(t.order, t.kinds, kind, category).Some?
  {
    var p := Place(t.order, t.kinds, kind, category).value;
    t.order[..p] + [id] + t.order[p..]
  }

  function Added(t: Tables, id: ChannelId, kind: Kind, category: ChannelId): Tables
    requires Place(t.order, t.kinds, kind, category).Some?
  {
    var kinds := t.kinds[id := kind];
    t.(order := Normalize(Inserted(t, id, kind, category), kinds), kinds := kinds,
       synced := t.synced + if kind != Category && category in t.syncing then {id} else {})
  }

  // An upsert; empty bits delete the row.
  function WithRow(rows: Rows, x: Target, bits: Bits): Rows
  {
    if bits == Bits({}, {}) then rows - {x} else rows[x := bits]
  }

  // Masked to the known bits; a bit in both is a deny.
  function Masked(allow: Perms, deny: Perms): Bits { Bits((allow * KNOWN_MASK) - (deny * KNOWN_MASK), deny * KNOWN_MASK) }

  function Edited(t: Tables, c: ChannelId, x: Target, bits: Bits): Tables
  {
    var d := if Source(t, c) != c then Detached(t, {c}) else t;
    d.(overwrites := Put(d.overwrites, c, WithRow(RowsOf(d, c), x, bits)),
       synced := if IsCategory(t.kinds, c) then d.synced else d.synced - {c})
  }

  // "Sync now" applies: the channel sits under a category that syncs.
  predicate CanSync(t: Tables, c: ChannelId) { Parent(t, c) != NO_CATEGORY && Parent(t, c) in t.syncing }

  function Synced(t: Tables, c: ChannelId): Tables { t.(synced := t.synced + {c}, overwrites := Put(t.overwrites, c, map[])) }

  function Restored(t: Tables, c: ChannelId, rows: Rows): Tables
  {
    t.(synced := t.synced - {c}, overwrites := Put(t.overwrites, c, rows))
  }

  // ---- what the operations keep ----

  // Keeping the rows in force as one's own changes nothing in force.
  lemma DetachKeeps(t: Tables, cs: set<ChannelId>)
    requires Inv(t)
    requires forall c :: c in cs ==> Follows(t, c)
    ensures Inv(Detached(t, cs))
    ensures forall c :: Effective(Detached(t, cs), c) == Effective(t, c)
    ensures forall c :: Source(Detached(t, cs), c) == if c in cs then c else Source(t, c)
    ensures forall c :: RowsOf(Detached(t, cs), c) == if c in cs then Effective(t, c) else RowsOf(t, c)
  {
    var d := Detached(t, cs);
    forall c
      ensures RowsOf(d, c) == if c in cs then Effective(t, c) else RowsOf(t, c)
      ensures Source(d, c) == if c in cs then c else Source(t, c)
    {
      SourceFacts(t, c);
      assert Parent(d, c) == Parent(t, c);
    }
    forall c ensures Effective(d, c) == Effective(t, c) {
      SourceFacts(t, c);
    }
    DetachKeepsInv(t, cs);
  }

  lemma DetachKeepsInv(t: Tables, cs: set<ChannelId>)
    requires Inv(t)
    requires forall c :: c in cs ==> Follows(t, c)
    ensures Inv(Detached(t, cs))
  {
    var d := Detached(t, cs);
    forall c | Follows(d, c) ensures RowsOf(d, c) == map[] && Parent(d, c) != NO_CATEGORY && Parent(d, c) in d.syncing
    {
      assert Parent(d, c) == Parent(t, c);
    }
    assert RolesInv(d) by {
      var list :| Ranked(t.roles, t.everyone, list);
      assert Ranked(d.roles, d.everyone, list);
    }
  }

  lemma DetachedIsKept(t: Tables, cs: set<ChannelId>, rowsOf: map<ChannelId, Rows>)
    requires rowsOf.Keys == cs && forall c :: c in cs ==> rowsOf[c] == Effective(t, c)
    ensures Kept(t, rowsOf) == Detached(t, cs)
  {
    forall c ensures KeptRows(t, rowsOf, c) == RowsAfterDetach(t, cs, c) {}
  }

  // Parents, synced flags and rows decide what is in force, nothing else.
  lemma EffectiveFrame(t: Tables, t': Tables, c: ChannelId)
    requires Parent(t', c) == Parent(t, c)
    requires c in t'.synced <==> c in t.synced
    requires Parent(t, c) in t'.syncing <==> Parent(t, c) in t.syncing
    requires RowsOf(t', Source(t, c)) == RowsOf(t, Source(t, c))
    ensures Source(t', c) == Source(t, c) && Effective(t', c) == Effective(t, c)
  {
  }

  lemma RolesUntouched(t: Tables, t': Tables)
    requires RolesInv(t)
    requires t'.roles == t.roles && t'.everyone == t.everyone && t'.nextRole == t.nextRole && t'.memberRoles == t.memberRoles
    ensures RolesInv(t')
  {
    var list :| Ranked(t.roles, t.everyone, list);
    assert Ranked(t'.roles, t'.everyone, list);
  }

  // Dropping the flag of a synced channel that follows nothing changes
  // nothing in force, whatever state the tables are in; what is left follows.
  lemma EnforceKeeps(t: Tables)
    ensures forall c :: Effective(Enforced(t), c) == Effective(t, c)
    ensures Strays(Enforced(t)) == {}
    ensures Inv(t) ==> Strays(t) == {} && Enforced(t) == t
  {
    var e := Enforced(t);
    forall c ensures Parent(e, c) == Parent(t, c) && Effective(e, c) == Effective(t, c) && Source(e, c) == Source(t, c) {
      ParentIsCategory(t.order, t.kinds, c, NO_CATEGORY);
    }
    if Inv(t) {
      forall c ensures c !in Strays(t) { SourceFacts(t, c); }
    }
  }

  // What a database may hold when it is opened: any order, and flags on
  // channels that follow nothing.
  ghost predicate Openable(t: Tables)
  {
    && Distinct(t.order) && (forall c :: c in t.order <==> c in t.kinds) && NO_CATEGORY !in t.kinds
    && (forall c :: c in t.synced ==> c in t.kinds)
    && (forall c :: c in t.synced && Source(t, c) != c ==> RowsOf(t, c) == map[])
    && (forall c :: c in t.syncing ==> IsCategory(t.kinds, c))
    && RowsInv(t) && RolesInv(t)
  }

  function Opened(t: Tables): Tables { Enforced(t.(order := Normalize(t.order, t.kinds))) }

  // Opening establishes the invariant and changes nothing in force.
  lemma OpenEstablishes(t: Tables)
    requires Openable(t)
    ensures Inv(Opened(t))
    ensures forall c :: Effective(Opened(t), c) == Effective(t, c)
  {
    var n := t.(order := Normalize(t.order, t.kinds));
    var o := Opened(t);
    NormalizeFacts(t.order, t.kinds);
    EnforceKeeps(n);
    forall c ensures Parent(o, c) == Parent(t, c) && Source(n, c) == Source(t, c) && Effective(o, c) == Effective(t, c) {}
    RolesUntouched(t, o);
  }

  // A new order in which every follower is under its old category.
  lemma OrderReplaced(d: Tables, t': Tables)
    requires Inv(d) && t' == d.(order := t'.order) && OrderInv(t')
    requires forall c :: Follows(d, c) ==> Parent(t', c) == Parent(d, c)
    ensures Inv(t') && forall c :: Effective(t', c) == Effective(d, c)
  {
    forall c ensures Follows(t', c) == Follows(d, c) && RowsOf(t', c) == RowsOf(d, c) {}
    RolesUntouched(d, t');
    forall c ensures Effective(t', c) == Effective(d, c) {
      SourceFacts(d, c);
      SourceFacts(t', c);
    }
  }

  // A move never changes what a channel allows.
  lemma ReorderKeeps(t: Tables, ids: seq<ChannelId>)
    requires Inv(t) && IsListing(t, ids)
    ensures Inv(Reordered(t, ids))
    ensures forall c :: Effective(Reordered(t, ids), c) == Effective(t, c)
    ensures forall c :: Parent(Reordered(t, ids), c) == ParentIn(ids, t.kinds, c, NO_CATEGORY)
  {
    var order := Normalize(ids, t.kinds);
    var moved := MovedAway(t, order);
    var d, t' := Detached(t, moved), Reordered(t, ids);
    forall c ensures c in ids <==> c in t.kinds { assert c in ids <==> c in Ids(ids); }
    NormalizeFacts(ids, t.kinds);
    forall c ensures c in moved ==> Follows(t, c) { SourceFacts(t, c); }
    DetachKeeps(t, moved);
    forall c | Follows(d, c) ensures Parent(t', c) == Parent(d, c) {
      SourceFacts(t, c);
      assert c !in moved;
    }
    OrderReplaced(d, t');
  }

  lemma SwitchOnKeeps(t: Tables, category: ChannelId)
    requires Inv(t) && IsCategory(t.kinds, category) && category !in t.syncing
    ensures Inv(Switched(t, category, true))
    ensures forall c :: Effective(Switched(t, category, true), c) == Effective(t, c)
  {
    var t' := Switched(t, category, true);
    forall c ensures Parent(t', c) == Parent(t, c) && RowsOf(t', c) == RowsOf(t, c) && Follows(t', c) == Follows(t, c) {}
    RolesUntouched(t, t');
    forall c ensures Effective(t', c) == Effective(t, c) {
      SourceFacts(t, c);
      SourceFacts(t', c);
    }
  }

  lemma SwitchOffKeeps(t: Tables, category: ChannelId)
    requires Inv(t)
    ensures Inv(Switched(t, category, false))
    ensures forall c :: Effective(Switched(t, category, false), c) == Effective(t, c)
  {
    var followers := Followers(t, category);
    var d, t' := Detached(t, followers), Switched(t, category, false);
    forall c ensures c in followers ==> Follows(t, c) { SourceFacts(t, c); }
    DetachKeeps(t, followers);
    forall c ensures Parent(t', c) == Parent(d, c) && Follows(d, c) ==> Parent(d, c) != category {
      SourceFacts(t, c);
      assert Parent(d, c) == Parent(t, c);
    }
    forall c ensures Effective(t', c) == Effective(d, c) {
      assert Parent(t', c) == Parent(d, c);
    }
    SwitchOffInv(d, t', category);
  }

  lemma SwitchOffInv(d: Tables, t': Tables, category: ChannelId)
    requires Inv(d)
    requires forall c :: Follows(d, c) ==> Parent(d, c) != category
    requires t' == d.(syncing := d.syncing - {category})
    ensures Inv(t')
  {
    forall c ensures Parent(t', c) == Parent(d, c) && RowsOf(t', c) == RowsOf(d, c) {}
    RolesUntouched(d, t');
  }

  // Turning a category's sync on or off never changes what a channel allows.
  lemma SwitchKeeps(t: Tables, category: ChannelId, on: bool)
    requires Inv(t) && IsCategory(t.kinds, category)
    requires on ==> category !in t.syncing
    ensures Inv(Switched(t, category, on))
    ensures forall c :: Effective(Switched(t, category, on), c) == Effective(t, c)
  {
    if on { SwitchOnKeeps(t, category); } else { SwitchOffKeeps(t, category); }
  }

  // ---- deleting ----

  lemma {:induction false} DropFacts(order: seq<ChannelId>, c: ChannelId)
    requires Distinct(order)
    ensures forall x :: x in Drop(order, c) <==> x in order && x != c
    ensures Distinct(Drop(order, c))
  {
    if order != [] {
      DropFacts(order[1..], c);
      assert forall x :: x in order <==> x == order[0] || x in order[1..];
      var rest := Drop(order[1..], c);
      assert order[0] !in order[1..] && Drop(order, c) == if order[0] == c then rest else [order[0]] + rest;
    }
  }

  // Taking a row out changes the parent of its own children only.
  lemma {:induction false} DropParent(order: seq<ChannelId>, kinds: Kinds, c: ChannelId, id: ChannelId, above: ChannelId)
    requires Distinct(order) && id != c
    requires ParentIn(order, kinds, id, above) != c && above != c
    ensures ParentIn(Drop(order, c), kinds, id, above) == ParentIn(order, kinds, id, above)
  {
    if order != [] && order[0] == c {
      DropAbsent(order[1..], c);
      assert Drop(order, c) == order[1..];
      if IsCategory(kinds, c) {
        OtherAbove(order[1..], kinds, id, c, above);
      }
    } else if order != [] && order[0] != id {
      DropParent(order[1..], kinds, c, id, if IsCategory(kinds, order[0]) then order[0] else above);
    }
  }

  lemma {:induction false} DropAbsent(order: seq<ChannelId>, c: ChannelId)
    requires c !in order
    ensures Drop(order, c) == order
  {
    if order != [] {
      DropAbsent(order[1..], c);
    }
  }

  // A parent that is not the category above the list does not depend on it.
  lemma {:induction false} OtherAbove(order: seq<ChannelId>, kinds: Kinds, id: ChannelId, above: ChannelId, above': ChannelId)
    requires ParentIn(order, kinds, id, above) != above
    ensures ParentIn(order, kinds, id, above') == ParentIn(order, kinds, id, above)
  {
    if order != [] && order[0] != id && !IsCategory(kinds, order[0]) {
      OtherAbove(order[1..], kinds, id, above, above');
    }
  }

  // What delete leaves of the layout: the other rows, each under its old
  // category unless that is the one that went.
  lemma RemovedLayout(t: Tables, c: ChannelId)
    requires Inv(t) && c in t.kinds
    ensures OrderInv(Removed(t, c))
    ensures forall x :: x != c && Parent(t, x) != c ==> Parent(Removed(t, c), x) == Parent(t, x)
  {
    var kinds := t.kinds - {c};
    var order := Drop(t.order, c);
    DropFacts(t.order, c);
    NormalizeFacts(order, kinds);
    forall x | x != c && Parent(t, x) != c ensures Parent(Removed(t, c), x) == Parent(t, x) {
      DropParent(t.order, t.kinds, c, x, NO_CATEGORY);
      ParentFrame(order, t.kinds, kinds, x, NO_CATEGORY);
    }
  }

  // With nobody following `c`, its rows and flags can go.
  lemma DropUnfollowed(d: Tables, t': Tables, c: ChannelId, x: ChannelId)
    requires Inv(d) && Inv(t') && t'.overwrites == d.overwrites - {c}
    requires x != c && Follows(t', x) == Follows(d, x)
    requires Follows(d, x) ==> Parent(d, x) != c && Parent(t', x) == Parent(d, x)
    ensures Effective(t', x) == Effective(d, x)
  {
    SourceFacts(d, x);
    SourceFacts(t', x);
  }

  // Deleting a channel or category never changes what another channel allows.
  lemma RemoveKeeps(t: Tables, c: ChannelId)
    requires Inv(t) && c in t.kinds
    ensures Inv(Removed(t, c))
    ensures forall x :: x != c ==> Effective(Removed(t, c), x) == Effective(t, x)
  {
    var followers := Followers(t, c);
    var d := Detached(t, followers);
    forall x ensures x in followers ==> Follows(t, x) { SourceFacts(t, x); }
    DetachKeeps(t, followers);
    RemovedLayout(t, c);
    forall x | Follows(d, x) ensures Parent(t, x) != c { SourceFacts(t, x); }
    RemoveInv(t, d, c);
    forall x | x != c ensures Effective(Removed(t, c), x) == Effective(t, x) {
      assert Parent(d, x) == Parent(t, x);
      DropUnfollowed(d, Removed(t, c), c, x);
    }
  }

  lemma RemoveInv(t: Tables, d: Tables, c: ChannelId)
    requires Inv(t) && c in t.kinds && d == Detached(t, Followers(t, c)) && Inv(d)
    requires forall x :: Follows(d, x) ==> Parent(t, x) != c
    requires OrderInv(Removed(t, c))
    requires forall x :: x != c && Parent(t, x) != c ==> Parent(Removed(t, c), x) == Parent(t, x)
    ensures Inv(Removed(t, c))
  {
    var t' := Removed(t, c);
    forall x | Follows(t', x)
      ensures RowsOf(t', x) == map[] && Parent(t', x) != NO_CATEGORY && Parent(t', x) in t'.syncing
    {
      assert x != c && Follows(d, x);
      assert Parent(d, x) == Parent(t, x);
      assert RowsOf(t', x) == RowsOf(d, x);
    }
    RolesUntouched(t, t');
  }

  // ---- creating ----

  // The insertion point is right below the category asked for.
  lemma PlaceFacts(order: seq<ChannelId>, kinds: Kinds, kind: Kind, category: ChannelId)
    requires Place(order, kinds, kind, category).Some? && !kind.Category?
    ensures LastCategory(order[..Place(order, kinds, kind, category).value], kinds, NO_CATEGORY) == category
  {
    var p := Place(order, kinds, kind, category).value;
    if category == NO_CATEGORY {
      assert order[0..p] == order[..p];
      ParentInBlock(order[..p], kinds, category, NO_CATEGORY);
    } else {
      var i := IndexOf(order, category);
      assert order[..p] == order[..i] + ([category] + order[i + 1..p]);
      ParentAppend(order[..i], [category] + order[i + 1..p], kinds, category, NO_CATEGORY);
      ParentAppend([category], order[i + 1..p], kinds, category, LastCategory(order[..i], kinds, NO_CATEGORY));
      ParentInBlock(order[i + 1..p], kinds, category, category);
    }
  }

  lemma InsertParent(a: seq<ChannelId>, b: seq<ChannelId>, kinds: Kinds, id: ChannelId, kind: Kind, x: ChannelId)
    requires id !in a && id !in b
    requires kind.Category? ==> b == []
    ensures var kinds' := kinds[id := kind];
            ParentIn(a + [id] + b, kinds', x, NO_CATEGORY) ==
            if x != id then ParentIn(a + b, kinds, x, NO_CATEGORY)
            else if kind.Category? then NO_CATEGORY else LastCategory(a, kinds, NO_CATEGORY)
  {
    var kinds' := kinds[id := kind];
    var last := LastCategory(a, kinds, NO_CATEGORY);
    ParentFrame(a, kinds, kinds', x, NO_CATEGORY);
    ParentFrame(b, kinds, kinds', x, last);
    ParentAppend(a, b, kinds, x, NO_CATEGORY);
    assert a + [id] + b == a + ([id] + b);
    assert ([id] + b)[1..] == b;
    ParentAppend(a, [id] + b, kinds', x, NO_CATEGORY);
  }

  lemma InsertedParent(t: Tables, id: ChannelId, kind: Kind, category: ChannelId, x: ChannelId)
    requires id !in t.order && Place(t.order, t.kinds, kind, category).Some?
    ensures ParentIn(Inserted(t, id, kind, category), t.kinds[id := kind], x, NO_CATEGORY) ==
            if x != id then Parent(t, x) else if kind.Category? then NO_CATEGORY else category
  {
    var p := Place(t.order, t.kinds, kind, category).value;
    var a, b := t.order[..p], t.order[p..];
    assert a + b == t.order;
    InsertParent(a, b, t.kinds, id, kind, x);
    if !kind.Category? { PlaceFacts(t.order, t.kinds, kind, category); }
  }

  lemma InsertedListing(order: seq<ChannelId>, p: nat, id: ChannelId)
    requires p <= |order| && Distinct(order) && id !in order
    ensures Distinct(order[..p] + [id] + order[p..])
    ensures forall c :: c in order[..p] + [id] + order[p..] <==> c == id || c in order
  {
    assert order == order[..p] + order[p..];
  }

  // A new channel goes under the category asked for and moves no other.
  lemma AddedLayout(t: Tables, id: ChannelId, kind: Kind, category: ChannelId)
    requires OrderInv(t) && id !in t.kinds && id != NO_CATEGORY
    requires Place(t.order, t.kinds, kind, category).Some?
    ensures OrderInv(Added(t, id, kind, category))
    ensures forall x :: x != id ==> Parent(Added(t, id, kind, category), x) == Parent(t, x)
    ensures Parent(Added(t, id, kind, category), id) == if kind.Category? then NO_CATEGORY else category
  {
    var order, kinds := Inserted(t, id, kind, category), t.kinds[id := kind];
    var t' := Added(t, id, kind, category);
    InsertedListing(t.order, Place(t.order, t.kinds, kind, category).value, id);
    NormalizeFacts(order, kinds);
    assert t'.order == Normalize(order, kinds) && t'.kinds == kinds;
    forall x ensures Parent(t', x) == if x != id then Parent(t, x) else if kind.Category? then NO_CATEGORY else category {
      assert Parent(t', x) == ParentIn(order, kinds, x, NO_CATEGORY);
      InsertedParent(t, id, kind, category, x);
    }
  }

  // A place is asked for at the end, at the top, or under a channel.
  lemma PlaceIsKnown(t: Tables, kind: Kind, category: ChannelId)
    requires OrderInv(t) && SyncInv(t) && Place(t.order, t.kinds, kind, category).Some?
    ensures NO_CATEGORY !in t.syncing
  {
  }

  // A new channel follows its category from the start when that syncs, and
  // starts without rows otherwise; no other channel changes what it allows.
  lemma AddKeeps(t: Tables, id: ChannelId, kind: Kind, category: ChannelId)
    requires Inv(t) && id !in t.kinds && id != NO_CATEGORY
    requires Place(t.order, t.kinds, kind, category).Some?
    ensures Inv(Added(t, id, kind, category))
    ensures forall c :: c != id ==> Effective(Added(t, id, kind, category), c) == Effective(t, c)
    ensures Effective(Added(t, id, kind, category), id) ==
            if kind != Category && category in t.syncing then RowsOf(t, category) else map[]
  {
    var t' := Added(t, id, kind, category);
    AddedLayout(t, id, kind, category);
    PlaceIsKnown(t, kind, category);
    AddedInForce(t, t', id, if kind.Category? then NO_CATEGORY else category);
    RolesUntouched(t, t');
  }

  lemma AddedInForce(t: Tables, t': Tables, id: ChannelId, parent: ChannelId)
    requires SyncInv(t) && RowsInv(t) && id !in t.kinds
    requires t'.overwrites == t.overwrites && t'.syncing == t.syncing
    requires forall x :: x != id ==> Parent(t', x) == Parent(t, x)
    requires Parent(t', id) == parent && NO_CATEGORY !in t.syncing
    requires t'.synced == t.synced + if parent in t.syncing then {id} else {}
    requires t'.kinds.Keys == t.kinds.Keys + {id}
    requires forall c :: c in t.kinds ==> t'.kinds[c] == t.kinds[c]
    ensures SyncInv(t') && RowsInv(t')
    ensures forall c :: c != id ==> Effective(t', c) == Effective(t, c)
    ensures Effective(t', id) == if parent in t.syncing then RowsOf(t, parent) else map[]
  {
    forall x | Follows(t', x)
      ensures RowsOf(t', x) == map[] && Parent(t', x) != NO_CATEGORY && Parent(t', x) in t'.syncing
    {
      assert x != id ==> Follows(t, x);
    }
    forall c | c != id ensures Effective(t', c) == Effective(t, c) {
      EffectiveFrame(t, t', c);
    }
  }

  predicate HasVoice(t: Tables, category: ChannelId)
  {
    exists c | c in t.kinds :: t.kinds[c].Voice? && Parent(t, c) == category
  }

  // Above the place: the category's header and what comes before its block.
  function BlockStart(order: seq<ChannelId>, category: ChannelId): (k: nat)
    requires category == NO_CATEGORY || category in order
    ensures k <= |order|
  {
    if category == NO_CATEGORY then 0 else IndexOf(order, category) + 1
  }

  lemma CutDisjoint(order: seq<ChannelId>, i: nat, x: ChannelId)
    requires Distinct(order) && i <= |order| && x in order
    ensures x in order[..i] <==> x !in order[i..]
  {
    var j :| 0 <= j < |order| && order[j] == x;
    if j < i {
      assert order[..i][j] == x;
      forall m | 0 <= m < |order| - i ensures order[i..][m] != x { assert order[i + m] == order[i..][m]; }
    } else {
      assert order[i..][j - i] == x;
    }
  }

  lemma ParentInTail(above: seq<ChannelId>, rows: seq<ChannelId>, rest: seq<ChannelId>, kinds: Kinds, c: ChannelId, category: ChannelId)
    requires NoCategory(rows, kinds) && !IsCategory(kinds, c)
    requires c !in above && (c in rows || c in rest)
    requires LastCategory(above + rows, kinds, NO_CATEGORY) == category
    requires rest != [] ==> IsCategory(kinds, rest[0])
    requires category !in rest && (category != NO_CATEGORY || NO_CATEGORY !in rest)
    ensures ParentIn(above + (rows + rest), kinds, c, NO_CATEGORY) == category <==> c in rows
  {
    ParentAppend(above, rows, kinds, c, NO_CATEGORY);
    ParentInBlock(rows, kinds, c, LastCategory(above, kinds, NO_CATEGORY));
    ParentAppend(above, rows + rest, kinds, c, NO_CATEGORY);
    ParentAppend(rows, rest, kinds, c, category);
    if c !in rows {
      RestParent(rest, kinds, c, category);
    }
  }

  lemma RestParent(rest: seq<ChannelId>, kinds: Kinds, c: ChannelId, category: ChannelId)
    requires c in rest && !IsCategory(kinds, c)
    requires IsCategory(kinds, rest[0])
    requires category !in rest
    ensures ParentIn(rest, kinds, c, category) != category || category == NO_CATEGORY
    ensures category == NO_CATEGORY ==> ParentIn(rest, kinds, c, category) != NO_CATEGORY
  {
    ParentListed(rest[1..], kinds, c, rest[0]);
    ParentIsCategory(rest[1..], kinds, c, rest[0]);
  }

  lemma {:induction false} ParentListed(order: seq<ChannelId>, kinds: Kinds, c: ChannelId, above: ChannelId)
    requires c in order && !IsCategory(kinds, c)
    ensures ParentIn(order, kinds, c, above) == above || ParentIn(order, kinds, c, above) in order
  {
    if order[0] != c {
      ParentListed(order[1..], kinds, c, if IsCategory(kinds, order[0]) then order[0] else above);
    }
  }

  // The parts of the list around a block's end.
  lemma BlockParts(order: seq<ChannelId>, kinds: Kinds, kind: Kind, category: ChannelId)
    requires Distinct(order)
    requires !kind.Category? && Place(order, kinds, kind, category).Some?
    ensures category == NO_CATEGORY || category in order
    ensures var k, p := BlockStart(order, category), Place(order, kinds, kind, category).value;
            && k <= p
            && (category != NO_CATEGORY ==>
                  (k > 0 && IsCategory(kinds, category) && order[k - 1] == category
                   && category !in order[..k - 1] && category !in order[p..]))
            && NoCategory(order[k..p], kinds)
            && (p < |order| ==> IsCategory(kinds, order[p]))
  {
    if category != NO_CATEGORY {
      var p := Place(order, kinds, kind, category).value;
      assert order[..p][IndexOf(order, category)] == category;
      CutDisjoint(order, p, category);
    }
  }

  // A block holds exactly the channels under its category.
  lemma BlockIsChildren(t: Tables, kind: Kind, category: ChannelId, c: ChannelId)
    requires OrderInv(t) && c in t.kinds && !IsCategory(t.kinds, c)
    requires !kind.Category? && Place(t.order, t.kinds, kind, category).Some?
    ensures category == NO_CATEGORY || category in t.order
    ensures var k, p := BlockStart(t.order, category), Place(t.order, t.kinds, kind, category).value;
            k <= p && (Parent(t, c) == category <==> c in t.order[k..p])
  {
    BlockParts(t.order, t.kinds, kind, category);
    PlaceFacts(t.order, t.kinds, kind, category);
    ChildrenOfBlock(t, BlockStart(t.order, category), Place(t.order, t.kinds, kind, category).value, category, c);
  }

  lemma ChildrenOfBlock(t: Tables, k: nat, p: nat, category: ChannelId, c: ChannelId)
    requires OrderInv(t) && c in t.kinds && !IsCategory(t.kinds, c)
    requires k <= p <= |t.order|
    requires if category == NO_CATEGORY then k == 0
             else k > 0 && IsCategory(t.kinds, category) && t.order[k - 1] == category && category !in t.order[..k - 1] && category !in t.order[p..]
    requires NoCategory(t.order[k..p], t.kinds)
    requires p < |t.order| ==> IsCategory(t.kinds, t.order[p])
    requires LastCategory(t.order[..p], t.kinds, NO_CATEGORY) == category
    ensures Parent(t, c) == category <==> c in t.order[k..p]
  {
    CutDisjoint(t.order, k, c);
    if c in t.order[..k] {
      AboveBlock(t.order, t.kinds, k, c, category);
      InTail(t.order, k, p, c);
    } else {
      InTail(t.order, k, p, c);
      FromBlock(t, k, p, category, c);
    }
  }

  lemma InTail(order: seq<ChannelId>, k: nat, p: nat, c: ChannelId)
    requires k <= p <= |order|
    ensures c in order[k..] <==> c in order[k..p] || c in order[p..]
  {
    assert order[k..] == order[k..p] + order[p..];
  }

  lemma FromBlock(t: Tables, k: nat, p: nat, category: ChannelId, c: ChannelId)
    requires k <= p <= |t.order| && !IsCategory(t.kinds, c)
    requires c !in t.order[..k] && (c in t.order[k..p] || c in t.order[p..])
    requires category !in t.order[p..]
    requires NoCategory(t.order[k..p], t.kinds)
    requires p < |t.order| ==> IsCategory(t.kinds, t.order[p])
    requires LastCategory(t.order[..p], t.kinds, NO_CATEGORY) == category
    ensures Parent(t, c) == category <==> c in t.order[k..p]
  {
    assert t.order == t.order[..k] + (t.order[k..p] + t.order[p..]);
    assert t.order[..p] == t.order[..k] + t.order[k..p];
    ParentInTail(t.order[..k], t.order[k..p], t.order[p..], t.kinds, c, category);
  }

  lemma AboveBlock(order: seq<ChannelId>, kinds: Kinds, k: nat, c: ChannelId, category: ChannelId)
    requires 0 < k <= |order| && c in order[..k] && c != category && category != NO_CATEGORY
    requires order[k - 1] == category && category !in order[..k - 1]
    ensures ParentIn(order, kinds, c, NO_CATEGORY) != category
  {
    assert order == order[..k] + order[k..];
    ParentAppend(order[..k], order[k..], kinds, c, NO_CATEGORY);
    assert order[..k][..k - 1] == order[..k - 1];
    NotInOwnHeader(order[..k], kinds, c, category);
  }

  lemma NotInOwnHeader(above: seq<ChannelId>, kinds: Kinds, c: ChannelId, category: ChannelId)
    requires above != [] && above[|above| - 1] == category && category !in above[..|above| - 1]
    requires category != NO_CATEGORY && c in above && c != category
    ensures ParentIn(above, kinds, c, NO_CATEGORY) != category
  {
    var before := above[..|above| - 1];
    assert above == before + [category];
    ParentAppend(before, [category], kinds, c, NO_CATEGORY);
    ParentIsCategory(before, kinds, c, NO_CATEGORY);
  }

  // The rows of a block are voice channels exactly if its category has some.
  lemma VoiceInBlock(t: Tables, kind: Kind, category: ChannelId, rows: seq<ChannelId>)
    requires OrderInv(t) && !kind.Category? && Place(t.order, t.kinds, kind, category).Some?
    requires category == NO_CATEGORY || category in t.order
    requires BlockStart(t.order, category) <= Place(t.order, t.kinds, kind, category).value
    requires rows == t.order[BlockStart(t.order, category)..Place(t.order, t.kinds, kind, category).value]
    ensures (exists c :: c in rows && c in t.kinds && t.kinds[c].Voice?) <==> HasVoice(t, category)
  {
    if c :| c in rows && c in t.kinds && t.kinds[c].Voice? { BlockIsChildren(t, kind, category, c); }
    if HasVoice(t, category) {
      var c :| c in t.kinds && t.kinds[c].Voice? && Parent(t, c) == category;
      BlockIsChildren(t, kind, category, c);
    }
  }

  lemma NoVoiceRows(rows: seq<ChannelId>, kinds: Kinds)
    requires forall c :: c in rows ==> c in kinds
    ensures OfKind(rows, kinds, Voice) != [] <==> exists c :: c in rows && c in kinds && kinds[c].Voice?
  {
    FirstIn(OfKind(rows, kinds, Voice));
    if c :| c in rows && c in kinds && kinds[c].Voice? { assert c in OfKind(rows, kinds, Voice); }
  }

  // Rows above the new one, known before it came.
  lemma BlockRows(t: Tables, id: ChannelId, k: nat, p: nat)
    requires OrderInv(t) && id !in t.kinds && k <= p <= |t.order|
    ensures forall c :: c in t.order[..k] || c in t.order[k..p] || c in t.order[p..] ==> c in t.kinds && c != id
    ensures t.order[..p] == t.order[..k] + t.order[k..p]
  {
  }

  // The position create_channel returns is the new row's place in the stored
  // order exactly when the row is no text channel put below voice channels.
  lemma CreatedPosition(t: Tables, id: ChannelId, kind: Kind, category: ChannelId)
    requires OrderInv(t) && id !in t.kinds && !kind.Category?
    requires Place(t.order, t.kinds, kind, category).Some?
    ensures var p := Place(t.order, t.kinds, kind, category).value;
            |Added(t, id, kind, category).order| > p &&
            (Added(t, id, kind, category).order[p] == id <==> kind.Voice? || !HasVoice(t, category))
  {
    var p := Place(t.order, t.kinds, kind, category).value;
    BlockParts(t.order, t.kinds, kind, category);
    var k := BlockStart(t.order, category);
    BlockRows(t, id, k, p);
    VoiceInBlock(t, kind, category, t.order[k..p]);
    InsertedPlace(t, id, kind, t.order[..k], t.order[k..p], t.order[p..]);
  }

  lemma InsertedPlace(t: Tables, id: ChannelId, kind: Kind, above: seq<ChannelId>, rows: seq<ChannelId>, rest: seq<ChannelId>)
    requires id !in t.kinds && !kind.Category? && NoCategory(rows, t.kinds)
    requires forall c :: c in above || c in rows || c in rest ==> c in t.kinds && c != id
    requires above != [] ==> IsCategory(t.kinds, above[|above| - 1])
    requires rest != [] ==> IsCategory(t.kinds, rest[0])
    ensures var order := Normalize(above + rows + [id] + rest, t.kinds[id := kind]);
            |order| > |above + rows| &&
            (order[|above + rows|] == id <==> kind.Voice? || !exists c :: c in rows && c in t.kinds && t.kinds[c].Voice?)
  {
    var kinds := t.kinds[id := kind];
    forall i | 0 <= i < |rows| ensures !IsCategory(kinds, rows[i]) { assert rows[i] in rows; }
    assert above != [] ==> above[|above| - 1] in above;
    assert rest != [] ==> rest[0] in rest;
    NoVoiceRows(rows, kinds);
    InsertedIndex(above, rows, id, rest, kinds);
  }

  // ---- editing and syncing ----

  lemma PutRows(ow: Overwrites, c: ChannelId, rows: Rows, x: ChannelId)
    ensures (if x in Put(ow, c, rows) then Put(ow, c, rows)[x] else map[]) ==
            if x == c then rows else if x in ow then ow[x] else map[]
  {
  }

  // Giving `c` rows of its own: a channel ends unsynced, and whether a
  // category's flag goes too makes no difference.
  lemma RowsWritten(t: Tables, c: ChannelId, rows: Rows, t': Tables)
    requires Inv(t) && c in t.kinds
    requires t' == t.(overwrites := Put(t.overwrites, c, rows), synced := t'.synced)
    requires t'.synced == t.synced - {c} || (t'.synced == t.synced && !Follows(t, c))
    ensures Inv(t')
    ensures forall x :: RowsOf(t', x) == if x == c then rows else RowsOf(t, x)
    ensures forall x :: Source(t', x) == if x == c then c else Source(t, x)
  {
    forall x ensures RowsOf(t', x) == if x == c then rows else RowsOf(t, x) { PutRows(t.overwrites, c, rows, x); }
    forall x ensures Parent(t', x) == Parent(t, x) && Follows(t', x) == (Follows(t, x) && x != c) {}
    RolesUntouched(t, t');
    forall x ensures Source(t', x) == if x == c then c else Source(t, x) {
      SourceFacts(t, x);
      SourceFacts(t', x);
    }
  }

  lemma OwnRows(t: Tables, c: ChannelId, rows: Rows)
    requires Inv(t) && c in t.kinds
    ensures Inv(Restored(t, c, rows))
    ensures forall x :: RowsOf(Restored(t, c, rows), x) == if x == c then rows else RowsOf(t, x)
    ensures forall x :: Source(Restored(t, c, rows), x) == if x == c then c else Source(t, x)
  {
    RowsWritten(t, c, rows, Restored(t, c, rows));
  }

  // set_overwrite: what is in force on the channel changes at exactly that
  // target, and so it does for the followers of a category; nothing else.
  lemma EditChangesOneTarget(t: Tables, c: ChannelId, x: Target, bits: Bits)
    requires Inv(t) && c in t.kinds
    ensures Inv(Edited(t, c, x, bits))
    ensures forall y :: Effective(Edited(t, c, x, bits), y) ==
              if y == c || Source(t, y) == c then WithRow(Effective(t, y), x, bits) else Effective(t, y)
    ensures !Follows(Edited(t, c, x, bits), c)
  {
    SourceFacts(t, c);
    var d := if Source(t, c) != c then Detached(t, {c}) else t;
    if Source(t, c) != c { DetachKeeps(t, {c}); }
    var rows := WithRow(RowsOf(d, c), x, bits);
    RowsWritten(d, c, rows, Edited(t, c, x, bits));
    forall y ensures Effective(Edited(t, c, x, bits), y) ==
      if y == c || Source(t, y) == c then WithRow(Effective(t, y), x, bits) else Effective(t, y)
    {
      SourceFacts(t, y);
    }
  }

  // Syncing puts the category's rows in force, on that channel alone.
  lemma SyncFollows(t: Tables, c: ChannelId)
    requires Inv(t) && CanSync(t, c)
    ensures Inv(Synced(t, c))
    ensures forall y :: Effective(Synced(t, c), y) == if y == c then RowsOf(t, Parent(t, c)) else Effective(t, y)
  {
    var t' := Synced(t, c);
    ParentIsCategory(t.order, t.kinds, c, NO_CATEGORY);
    forall y
      ensures RowsOf(t', y) == if y == c then map[] else RowsOf(t, y)
      ensures Parent(t', y) == Parent(t, y)
    {
      PutRows(t.overwrites, c, map[], y);
    }
    forall y ensures Effective(t', y) == if y == c then RowsOf(t, Parent(t, c)) else Effective(t, y) {
      SourceFacts(t, y);
    }
    RolesUntouched(t, t');
  }

  // ---- what one call undoes ----

  // The lock-out guard after an edit of a synced channel: syncing again puts
  // back exactly the tables there were.
  lemma SyncUndoesEdit(t: Tables, c: ChannelId, x: Target, bits: Bits)
    requires Inv(t) && Follows(t, c)
    ensures CanSync(Edited(t, c, x, bits), c)
    ensures Synced(Edited(t, c, x, bits), c) == t
  {
    EditChangesOneTarget(t, c, x, bits);
    SourceFacts(t, c);
    var e := Edited(t, c, x, bits);
    var s := Synced(e, c);
    assert Parent(e, c) == Parent(t, c);
    assert s.synced == t.synced;
    DetachKeeps(t, {c});
    forall y ensures RowsOf(s, y) == RowsOf(t, y) {
      PutRows(e.overwrites, c, map[], y);
      PutRows(Detached(t, {c}).overwrites, c, WithRow(RowsOf(Detached(t, {c}), c), x, bits), y);
    }
    SyncFollows(e, c);
    SameRows(s, t);
  }

  lemma SameRows(s: Tables, t: Tables)
    requires RowsInv(s) && RowsInv(t)
    requires forall y :: RowsOf(s, y) == RowsOf(t, y)
    ensures s.overwrites == t.overwrites
  {
    forall y ensures y in s.overwrites <==> y in t.overwrites {
      assert RowsOf(s, y) == RowsOf(t, y);
    }
    forall y | y in s.overwrites ensures s.overwrites[y] == t.overwrites[y] {
      assert RowsOf(s, y) == RowsOf(t, y);
    }
  }

  lemma PutBack(ow: Overwrites, c: ChannelId, rows: Rows)
    requires c in ow ==> ow[c] != map[]
    ensures Put(Put(ow, c, rows), c, if c in ow then ow[c] else map[]) == ow
  {
  }

  lemma EditOfUnsynced(t: Tables, c: ChannelId, x: Target, bits: Bits)
    requires OrderInv(t) && SyncInv(t) && !Follows(t, c)
    ensures Edited(t, c, x, bits) == t.(overwrites := Put(t.overwrites, c, WithRow(RowsOf(t, c), x, bits)))
  {
    SourceFacts(t, c);
  }

  // A row as set_overwrite writes it: some bit, only known bits, none in both.
  predicate Shaped(b: Bits) { b != Bits({}, {}) && b.allow <= KNOWN_MASK && b.deny <= KNOWN_MASK && b.allow * b.deny == {} }

  predicate AllShaped(rows: Rows) { forall x :: x in rows ==> Shaped(rows[x]) }

  ghost predicate RowsShaped(t: Tables) { forall c :: AllShaped(RowsOf(t, c)) }

  // The bits the guard writes back: those listed before, none for no row.
  function BitsBefore(rows: Rows, x: Target): Bits { if x in rows then rows[x] else Bits({}, {}) }

  function Reverted(t: Tables, c: ChannelId, x: Target, bits: Bits): Tables
  {
    var was := BitsBefore(RowsOf(t, c), x);
    Edited(Edited(t, c, x, bits), c, x, Masked(was.allow, was.deny))
  }

  lemma RowPutBack(rows: Rows, x: Target, bits: Bits)
    ensures var was := BitsBefore(rows, x);
            WithRow(WithRow(rows, x, bits), x, Masked(was.allow, was.deny)) == rows <==> (x in rows ==> Shaped(rows[x]))
  {
    var was := BitsBefore(rows, x);
    var now := Masked(was.allow, was.deny);
    var back := WithRow(WithRow(rows, x, bits), x, now);
    assert x in back <==> now != Bits({}, {});
    if x in rows {
      assert now == was <==> was.allow <= KNOWN_MASK && was.deny <= KNOWN_MASK && was.allow * was.deny == {} by { MaskedIsShaped(was); }
    }
    assert back - {x} == rows - {x};
  }

  // Masking leaves just the rows of that shape as they are.
  lemma MaskedIsShaped(b: Bits)
    ensures Masked(b.allow, b.deny) == b <==> b.allow <= KNOWN_MASK && b.deny <= KNOWN_MASK && b.allow * b.deny == {}
    ensures Masked(b.allow, b.deny) == Bits({}, {}) || Shaped(Masked(b.allow, b.deny))
  {
    var m := Masked(b.allow, b.deny);
    assert m.allow <= KNOWN_MASK && m.deny <= KNOWN_MASK && m.allow * m.deny == {};
    if b.allow <= KNOWN_MASK && b.deny <= KNOWN_MASK && b.allow * b.deny == {} {
      assert m.deny == b.deny && b.allow * KNOWN_MASK == b.allow;
      assert forall x :: x in b.allow ==> x !in b.allow * b.deny;
      assert m.allow == b.allow - b.deny == b.allow;
    }
  }

  // The guard after an edit of an unsynced channel writes the old bits of the
  // row back (none: deleting it). That puts back exactly the tables if the old
  // row was one set_overwrite could have written, and only then.
  lemma EditUndoesEdit(t: Tables, c: ChannelId, x: Target, bits: Bits)
    requires Inv(t) && c in t.kinds && !Follows(t, c)
    ensures Reverted(t, c, x, bits) == t <==> (x in RowsOf(t, c) ==> Shaped(RowsOf(t, c)[x]))
  {
    var rows, was := RowsOf(t, c), BitsBefore(RowsOf(t, c), x);
    var back := WithRow(WithRow(rows, x, bits), x, Masked(was.allow, was.deny));
    EditChangesOneTarget(t, c, x, bits);
    EditOfUnsynced(t, c, x, bits);
    EditOfUnsynced(Edited(t, c, x, bits), c, x, Masked(was.allow, was.deny));
    PutRows(t.overwrites, c, WithRow(rows, x, bits), c);
    PutTwice(t, c, WithRow(rows, x, bits), back);
    RowPutBack(rows, x, bits);
  }

  // Only the rows written last remain.
  lemma PutTwice(t: Tables, c: ChannelId, first: Rows, second: Rows)
    requires RowsInv(t)
    ensures Put(Put(t.overwrites, c, first), c, second) == Put(t.overwrites, c, second)
    ensures Put(t.overwrites, c, second) == t.overwrites <==> second == RowsOf(t, c)
  {
    if second == RowsOf(t, c) { PutBack(t.overwrites, c, first); }
  }

  // The guard after a sync: restoring the rows listed before it.
  lemma RestoreUndoesSync(t: Tables, c: ChannelId)
    requires Inv(t) && CanSync(t, c) && c !in t.synced
    ensures Restored(Synced(t, c), c, Effective(t, c)) == t
  {
    SourceFacts(t, c);
    SyncFollows(t, c);
    ParentIsCategory(t.order, t.kinds, c, NO_CATEGORY);
    OwnRows(Synced(t, c), c, Effective(t, c));
    var r := Restored(Synced(t, c), c, Effective(t, c));
    forall y ensures RowsOf(r, y) == RowsOf(t, y) {
      PutRows(t.overwrites, c, map[], y);
    }
    SameRows(r, t);
    assert r.synced == t.synced;
  }

  // restore_channel_overwrites checks no id: it keeps the invariant exactly
  // when the channel exists or there is nothing to restore.
  lemma RestoreKeepsIffKnown(t: Tables, c: ChannelId, rows: Rows)
    requires Inv(t)
    ensures Inv(Restored(t, c, rows)) <==> (c in t.kinds || rows == map[])
  {
    if c in t.kinds {
      OwnRows(t, c, rows);
    } else if rows == map[] {
      assert c !in t.overwrites && c !in t.synced;
      assert Restored(t, c, rows) == t;
    } else {
      assert c in Restored(t, c, rows).overwrites;
    }
  }

  // ---- the shape of stored rows ----

  lemma DetachedShaped(t: Tables, cs: set<ChannelId>)
    requires RowsShaped(t)
    ensures RowsShaped(Detached(t, cs))
  {
    forall c ensures AllShaped(RowsOf(Detached(t, cs), c)) {
      assert RowsOf(Detached(t, cs), c) == RowsAfterDetach(t, cs, c);
      assert AllShaped(RowsOf(t, Source(t, c)));
    }
  }

  lemma PutShaped(t: Tables, t': Tables, c: ChannelId, rows: Rows)
    requires RowsShaped(t) && t'.overwrites == Put(t.overwrites, c, rows)
    ensures RowsShaped(t') <==> AllShaped(rows)
  {
    forall x ensures RowsOf(t', x) == if x == c then rows else RowsOf(t, x) { PutRows(t.overwrites, c, rows, x); }
    assert AllShaped(RowsOf(t', c)) <==> AllShaped(rows);
  }

  // What set_overwrite writes has the shape.
  lemma EditShaped(t: Tables, c: ChannelId, x: Target, allow: Perms, deny: Perms)
    requires RowsShaped(t)
    ensures RowsShaped(Edited(t, c, x, Masked(allow, deny)))
  {
    var d := if Source(t, c) != c then Detached(t, {c}) else t;
    var bits := Masked(allow, deny);
    if Source(t, c) != c { DetachedShaped(t, {c}); }
    assert AllShaped(RowsOf(d, c));
    assert bits != Bits({}, {}) ==> Shaped(bits);
    PutShaped(d, Edited(t, c, x, bits), c, WithRow(RowsOf(d, c), x, bits));
  }
}
