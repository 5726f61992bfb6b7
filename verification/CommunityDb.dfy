// The community database object: the tables, the caches derived from them,
// and every operation on roles, members, channels and overwrites. Each method
// is one critical section (the source holds mutex_ throughout) and each
// transaction is one successful step.
module CommunityDatabase {
  import opened Options
  import opened Decimal
  import opened ChannelOrder
  import opened Roles
  import opened Permissions
  import opened CategorySync
  import opened Membership
  import opened Runs

  const PERM_CACHE_MAX := 4096
  const USER_CACHE_MAX := 1024

  // ---- cache coherence ----

  ghost predicate EntriesCoherent(t: Tables, cache: map<Uid, PermEntry>)
  {
    forall u :: u in cache ==> IsEntry(t, u, cache[u])
  }

  ghost predicate ChannelsCoherent(t: Tables, passes: Passes, cache: map<Uid, map<ChannelId, Perms>>)
  {
    forall u, c :: u in cache && c in cache[u] ==> c in t.kinds && cache[u][c] == ChannelPerms(t, passes, u, c)
  }

  ghost predicate RowsCoherent(t: Tables, cache: map<ChannelId, Rows>)
  {
    forall c :: c in cache ==> cache[c] == RowsOf(t, c)
  }

  ghost predicate LayoutOf(t: Tables, seen: set<ChannelId>, parentOf: map<ChannelId, ChannelId>, syncedOf: map<ChannelId,
        bool>, categorySyncOf: map<ChannelId, bool>)
  {
    && parentOf.Keys == seen && syncedOf.Keys == seen
    && (forall c :: c in seen ==> parentOf[c] == Parent(t, c) && syncedOf[c] == (c in t.synced && !IsCategory(t.kinds, c)))
    && (forall c :: c in categorySyncOf <==> c in seen && IsCategory(t.kinds, c))
    && (forall c :: c in categorySyncOf ==> categorySyncOf[c] == (c in t.syncing))
  }

  ghost predicate LayoutMaps(t: Tables, parentOf: map<ChannelId, ChannelId>, syncedOf: map<ChannelId, bool>, categorySyncOf: map<ChannelId, bool>)
  {
    LayoutOf(t, t.kinds.Keys, parentOf, syncedOf, categorySyncOf)
  }

  // ---- what the loops of one method compute ----

  // The layout pass reaches row `i` with the category above it in hand.
  lemma NextRow(order: seq<ChannelId>, kinds: Kinds, i: nat)
    requires Distinct(order) && i < |order|
    ensures var above := LastCategory(order[..i], kinds, NO_CATEGORY);
            && ParentIn(order, kinds, order[i], NO_CATEGORY) == (if IsCategory(kinds, order[i]) then NO_CATEGORY else above)
            && LastCategory(order[..i + 1], kinds, NO_CATEGORY) == (if IsCategory(kinds, order[i]) then order[i] else above)
    ensures Ids(order[..i + 1]) == Ids(order[..i]) + {order[i]}
  {
    assert order == order[..i] + order[i..];
    assert order[..i + 1] == order[..i] + [order[i]];
    ParentAppend(order[..i], order[i..], kinds, order[i], NO_CATEGORY);
    ParentAppend(order[..i], [order[i]], kinds, order[i], NO_CATEGORY);
  }

  lemma LayoutMore(t: Tables, seen: set<ChannelId>, parentOf: map<ChannelId, ChannelId>, syncedOf: map<ChannelId, bool>,
        categorySyncOf: map<ChannelId, bool>, id: ChannelId)
    requires LayoutOf(t, seen, parentOf, syncedOf, categorySyncOf)
    ensures LayoutOf(t, seen + {id}, parentOf[id := Parent(t, id)], syncedOf[id := id in t.synced && !IsCategory(t.kinds, id)],
                     if IsCategory(t.kinds, id) then categorySyncOf[id := id in t.syncing] else categorySyncOf)
  {
  }

  // overwrite_source_unlocked_ on the layout maps.
  function SourceLookup(parentOf: map<ChannelId, ChannelId>, syncedOf: map<ChannelId, bool>,
        categorySyncOf: map<ChannelId, bool>, c: ChannelId): ChannelId
  {
    if c !in parentOf || parentOf[c] == NO_CATEGORY then c
    else if c !in syncedOf || !syncedOf[c] then c
    else if parentOf[c] in categorySyncOf && categorySyncOf[parentOf[c]] then parentOf[c]
    else c
  }

  lemma LookupIsSource(t: Tables, parentOf: map<ChannelId, ChannelId>, syncedOf: map<ChannelId, bool>,
        categorySyncOf: map<ChannelId, bool>, c: ChannelId)
    requires OrderInv(t) && LayoutMaps(t, parentOf, syncedOf, categorySyncOf)
    ensures SourceLookup(parentOf, syncedOf, categorySyncOf, c) == Source(t, c)
  {
    ParentIsCategory(t.order, t.kinds, c, NO_CATEGORY);
  }

  // The loop of enforce_sync_invariant_unlocked_ over the synced flags.
  method StrayIds(t: Tables, parentOf: map<ChannelId, ChannelId>, syncedOf: map<ChannelId, bool>, categorySyncOf: map<ChannelId, bool>)
      returns (stray: set<ChannelId>)
    requires OrderInv(t) && LayoutMaps(t, parentOf, syncedOf, categorySyncOf)
    ensures stray == Strays(t)
  {
    stray := {};
    var todo := syncedOf.Keys;
    while todo != {}
      invariant todo <= t.kinds.Keys
      invariant stray == Strays(t) - todo
    {
      var id :| id in todo;
      LookupIsSource(t, parentOf, syncedOf, categorySyncOf, id);
      if syncedOf[id] && SourceLookup(parentOf, syncedOf, categorySyncOf, id) == id { stray := stray + {id}; }
      todo := todo - {id};
    }
  }

  // The loop over the parents that collects a category's followers.
  method FollowerIds(t: Tables, parentOf: map<ChannelId, ChannelId>, syncedOf: map<ChannelId, bool>,
        categorySyncOf: map<ChannelId, bool>, category: ChannelId)
      returns (followers: set<ChannelId>)
    requires OrderInv(t) && LayoutMaps(t, parentOf, syncedOf, categorySyncOf) && category in t.kinds
    ensures followers == Followers(t, category)
  {
    followers := {};
    var todo := parentOf.Keys;
    while todo != {}
      invariant todo <= t.kinds.Keys
      invariant followers == Followers(t, category) - todo
    {
      var id :| id in todo;
      FollowerParent(t, category, id);
      LookupIsSource(t, parentOf, syncedOf, categorySyncOf, id);
      if parentOf[id] == category && SourceLookup(parentOf, syncedOf, categorySyncOf, id) == category {
        followers := followers + {id};
      }
      todo := todo - {id};
    }
  }

  lemma PositionsFromZero(t: Tables)
    requires RolesInv(t)
    ensures forall r :: r in t.roles ==> t.roles[r].position >= 0
    ensures t.everyone in t.roles
  {
    var list :| Ranked(t.roles, t.everyone, list);
    RankedCount(t.roles, t.everyone, list);
  }

  // What one pass over the roles that apply makes of them is the entry.
  lemma EntryOfPass(t: Tables, uid: Uid, p: Perms, level: int, peers: bool)
    requires RolesInv(t) && !IsOwner(t, uid)
    requires p == Granted(t.roles, Applying(t, uid)) && TopSoFar(t, Applying(t, uid), level, peers)
    ensures IsEntry(t, uid, PermEntry(if ADMINISTRATOR in p then ALL else p, if level > 0 then level else 0, peers))
  {
    PositionsFromZero(t);
    assert t.everyone in Applying(t, uid);
  }

  // permissions, level and peer flag over the roles read so far
  ghost predicate TopSoFar(t: Tables, read: set<RoleId>, level: int, peers: bool)
  {
    if read == {} then level == -1 && !peers
    else exists r :: IsTop(t.roles, read, r) && level == t.roles[r].position && peers == t.roles[r].manageEachOther
  }

  lemma GrantedMore(roles: RoleTable, read: set<RoleId>, r: RoleId)
    requires r in roles
    ensures Granted(roles, read + {r}) == Granted(roles, read) + roles[r].permissions
  {
  }

  lemma TopMore(t: Tables, read: set<RoleId>, r: RoleId, level: int, peers: bool)
    requires TopSoFar(t, read, level, peers) && read <= t.roles.Keys && r in t.roles && t.roles[r].position >= 0
    ensures var higher := t.roles[r].position > level;
            TopSoFar(t, read + {r}, if higher then t.roles[r].position else level, if higher then t.roles[r].manageEachOther else peers)
  {
    if read == {} {
      assert IsTop(t.roles, read + {r}, r);
    } else {
      var q :| IsTop(t.roles, read, q) && level == t.roles[q].position && peers == t.roles[q].manageEachOther;
      if t.roles[r].position > level {
        assert IsTop(t.roles, read + {r}, r);
      } else {
        assert IsTop(t.roles, read + {r}, q);
      }
    }
  }

  // Allow and deny over the overwrite rows read so far.
  ghost predicate Folded(t: Tables, uid: Uid, rows: Rows, read: set<Target>, how: Relation, allow: Perms, deny: Perms)
  {
    && allow == (set x, b | x in read && x in rows && Relates(t, uid, x) == how && b in rows[x].allow :: b)
    && deny == (set x, b | x in read && x in rows && Relates(t, uid, x) == how && b in rows[x].deny :: b)
  }

  lemma FoldMore(t: Tables, uid: Uid, rows: Rows, read: set<Target>, how: Relation, allow: Perms, deny: Perms, x: Target)
    requires Folded(t, uid, rows, read, how, allow, deny) && x in rows
    ensures Relates(t, uid, x) == how ==> Folded(t, uid, rows, read + {x}, how, allow + rows[x].allow, deny + rows[x].deny)
    ensures Relates(t, uid, x) != how ==> Folded(t, uid, rows, read + {x}, how, allow, deny)
  {
  }

  lemma FoldedAll(t: Tables, uid: Uid, rows: Rows, how: Relation, allow: Perms, deny: Perms)
    requires Folded(t, uid, rows, rows.Keys, how, allow, deny)
    ensures allow == AllowedBy(t, uid, rows, how) && deny == DeniedBy(t, uid, rows, how)
  {
  }

  lemma ChannelsMore(t: Tables, passes: Passes, cache: map<Uid, map<ChannelId, Perms>>, uid: Uid, mine: map<ChannelId, Perms>, c: ChannelId, p: Perms)
    requires ChannelsCoherent(t, passes, cache) && uid in cache
    requires mine == cache[uid] || mine == map[]
    requires c in t.kinds && p == ChannelPerms(t, passes, uid, c)
    ensures ChannelsCoherent(t, passes, cache[uid := mine[c := p]])
  {
  }

  lemma EmptyEntry(t: Tables, passes: Passes, cache: map<Uid, map<ChannelId, Perms>>, uid: Uid)
    requires ChannelsCoherent(t, passes, cache) && uid !in cache
    ensures ChannelsCoherent(t, passes, cache[uid := map[]])
  {
  }

  // Passes of one member concern no other member's cached permissions.
  lemma PassesOfOthers(t: Tables, passes: Passes, passes': Passes, cache: map<Uid, map<ChannelId, Perms>>, uid: Uid)
    requires ChannelsCoherent(t, passes, cache)
    requires forall u :: u != uid ==> (u in passes' <==> u in passes) && (u in passes ==> passes'[u] == passes[u])
    ensures ChannelsCoherent(t, passes', cache - {uid})
  {
    forall u, c | u in cache && u != uid && c in cache[u] ensures ChannelPerms(t, passes', u, c) == ChannelPerms(t, passes, u, c) {
      assert HasPass(passes', u, c) == HasPass(passes, u, c);
    }
  }

  // A change that leaves everyone but `uid` alone keeps the other entries.
  lemma OthersCoherent(t: Tables, t': Tables, passes: Passes, entries: map<Uid, PermEntry>, cache: map<Uid, map<ChannelId, Perms>>, uid: Uid)
    requires EntriesCoherent(t, entries) && ChannelsCoherent(t, passes, cache) && t'.kinds == t.kinds
    requires forall u, e :: u != uid ==> IsEntry(t', u, e) == IsEntry(t, u, e)
    requires forall u, c :: u != uid ==> ChannelPerms(t', passes, u, c) == ChannelPerms(t, passes, u, c)
    ensures EntriesCoherent(t', entries - {uid}) && ChannelsCoherent(t', passes, cache - {uid})
  {
  }

  // Operations on channels leave every entry as it is.
  lemma EntriesStay(t: Tables, t': Tables, entries: map<Uid, PermEntry>)
    requires EntriesCoherent(t, entries)
    requires t'.roles == t.roles && t'.everyone == t.everyone && t'.owner == t.owner && t'.memberRoles == t.memberRoles
    ensures EntriesCoherent(t', entries)
  {
    forall u, e ensures IsEntry(t', u, e) == IsEntry(t, u, e) { EntryFrame(t, t', u, e); }
  }

  lemma CachedRowsAfter(t: Tables, c: ChannelId, rows: Rows, cache: map<ChannelId, Rows>)
    requires RowsCoherent(t, cache)
    ensures RowsCoherent(t.(overwrites := Put(t.overwrites, c, rows)), cache - {c})
  {
    forall x { PutRows(t.overwrites, c, rows, x); }
  }

  ghost predicate KeptSoFar(t: Tables, d: Tables, rowsOf: map<ChannelId, Rows>, done: set<ChannelId>)
  {
    && d == t.(synced := t.synced - done, overwrites := d.overwrites)
    && (forall c :: c in d.overwrites ==> d.overwrites[c] != map[])
    && (forall c :: RowsOf(d, c) == if c in done && c in rowsOf then rowsOf[c] else RowsOf(t, c))
  }

  lemma KeptMore(t: Tables, d: Tables, rowsOf: map<ChannelId, Rows>, done: set<ChannelId>, c: ChannelId)
    requires KeptSoFar(t, d, rowsOf, done) && c in rowsOf
    ensures KeptSoFar(t, Restored(d, c, rowsOf[c]), rowsOf, done + {c})
  {
    forall x { PutRows(d.overwrites, c, rowsOf[c], x); }
  }

  lemma KeptAll(t: Tables, d: Tables, rowsOf: map<ChannelId, Rows>)
    requires KeptSoFar(t, d, rowsOf, rowsOf.Keys)
    ensures d == Kept(t, rowsOf)
  {
    var k := Kept(t, rowsOf);
    forall c ensures c in d.overwrites <==> c in k.overwrites { assert RowsOf(d, c) == KeptRows(t, rowsOf, c); }
    forall c | c in d.overwrites ensures d.overwrites[c] == k.overwrites[c] { assert RowsOf(d, c) == KeptRows(t, rowsOf, c); }
  }

  lemma FollowerParent(t: Tables, category: ChannelId, id: ChannelId)
    requires category in t.kinds && NO_CATEGORY !in t.kinds
    ensures id in Followers(t, category) <==> id in t.kinds && Parent(t, id) == category && Source(t, id) == category
  {
    ParentIsCategory(t.order, t.kinds, id, NO_CATEGORY);
  }

  lemma SwitchedSteps(t: Tables, category: ChannelId, on: bool, rowsOf: map<ChannelId, Rows>)
    requires RowsInv(t)
    requires rowsOf.Keys == if on then {} else Followers(t, category)
    requires forall f :: f in rowsOf ==> rowsOf[f] == RowsOf(t, category)
    ensures Kept(t, rowsOf).(syncing := if on then t.syncing + {category} else t.syncing - {category}) == Switched(t, category, on)
  {
    if on {
      assert rowsOf == map[];
      forall c ensures KeptRows(t, rowsOf, c) == RowsOf(t, c) {}
      assert Kept(t, rowsOf).overwrites == t.overwrites;
    } else {
      DetachedIsKept(t, Followers(t, category), rowsOf);
    }
  }

  lemma SwitchReady(t: Tables, category: ChannelId, on: bool, rowsOf: map<ChannelId, Rows>, entries: map<Uid, PermEntry>)
    requires Inv(t) && EntriesCoherent(t, entries) && IsCategory(t.kinds, category) && (on ==> category !in t.syncing)
    requires rowsOf == if on then map[] else map f | f in Followers(t, category) :: RowsOf(t, category)
    ensures Kept(t, rowsOf).(syncing := if on then t.syncing + {category} else t.syncing - {category}) == Switched(t, category, on)
    ensures Inv(Switched(t, category, on)) && EntriesCoherent(Switched(t, category, on), entries)
  {
    SwitchedSteps(t, category, on, rowsOf);
    SwitchKeeps(t, category, on);
    EntriesStay(t, Switched(t, category, on), entries);
  }

  // Which category each channel follows.
  ghost predicate FollowedBy(t: Tables, followed: map<ChannelId, ChannelId>)
  {
    forall c :: (c in followed <==> c in t.kinds && Source(t, c) != c) && (c in followed ==> followed[c] == Parent(t, c))
  }

  method FollowedPairs(t: Tables, parentOf: map<ChannelId, ChannelId>, syncedOf: map<ChannelId, bool>, categorySyncOf: map<ChannelId, bool>)
      returns (followed: map<ChannelId, ChannelId>)
    requires OrderInv(t) && LayoutMaps(t, parentOf, syncedOf, categorySyncOf)
    ensures FollowedBy(t, followed)
  {
    followed := map[];
    var todo := parentOf.Keys;
    while todo != {}
      invariant todo <= t.kinds.Keys
      invariant forall c :: c in followed <==> c in t.kinds && c !in todo && Source(t, c) != c
      invariant forall c :: c in followed ==> followed[c] == Parent(t, c)
    {
      var id :| id in todo;
      LookupIsSource(t, parentOf, syncedOf, categorySyncOf, id);
      ParentIsCategory(t.order, t.kinds, id, NO_CATEGORY);
      if parentOf[id] != NO_CATEGORY && SourceLookup(parentOf, syncedOf, categorySyncOf, id) == parentOf[id] {
        followed := followed[id := parentOf[id]];
      }
      todo := todo - {id};
    }
  }

  // Those now under another category.
  method MovedPairs(ghost t: Tables, ghost d: Tables, followed: map<ChannelId, ChannelId>, parentOf: map<ChannelId, ChannelId>)
      returns (moved: map<ChannelId, ChannelId>)
    requires FollowedBy(t, followed) && d == t.(order := d.order)
    requires parentOf.Keys == t.kinds.Keys && forall c :: c in parentOf ==> parentOf[c] == Parent(d, c)
    ensures moved == map c | c in MovedAway(t, d.order) :: Parent(t, c)
  {
    moved := map[];
    var todo := followed.Keys;
    while todo != {}
      invariant todo <= followed.Keys
      invariant moved == map c | c in MovedAway(t, d.order) && c !in todo :: Parent(t, c)
    {
      var c :| c in todo;
      if parentOf[c] != followed[c] { moved := moved[c := followed[c]]; }
      todo := todo - {c};
    }
  }

  // The rows of the category each moved follower leaves are its own now.
  lemma ReorderReady(t: Tables, d: Tables, ids: seq<ChannelId>, moved: map<ChannelId, ChannelId>, rowsOf: map<ChannelId, Rows>)
    requires d == t.(order := Normalize(ids, t.kinds))
    requires moved == map c | c in MovedAway(t, d.order) :: Parent(t, c)
    requires rowsOf == map c | c in moved :: RowsOf(d, moved[c])
    ensures Kept(d, rowsOf) == Reordered(t, ids)
  {
    forall c | c in rowsOf ensures rowsOf[c] == Effective(t, c) {
      assert c in moved && moved[c] == Parent(t, c) && RowsOf(d, moved[c]) == RowsOf(t, moved[c]);
    }
    DetachedIsKept(t, MovedAway(t, d.order), rowsOf);
    KeptInOrder(t, d, rowsOf);
  }

  lemma KeptInOrder(t: Tables, d: Tables, rowsOf: map<ChannelId, Rows>)
    requires d == t.(order := d.order)
    ensures Kept(d, rowsOf) == Kept(t, rowsOf).(order := d.order)
  {
    forall c ensures KeptRows(d, rowsOf, c) == KeptRows(t, rowsOf, c) {}
  }

  lemma ReorderInv(t: Tables, ids: seq<ChannelId>, entries: map<Uid, PermEntry>)
    requires Inv(t) && EntriesCoherent(t, entries) && IsListing(t, ids)
    ensures Inv(Reordered(t, ids)) && EntriesCoherent(Reordered(t, ids), entries)
  {
    ReorderKeeps(t, ids);
    EntriesStay(t, Reordered(t, ids), entries);
  }

  lemma ListingOrder(t: Tables, ids: seq<ChannelId>)
    requires OrderInv(t) && IsListing(t, ids)
    ensures forall c :: c in ids <==> c in t.kinds
    ensures OrderInv(t.(order := Normalize(ids, t.kinds)))
  {
    forall c ensures c in ids <==> c in t.kinds { assert c in ids <==> c in Ids(ids); }
    NormalizeFacts(ids, t.kinds);
  }

  // The channel's own rows go, and the order is normalised.
  function RowsGone(t: Tables, c: ChannelId): Tables
  {
    var kinds := t.kinds - {c};
    t.(order := Normalize(Drop(t.order, c), kinds), kinds := kinds, synced := t.synced - {c}, syncing := t.syncing - {c},
       overwrites := t.overwrites - {c})
  }

  lemma RemoveReady(t: Tables, c: ChannelId, rowsOf: map<ChannelId, Rows>, entries: map<Uid, PermEntry>)
    requires Inv(t) && EntriesCoherent(t, entries) && c in t.kinds
    requires rowsOf == map f | f in Followers(t, c) :: RowsOf(t, c)
    ensures RowsGone(Kept(t, rowsOf), c) == Removed(t, c)
    ensures Inv(Removed(t, c)) && EntriesCoherent(Removed(t, c), entries)
    ensures forall x :: x in Drop(t.order, c) ==> x in t.kinds && x != c
  {
    DetachedIsKept(t, Followers(t, c), rowsOf);
    RemoveKeeps(t, c);
    DropFacts(t.order, c);
    EntriesStay(t, Removed(t, c), entries);
  }

  lemma CachedRowsDropped(t: Tables, t': Tables, c: ChannelId, cache: map<ChannelId, Rows>)
    requires RowsCoherent(t, cache) && t'.overwrites == t.overwrites - {c}
    ensures RowsCoherent(t', cache - {c})
  {
  }

  lemma AddReady(t: Tables, id: ChannelId, kind: Kind, category: ChannelId, entries: map<Uid, PermEntry>)
    requires Inv(t) && EntriesCoherent(t, entries) && id !in t.kinds && id != NO_CATEGORY
    requires Place(t.order, t.kinds, kind, category).Some?
    ensures Inv(Added(t, id, kind, category)) && EntriesCoherent(Added(t, id, kind, category), entries)
    ensures forall x :: x in Inserted(t, id, kind, category) ==> x in t.kinds[id := kind]
  {
    AddKeeps(t, id, kind, category);
    InsertedListing(t.order, Place(t.order, t.kinds, kind, category).value, id);
    EntriesStay(t, Added(t, id, kind, category), entries);
  }

  lemma EditReady(t: Tables, c: ChannelId, x: Target, bits: Bits, entries: map<Uid, PermEntry>)
    requires Inv(t) && EntriesCoherent(t, entries) && c in t.kinds
    ensures Inv(Edited(t, c, x, bits)) && EntriesCoherent(Edited(t, c, x, bits), entries)
  {
    EditChangesOneTarget(t, c, x, bits);
    EntriesStay(t, Edited(t, c, x, bits), entries);
  }

  // What set_overwrite copies onto a channel before editing it.
  function Inherited(t: Tables, c: ChannelId): Rows
  {
    if Source(t, c) != c then Effective(t, c) else map[]
  }

  // The writes of set_overwrite, given the rows copied.
  predicate EditsTo(t: Tables, c: ChannelId, x: Target, bits: Bits, inherited: Rows, next: Tables)
  {
    var u := if inherited != map[] then Restored(t, c, inherited) else t;
    var v := if IsCategory(t.kinds, c) then u else u.(synced := u.synced - {c});
    v.(overwrites := Put(v.overwrites, c, WithRow(RowsOf(v, c), x, bits))) == next
  }

  // A channel that follows nothing is edited from its own rows; one that
  // follows, from the rows copied onto it, if there are any.
  lemma EditSteps(t: Tables, c: ChannelId, x: Target, bits: Bits)
    requires OrderInv(t) && SyncInv(t) && RowsInv(t)
    ensures EditsTo(t, c, x, bits, Inherited(t, c), Edited(t, c, x, bits))
  {
    SourceFacts(t, c);
    if Source(t, c) != c {
      DetachOne(t, c);
    } else if !IsCategory(t.kinds, c) {
      assert t.synced - {c} == t.synced;
    }
  }

  lemma DetachOne(t: Tables, c: ChannelId)
    requires RowsInv(t) && RowsOf(t, c) == map[]
    ensures Detached(t, {c}) == Restored(t, c, Effective(t, c))
    ensures Effective(t, c) == map[] ==> Restored(t, c, Effective(t, c)) == t.(synced := t.synced - {c})
  {
    forall y ensures RowsAfterDetach(t, {c}, y) == if y == c then Effective(t, c) else RowsOf(t, y) {}
    assert c !in t.overwrites;
  }

  lemma RoleCreateReady(t: Tables, role: Role, cache: map<ChannelId, Rows>)
    requires Inv(t) && RowsCoherent(t, cache)
    ensures Inv(RoleCreated(t, role)) && t.nextRole !in t.roles && SameLayout(t, RoleCreated(t, role))
    ensures RowsCoherent(RoleCreated(t, role), cache)
  {
    RoleCreateKeepsInv(t, role);
  }

  lemma RoleDeleteReady(t: Tables, id: RoleId)
    requires Inv(t) && id in t.roles && !t.roles[id].isDefault
    ensures Inv(RoleDeleted(t, id)) && SameLayout(t, RoleDeleted(t, id)) && RowsCoherent(RoleDeleted(t, id), map[])
  {
    RoleDeleteKeepsInv(t, id);
  }

  lemma SyncReady(t: Tables, c: ChannelId, entries: map<Uid, PermEntry>, cache: map<ChannelId, Rows>)
    requires Inv(t) && EntriesCoherent(t, entries) && RowsCoherent(t, cache) && CanSync(t, c)
    ensures Inv(Synced(t, c)) && EntriesCoherent(Synced(t, c), entries)
    ensures RowsCoherent(Synced(t, c), cache - {c})
  {
    SyncFollows(t, c);
    EntriesStay(t, Synced(t, c), entries);
    CachedRowsAfter(t, c, map[], cache);
  }

  lemma RestoreReady(t: Tables, c: ChannelId, rows: Rows, entries: map<Uid, PermEntry>, cache: map<ChannelId, Rows>)
    requires Inv(t) && EntriesCoherent(t, entries) && RowsCoherent(t, cache)
    ensures Inv(Restored(t, c, rows)) <==> (c in t.kinds || rows == map[])
    ensures EntriesCoherent(Restored(t, c, rows), entries) && RowsCoherent(Restored(t, c, rows), cache - {c})
  {
    RestoreKeepsIffKnown(t, c, rows);
    EntriesStay(t, Restored(t, c, rows), entries);
    CachedRowsAfter(t, c, rows, cache);
  }

  // DELETE FROM channels WHERE id = ?, in list order.
  method DropRow(order: seq<ChannelId>, c: ChannelId) returns (left: seq<ChannelId>)
    ensures left == Drop(order, c)
  {
    left := [];
    for i := 0 to |order|
      invariant left + Drop(order[i..], c) == Drop(order, c)
    {
      assert order[i..][1..] == order[i + 1..];
      if order[i] != c {
        assert left + ([order[i]] + Drop(order[i + 1..], c)) == left + [order[i]] + Drop(order[i + 1..], c);
        left := left + [order[i]];
      }
    }
  }

  // Each target once: the primary key an insert of the rows relies on.
  predicate OneRowPerTarget(rows: seq<(Target, Bits)>)
  {
    forall i, j :: 0 <= i < j < |rows| ==> rows[i].0 != rows[j].0
  }

  function RowMap(rows: seq<(Target, Bits)>): Rows
  {
    if rows == [] then map[] else RowMap(rows[..|rows| - 1])[rows[|rows| - 1].0 := rows[|rows| - 1].1]
  }

  lemma {:induction false} RowMapKeys(rows: seq<(Target, Bits)>, x: Target)
    ensures x in RowMap(rows) <==> exists i :: 0 <= i < |rows| && rows[i].0 == x
  {
    if rows != [] {
      var n := |rows| - 1;
      RowMapKeys(rows[..n], x);
      if x in RowMap(rows[..n]) {
        var i :| 0 <= i < n && rows[..n][i].0 == x;
        assert rows[i].0 == x;
      }
      if i :| 0 <= i < |rows| && rows[i].0 == x {
        assert i < n ==> rows[..n][i].0 == x;
      }
    }
  }

  // Without repetitions the map has just the rows listed.
  lemma {:induction false} RowMapRows(rows: seq<(Target, Bits)>, i: nat)
    requires OneRowPerTarget(rows) && i < |rows|
    ensures rows[i].0 in RowMap(rows) && RowMap(rows)[rows[i].0] == rows[i].1
    decreases |rows|
  {
    var n := |rows| - 1;
    if i < n {
      assert rows[..n][i] == rows[i];
      RowMapRows(rows[..n], i);
    }
  }

  // The INSERT loop: it stops at a target inserted twice.
  method InsertRows(rows: seq<(Target, Bits)>) returns (ok: bool, m: Rows)
    ensures ok == OneRowPerTarget(rows)
    ensures ok ==> m == RowMap(rows)
  {
    m := map[];
    for i := 0 to |rows|
      invariant OneRowPerTarget(rows[..i]) && m == RowMap(rows[..i])
    {
      assert rows[..i + 1][..i] == rows[..i];
      RowMapKeys(rows[..i], rows[i].0);
      if rows[i].0 in m { return false, m; }
      m := m[rows[i].0 := rows[i].1];
    }
    assert rows[..|rows|] == rows;
    ok := true;
  }

  // The insertion index, walking the list as create_channel does.
  method InsertionIndex(order: seq<ChannelId>, kinds: Kinds, kind: Kind, category: ChannelId) returns (p: Option<nat>)
    requires Distinct(order)
    ensures p == Place(order, kinds, kind, category)
  {
    if kind.Category? { return Some(|order|); }
    if category == NO_CATEGORY {
      var k := FindCategory(order, kinds, 0);
      return Some(k);
    }
    for i := 0 to |order|
      invariant forall j :: 0 <= j < i ==> !(order[j] == category && IsCategory(kinds, category))
    {
      if order[i] == category && IsCategory(kinds, order[i]) {
        var k := FindCategory(order, kinds, i + 1);
        assert IndexOf(order, category) == i;
        return Some(k);
      }
    }
    p := None;
  }

  method FindCategory(order: seq<ChannelId>, kinds: Kinds, i: nat) returns (k: nat)
    requires i <= |order|
    ensures k == NextCategory(order, kinds, i)
  {
    k := i;
    while k < |order| && !IsCategory(kinds, order[k])
      invariant i <= k <= |order|
      invariant NextCategory(order, kinds, k) == NextCategory(order, kinds, i)
    {
      k := k + 1;
    }
  }

  ghost predicate HasFreeId(kinds: Kinds, slug: string)
  {
    exists k :: 1 <= k <= MAX_CANDIDATE && Candidate(slug, k) !in kinds
  }

  // The first candidate no channel has.
  ghost predicate FirstFreeId(kinds: Kinds, slug: string, id: ChannelId)
  {
    && id !in kinds
    && exists k :: 1 <= k <= MAX_CANDIDATE && id == Candidate(slug, k) && forall j :: 1 <= j < k ==> Candidate(slug, j) in kinds
  }

  // The slug, or slug-2, slug-3... on collision, at most slug-999 (which may
  // be taken: the insert then fails).
  method UniqueId(kinds: Kinds, slug: string) returns (id: ChannelId)
    ensures id !in kinds <==> HasFreeId(kinds, slug)
    ensures id !in kinds ==> FirstFreeId(kinds, slug, id)
    ensures slug != "" ==> id != ""
    ensures id == slug || exists n :: 2 <= n <= 999 && id == slug + "-" + ToString(n)
  {
    id := slug;
    ghost var k := 1;
    var suffix: nat := 2;
    while suffix < 1000
      invariant 2 <= suffix <= 1000 && k == suffix - 1 && id == Candidate(slug, k)
      invariant forall j :: 1 <= j < k ==> Candidate(slug, j) in kinds
    {
      if id !in kinds { break; }
      id := slug + "-" + ToString(suffix);
      k, suffix := suffix, suffix + 1;
    }
  }

  predicate SameLayout(t: Tables, t': Tables)
  {
    t'.order == t.order && t'.kinds == t.kinds && t'.synced == t.synced && t'.syncing == t.syncing
  }

  lemma LayoutStays(t: Tables, t': Tables, parentOf: map<ChannelId, ChannelId>, syncedOf: map<ChannelId, bool>, categorySyncOf: map<ChannelId, bool>)
    requires LayoutMaps(t, parentOf, syncedOf, categorySyncOf)
    requires SameLayout(t, t')
    ensures LayoutMaps(t', parentOf, syncedOf, categorySyncOf)
  {
    forall c ensures Parent(t', c) == Parent(t, c) {}
  }

  // A member leaving or changing roles: what is left of the caches after that
  // member's entries (and, for leaving, the row cache) are dropped.
  lemma MemberChangeCoherent(t: Tables, uid: Uid, ids: seq<RoleId>, passes: Passes, entries: map<Uid, PermEntry>,
        cache: map<Uid, map<ChannelId, Perms>>)
    requires Inv(t) && EntriesCoherent(t, entries) && ChannelsCoherent(t, passes, cache)
    ensures EntriesCoherent(MemberGone(t, uid), entries - {uid})
    ensures ChannelsCoherent(MemberGone(t, uid), passes - {uid}, cache - {uid})
    ensures EntriesCoherent(RolesAssigned(t, uid, ids), entries - {uid})
    ensures ChannelsCoherent(RolesAssigned(t, uid, ids), passes, cache - {uid})
  {
    forall u, e | u != uid
      ensures IsEntry(MemberGone(t, uid), u, e) == IsEntry(t, u, e)
      ensures IsEntry(RolesAssigned(t, uid, ids), u, e) == IsEntry(t, u, e)
    {
      OthersUntouched(t, uid, ids, u, passes, NO_CATEGORY, e);
    }
    forall u, c | u != uid
      ensures ChannelPerms(MemberGone(t, uid), passes, u, c) == ChannelPerms(t, passes, u, c)
      ensures ChannelPerms(RolesAssigned(t, uid, ids), passes, u, c) == ChannelPerms(t, passes, u, c)
    {
      OthersUntouched(t, uid, ids, u, passes, c, PermEntry({}, 0, false));
    }
    OthersCoherent(t, MemberGone(t, uid), passes, entries, cache, uid);
    OthersCoherent(t, RolesAssigned(t, uid, ids), passes, entries, cache, uid);
    PassesOfOthers(MemberGone(t, uid), passes, passes - {uid}, cache - {uid}, uid);
    assert cache - {uid} - {uid} == cache - {uid};
  }

  lemma MemberGoneReady(t: Tables, uid: Uid, passes: Passes, entries: map<Uid, PermEntry>, cache: map<Uid, map<ChannelId, Perms>>)
    requires Inv(t) && EntriesCoherent(t, entries) && ChannelsCoherent(t, passes, cache)
    ensures var next := MemberGone(t, uid);
            && Inv(next) && SameLayout(t, next) && next.owner == t.owner
            && EntriesCoherent(next, entries - {uid}) && ChannelsCoherent(next, passes - {uid}, cache - {uid})
            && RowsCoherent(next, map[])
  {
    MemberChangeCoherent(t, uid, [], passes, entries, cache);
    MemberOpsKeepInv(t, uid, []);
  }

  lemma RolesAssignedReady(t: Tables, uid: Uid, ids: seq<RoleId>, passes: Passes, entries: map<Uid, PermEntry>,
        cache: map<Uid, map<ChannelId, Perms>>, rows: map<ChannelId, Rows>)
    requires Inv(t) && EntriesCoherent(t, entries) && ChannelsCoherent(t, passes, cache) && RowsCoherent(t, rows) && Assignable(t, ids)
    ensures var next := RolesAssigned(t, uid, ids);
            && Inv(next) && SameLayout(t, next) && next.owner == t.owner
            && EntriesCoherent(next, entries - {uid}) && ChannelsCoherent(next, passes, cache - {uid}) && RowsCoherent(next, rows)
  {
    MemberChangeCoherent(t, uid, ids, passes, entries, cache);
    MemberOpsKeepInv(t, uid, ids);
  }

  // Columns permissions are not read from.
  lemma UnreadColumns(t: Tables, t': Tables, passes: Passes, entries: map<Uid, PermEntry>, cache: map<Uid, map<ChannelId, Perms>>)
    requires EntriesCoherent(t, entries) && ChannelsCoherent(t, passes, cache)
    requires t' == t.(members := t'.members, banned := t'.banned)
    ensures EntriesCoherent(t', entries) && ChannelsCoherent(t', passes, cache)
  {
    forall u, e ensures IsEntry(t', u, e) == IsEntry(t, u, e) { EntryFrame(t, t', u, e); }
    forall u, c ensures ChannelPerms(t', passes, u, c) == ChannelPerms(t, passes, u, c) {
      assert Effective(t', c) == Effective(t, c) by { assert Parent(t', c) == Parent(t, c); }
      if c in t.kinds { SamePermissions(t, t', passes, u, c); }
    }
  }

  // With the permission caches dropped, only rows and layout are left to keep.
  lemma NothingCached(t: Tables, passes: Passes)
    ensures EntriesCoherent(t, map[]) && ChannelsCoherent(t, passes, map[]) && RowsCoherent(t, map[])
  {
  }

  // update_role clamps to the highest position, which is the number of
  // non-default roles.
  lemma HighestPosition(t: Tables, highest: int)
    requires RolesInv(t)
    requires forall everyone, list :: Ranked(t.roles, everyone, list) ==> highest == |list|
    ensures highest == |t.roles| - 1
  {
    var list :| Ranked(t.roles, t.everyone, list);
    RankedCount(t.roles, t.everyone, list);
  }

  // Two members are peers when their highest role is the same one and has
  // "members can manage each other" on; never the owner, never oneself.
  ghost predicate Peers(t: Tables, a: Uid, b: Uid)
  {
    && a != 0 && b != 0 && a != b && t.owner != a && t.owner != b
    && exists r :: IsTop(t.roles, Applying(t, a), r) && IsTop(t.roles, Applying(t, b), r) && t.roles[r].manageEachOther
  }

  lemma PeersByEntries(t: Tables, a: Uid, b: Uid, ea: PermEntry, eb: PermEntry)
    requires RolesInv(t) && !IsOwner(t, a) && !IsOwner(t, b)
    requires IsEntry(t, a, ea) && IsEntry(t, b, eb)
    ensures (ea.level == eb.level && ea.managePeers) <==>
            exists r :: IsTop(t.roles, Applying(t, a), r) && IsTop(t.roles, Applying(t, b), r) && t.roles[r].manageEachOther
  {
    var list :| Ranked(t.roles, t.everyone, list);
    RankedCount(t.roles, t.everyone, list);
    var p :| IsTop(t.roles, Applying(t, a), p) && ea.level == t.roles[p].position && ea.managePeers == t.roles[p].manageEachOther;
    var q :| IsTop(t.roles, Applying(t, b), q) && eb.level == t.roles[q].position && eb.managePeers == t.roles[q].manageEachOther;
    forall r | IsTop(t.roles, Applying(t, a), r) && IsTop(t.roles, Applying(t, b), r) ensures r == p == q {
      assert t.roles[r].position == t.roles[p].position && t.roles[r].position == t.roles[q].position;
    }
  }

  // The k-th id create_channel tries: the slug, then slug-2, slug-3...
  function Candidate(slug: string, k: nat): ChannelId
  {
    if k <= 1 then slug else slug + "-" + ToString(k)
  }

  const MAX_CANDIDATE: nat := 999

  datatype NewChannel = NewChannel(id: ChannelId, position: nat, permSynced: bool)

  // Close the gap at the old place and open one at the new, unless the place
  // stays; then write the row.
  method MoveRow(roles: RoleTable, id: RoleId, row: Role) returns (r: RoleTable)
    requires id in roles && !roles[id].isDefault
    ensures r == Updated(roles, id, row, row.position)
  {
    var from, to := roles[id].position, row.position;
    r := roles;
    if to != from {
      if to > from {
        r := Shift(r, from + 1, to, -1);
      } else {
        r := Shift(r, to, from - 1, 1);
      }
    } else {
      assert Shift(roles, to, from - 1, 1) == roles;
    }
    r := r[id := row.(isDefault := false)];
  }

  // The rows after an update: of the default role only the bits and the flag
  // change; any other role's position is clamped to 1..MAX(position).
  method RoleRows(t: Tables, id: RoleId, row: Role) returns (roles: RoleTable)
    requires RolesInv(t) && id in t.roles
    ensures roles == RoleUpdated(t, id, row).roles
  {
    roles := t.roles;
    if roles[id].isDefault {
      roles := roles[id := roles[id].(permissions := row.permissions, manageEachOther := row.manageEachOther)];
    } else {
      var highest := MaxPosition(roles);
      HighestPosition(t, highest);
      roles := MoveRow(roles, id, row.(position := Clamp(row.position, 1, highest)));
    }
  }

  // INSERT OR IGNORE, one row per id.
  method InsertRoles(rows: set<(Uid, RoleId)>, uid: Uid, ids: seq<RoleId>) returns (held: set<(Uid, RoleId)>)
    ensures held == rows + (set r | r in ids :: (uid, r))
  {
    held := rows;
    for i := 0 to |ids|
      invariant held == rows + (set r | r in ids[..i] :: (uid, r))
    {
      held := held + {(uid, ids[i])};
      assert ids[..i + 1] == ids[..i] + [ids[i]];
    }
    assert ids[..|ids|] == ids;
  }

  // One pass over the ordered rows, remembering the category above.
  method LayoutPass(t: Tables)
      returns (parentOf: map<ChannelId, ChannelId>, syncedOf: map<ChannelId, bool>, categorySyncOf: map<ChannelId, bool>)
    requires OrderInv(t)
    ensures LayoutMaps(t, parentOf, syncedOf, categorySyncOf)
  {
    parentOf, syncedOf, categorySyncOf := map[], map[], map[];
    var current := NO_CATEGORY;
    for i := 0 to |t.order|
      invariant LayoutOf(t, Ids(t.order[..i]), parentOf, syncedOf, categorySyncOf)
      invariant current == LastCategory(t.order[..i], t.kinds, NO_CATEGORY)
    {
      var id := t.order[i];
      NextRow(t.order, t.kinds, i);
      LayoutMore(t, Ids(t.order[..i]), parentOf, syncedOf, categorySyncOf, id);
      if IsCategory(t.kinds, id) {
        current := id;
        parentOf, syncedOf := parentOf[id := NO_CATEGORY], syncedOf[id := false];
        categorySyncOf := categorySyncOf[id := id in t.syncing];
      } else {
        parentOf, syncedOf := parentOf[id := current], syncedOf[id := id in t.synced];
      }
    }
    assert t.order[..|t.order|] == t.order;
    assert Ids(t.order) == t.kinds.Keys;
  }

  // The DELETEs of remove_member.
  method MemberRowsGone(t: Tables, uid: Uid) returns (was: bool, next: Tables)
    ensures was == (uid in t.members) && next == MemberGone(t, uid)
  {
    next := t.(overwrites := WithoutTarget(t.overwrites, MemberTarget(uid)));
    next := next.(memberRoles := WithoutRolesOf(t.memberRoles, uid));
    was := uid in t.members;
    next := next.(members := t.members - {uid});
  }

  // The statements of create_role: shift every position, insert the row.
  method RoleRowAdded(t: Tables, row: Role) returns (next: Tables)
    requires row.position == 1 && !row.isDefault
    ensures next == RoleCreated(t, row)
  {
    var roles := ShiftFrom(t.roles, 1, 1);
    roles := roles[t.nextRole := row];
    next := t.(roles := roles, nextRole := t.nextRole + 1);
  }

  // The statements of delete_role: its overwrites, its holders, the row, and
  // the positions above it.
  method RoleRowsGone(t: Tables, id: RoleId) returns (next: Tables)
    requires id in t.roles
    ensures next == RoleDeleted(t, id)
  {
    next := t.(overwrites := WithoutTarget(t.overwrites, RoleTarget(id)));
    next := next.(memberRoles := (set m | m in t.memberRoles && m.1 != id));
    var roles := t.roles - {id};
    roles := ShiftFrom(roles, t.roles[id].position + 1, -1);
    next := next.(roles := roles);
  }

  class CommunityDb {
    var db: Tables
    var permCache: map<Uid, PermEntry>
    var channelPermCache: map<Uid, map<ChannelId, Perms>>
    var overwritesCache: map<ChannelId, Rows>
    var layoutValid: bool
    var parentOf: map<ChannelId, ChannelId>
    var syncedOf: map<ChannelId, bool>
    var categorySyncOf: map<ChannelId, bool>
    var voicePasses: Passes
    var ownerCache: Uid

    ghost predicate LayoutCoherent()
      reads this
    {
      layoutValid ==> LayoutMaps(db, parentOf, syncedOf, categorySyncOf)
    }

    // Everything cached is what the tables say.
    ghost predicate Coherent()
      reads this
    {
      && ownerCache == db.owner
      && EntriesCoherent(db, permCache)
      && ChannelsCoherent(db, voicePasses, channelPermCache)
      && RowsCoherent(db, overwritesCache)
      && LayoutCoherent()
    }

    ghost predicate Valid()
      reads this
    {
      Inv(db) && Coherent()
    }

    // open(): normalise the order of an older database, drop stray sync
    // flags, read the owner.
    constructor Open(tables: Tables)
      requires Openable(tables)
      ensures Valid() && db == Opened(tables) && voicePasses == map[]
    {
      db := tables;
      permCache, channelPermCache, overwritesCache := map[], map[], map[];
      layoutValid, parentOf, syncedOf, categorySyncOf := false, map[], map[], map[];
      voicePasses, ownerCache := map[], tables.owner;
      new;
      NormalizeFacts(tables.order, tables.kinds);
      NormalizeChannelOrder();
      EnforceSyncInvariant();
      OpenEstablishes(tables);
      NothingCached(db, voicePasses);
    }

    // ---- invalidation ----

    method InvalidatePermCache()
      modifies `permCache, `channelPermCache
      ensures permCache == map[] && channelPermCache == map[]
    {
      permCache, channelPermCache := map[], map[];
    }

    method InvalidateUserPerms(uid: Uid)
      modifies `permCache, `channelPermCache
      ensures permCache == old(permCache) - {uid} && channelPermCache == old(channelPermCache) - {uid}
    {
      permCache, channelPermCache := permCache - {uid}, channelPermCache - {uid};
    }

    method InvalidateChannelLayout()
      modifies `layoutValid, `channelPermCache
      ensures !layoutValid && channelPermCache == map[]
    {
      layoutValid, channelPermCache := false, map[];
    }

    // ---- the layout ----

    method RebuildChannelLayout()
      requires OrderInv(db)
      modifies `parentOf, `syncedOf, `categorySyncOf, `layoutValid
      ensures layoutValid && LayoutCoherent()
    {
      parentOf, syncedOf, categorySyncOf := LayoutPass(db);
      layoutValid := true;
    }

    method EnsureLayout()
      requires OrderInv(db) && LayoutCoherent()
      modifies `parentOf, `syncedOf, `categorySyncOf, `layoutValid
      ensures layoutValid && LayoutCoherent()
    {
      if !layoutValid { RebuildChannelLayout(); }
    }

    method ParentCategory(c: ChannelId) returns (p: ChannelId)
      requires OrderInv(db) && LayoutCoherent()
      modifies `parentOf, `syncedOf, `categorySyncOf, `layoutValid
      ensures layoutValid && LayoutCoherent()
      ensures p == Parent(db, c)
    {
      EnsureLayout();
      ParentIsCategory(db.order, db.kinds, c, NO_CATEGORY);
      p := if c in parentOf then parentOf[c] else NO_CATEGORY;
    }

    method OverwriteSource(c: ChannelId) returns (source: ChannelId)
      requires OrderInv(db) && LayoutCoherent()
      modifies `parentOf, `syncedOf, `categorySyncOf, `layoutValid
      ensures layoutValid && LayoutCoherent()
      ensures source == Source(db, c)
    {
      EnsureLayout();
      LookupIsSource(db, parentOf, syncedOf, categorySyncOf, c);
      source := SourceLookup(parentOf, syncedOf, categorySyncOf, c);
    }

    // ---- reads through the caches ----

    method OverwriteRows(c: ChannelId) returns (rows: Rows)
      requires RowsCoherent(db, overwritesCache)
      modifies `overwritesCache
      ensures rows == RowsOf(db, c) && RowsCoherent(db, overwritesCache)
    {
      if c in overwritesCache { return overwritesCache[c]; }
      rows := RowsOf(db, c);
      if |overwritesCache| >= PERM_CACHE_MAX { overwritesCache := map[]; }
      overwritesCache := overwritesCache[c := rows];
    }

    // The rows that apply to a channel.
    method ListOverwrites(c: ChannelId) returns (rows: Rows)
      requires Valid()
      modifies `overwritesCache, `parentOf, `syncedOf, `categorySyncOf, `layoutValid
      ensures Valid() && rows == Effective(db, c)
    {
      var source := OverwriteSource(c);
      rows := OverwriteRows(source);
    }

    // One pass over the rows of `everyone` and the member's roles, in
    // whatever order they come.
    method ReadRoles(held: set<RoleId>) returns (p: Perms, level: int, peers: bool)
      requires held <= db.roles.Keys && forall r :: r in held ==> db.roles[r].position >= 0
      ensures p == Granted(db.roles, held) && TopSoFar(db, held, level, peers)
    {
      p, level, peers := {}, -1, false;
      var todo := held;
      while todo != {}
        invariant todo <= held
        invariant p == Granted(db.roles, held - todo)
        invariant TopSoFar(db, held - todo, level, peers)
      {
        var r :| r in todo;
        GrantedMore(db.roles, held - todo, r);
        TopMore(db, held - todo, r, level, peers);
        assert (held - todo) + {r} == held - (todo - {r});
        p := p + db.roles[r].permissions;
        if db.roles[r].position > level {
          level, peers := db.roles[r].position, db.roles[r].manageEachOther;
        }
        todo := todo - {r};
      }
      assert held - todo == held;
    }

    method PermEntryOf(uid: Uid) returns (e: PermEntry)
      requires RolesInv(db) && ownerCache == db.owner && EntriesCoherent(db, permCache)
      modifies `permCache
      ensures IsEntry(db, uid, e) && EntriesCoherent(db, permCache)
    {
      if uid in permCache { return permCache[uid]; }
      if uid != 0 && ownerCache == uid {
        e := PermEntry(ALL, OWNER_LEVEL, false);
      } else {
        PositionsFromZero(db);
        var p, level, peers := ReadRoles(Applying(db, uid));
        EntryOfPass(db, uid, p, level, peers);
        e := PermEntry(if ADMINISTRATOR in p then ALL else p, if level > 0 then level else 0, peers);
      }
      if |permCache| >= PERM_CACHE_MAX { permCache := map[]; }
      permCache := permCache[uid := e];
    }

    method EntryOf(uid: Uid) returns (e: PermEntry)
      requires Inv(db) && Coherent()
      modifies `permCache
      ensures Coherent() && IsEntry(db, uid, e)
    {
      e := PermEntryOf(uid);
    }

    method EffectivePermissions(uid: Uid) returns (p: Perms)
      requires Inv(db) && Coherent()
      modifies `permCache
      ensures Coherent() && p == BaseOf(db, uid)
    {
      var e := PermEntryOf(uid);
      EntryUnique(db, uid, e, e);
      p := e.permissions;
    }

    // Strictly higher level only (authz can_moderate).
    method CanModerate(actor: Uid, target: Uid) returns (ok: bool)
      requires Inv(db) && Coherent()
      modifies `permCache
      ensures Coherent()
      ensures exists a, b :: IsEntry(db, actor, a) && IsEntry(db, target, b) && ok == (a.level > b.level)
    {
      var a := EntryOf(actor);
      var b := EntryOf(target);
      ok := a.level > b.level;
    }

    method ArePeers(a: Uid, b: Uid) returns (ok: bool)
      requires Inv(db) && Coherent()
      modifies `permCache
      ensures Coherent() && ok == Peers(db, a, b)
    {
      if a == 0 || b == 0 || a == b { return false; }
      if a == ownerCache || b == ownerCache { return false; }
      var ea := EntryOf(a);
      var eb := EntryOf(b);
      PeersByEntries(db, a, b, ea, eb);
      ok := ea.level == eb.level && ea.managePeers;
    }

    // The rows of one channel, read in whatever order they come, sorted by
    // how they concern the member.
    method FoldRows(rows: Rows, uid: Uid) returns (evA: Perms, evD: Perms, roA: Perms, roD: Perms, meA: Perms, meD: Perms)
      ensures evA == AllowedBy(db, uid, rows, ToEveryone) && evD == DeniedBy(db, uid, rows, ToEveryone)
      ensures roA == AllowedBy(db, uid, rows, ToMyRole) && roD == DeniedBy(db, uid, rows, ToMyRole)
      ensures meA == AllowedBy(db, uid, rows, ToMe) && meD == DeniedBy(db, uid, rows, ToMe)
    {
      evA, evD, roA, roD, meA, meD := {}, {}, {}, {}, {}, {};
      var todo := rows.Keys;
      while todo != {}
        invariant todo <= rows.Keys
        invariant Folded(db, uid, rows, rows.Keys - todo, ToEveryone, evA, evD)
        invariant Folded(db, uid, rows, rows.Keys - todo, ToMyRole, roA, roD)
        invariant Folded(db, uid, rows, rows.Keys - todo, ToMe, meA, meD)
      {
        var x :| x in todo;
        FoldMore(db, uid, rows, rows.Keys - todo, ToEveryone, evA, evD, x);
        FoldMore(db, uid, rows, rows.Keys - todo, ToMyRole, roA, roD, x);
        FoldMore(db, uid, rows, rows.Keys - todo, ToMe, meA, meD, x);
        assert (rows.Keys - todo) + {x} == rows.Keys - (todo - {x});
        match Relates(db, uid, x) {
          case ToEveryone => evA, evD := evA + rows[x].allow, evD + rows[x].deny;
          case ToMyRole => roA, roD := roA + rows[x].allow, roD + rows[x].deny;
          case ToMe => meA, meD := meA + rows[x].allow, meD + rows[x].deny;
          case Unrelated =>
        }
        todo := todo - {x};
      }
      assert rows.Keys - todo == rows.Keys;
      FoldedAll(db, uid, rows, ToEveryone, evA, evD);
      FoldedAll(db, uid, rows, ToMyRole, roA, roD);
      FoldedAll(db, uid, rows, ToMe, meA, meD);
    }

    // The uncached resolution.
    method ResolveChannel(uid: Uid, c: ChannelId) returns (result: Perms)
      requires RolesInv(db) && OrderInv(db) && c in db.kinds
      requires ownerCache == db.owner && EntriesCoherent(db, permCache) && RowsCoherent(db, overwritesCache) && LayoutCoherent()
      modifies `permCache, `overwritesCache, `parentOf, `syncedOf, `categorySyncOf, `layoutValid
      ensures EntriesCoherent(db, permCache) && RowsCoherent(db, overwritesCache) && LayoutCoherent()
      ensures result == ChannelPerms(db, voicePasses, uid, c)
    {
      var base := PermEntryOf(uid);
      EntryUnique(db, uid, base, base);
      if base.permissions == ALL { return ALL; }
      var source := OverwriteSource(c);
      var rows := OverwriteRows(source);
      var evA, evD, roA, roD, meA, meD := FoldRows(rows, uid);
      var p := base.permissions;
      p := (p - evD) + evA;
      p := (p - roD) + roA;
      p := (p - meD) + meA;
      if uid in voicePasses && c in voicePasses[uid] {
        p := p + {VIEW_CHANNEL, CONNECT_VOICE};
      }
      result := if VIEW_CHANNEL in p then p else {};
    }

    method ResolveAndCache(uid: Uid, c: ChannelId) returns (result: Perms)
      requires RolesInv(db) && OrderInv(db) && c in db.kinds && uid in channelPermCache
      requires Coherent()
      modifies `permCache, `channelPermCache, `overwritesCache, `parentOf, `syncedOf, `categorySyncOf, `layoutValid
      ensures Coherent() && result == ChannelPerms(db, voicePasses, uid, c)
    {
      result := ResolveChannel(uid, c);
      var mine := channelPermCache[uid];
      if |mine| >= USER_CACHE_MAX { mine := map[]; }
      ChannelsMore(db, voicePasses, channelPermCache, uid, mine, c, result);
      channelPermCache := channelPermCache[uid := mine[c := result]];
    }

    // A member's permissions in a channel: the cached answer is always what
    // the tables and the voice passes give.
    method ChannelPermissions(uid: Uid, c: ChannelId) returns (result: Perms)
      requires Inv(db) && Coherent()
      modifies `permCache, `channelPermCache, `overwritesCache, `parentOf, `syncedOf, `categorySyncOf, `layoutValid
      ensures Coherent() && result == ChannelPerms(db, voicePasses, uid, c)
    {
      EnsureLayout();
      if c !in parentOf { return {}; }
      if uid !in channelPermCache {
        EmptyEntry(db, voicePasses, channelPermCache, uid);
        channelPermCache := channelPermCache[uid := map[]];
      }
      if c in channelPermCache[uid] { return channelPermCache[uid][c]; }
      result := ResolveAndCache(uid, c);
    }

    // ---- voice passes ----

    method GrantVoicePass(uid: Uid, c: ChannelId)
      requires Inv(db) && Coherent()
      modifies `voicePasses, `channelPermCache
      ensures Coherent()
      ensures voicePasses == old(voicePasses)[uid := (if uid in old(voicePasses) then old(voicePasses)[uid] else {}) + {c}]
    {
      var held := (if uid in voicePasses then voicePasses[uid] else {}) + {c};
      PassesOfOthers(db, voicePasses, voicePasses[uid := held], channelPermCache, uid);
      voicePasses := voicePasses[uid := held];
      channelPermCache := channelPermCache - {uid};
    }

    method RevokeVoicePass(uid: Uid, c: ChannelId) returns (removed: bool)
      requires Inv(db) && Coherent()
      modifies `voicePasses, `channelPermCache
      ensures Coherent()
      ensures removed == HasPass(old(voicePasses), uid, c)
      ensures forall u, x :: HasPass(voicePasses, u, x) == (HasPass(old(voicePasses), u, x) && !(u == uid && x == c))
    {
      if uid !in voicePasses || c !in voicePasses[uid] { return false; }
      var left := voicePasses[uid] - {c};
      var passes := if left == {} then voicePasses - {uid} else voicePasses[uid := left];
      PassesOfOthers(db, voicePasses, passes, channelPermCache, uid);
      assert forall x :: HasPass(passes, uid, x) <==> x in left;
      voicePasses := passes;
      channelPermCache := channelPermCache - {uid};
      removed := true;
    }

    // ---- members ----

    method AddMember(uid: Uid) returns (ok: bool)
      requires Valid()
      modifies `db, `permCache, `channelPermCache
      ensures Valid()
      ensures db == old(db).(members := old(db).members + if uid > 0 then {uid} else {})
      ensures ok == (uid > 0 && uid !in old(db).members)
    {
      if uid <= 0 { return false; }
      InvalidateUserPerms(uid);
      if uid in db.members { return false; }
      ghost var t := db;
      db := db.(members := db.members + {uid});
      ok := true;
      UnreadColumns(t, db, voicePasses, permCache, channelPermCache);
      ColumnOnly(t, db);
      if layoutValid { LayoutStays(t, db, parentOf, syncedOf, categorySyncOf); }
    }

    // The rows, roles, passes and membership of one member go.
    method RemoveMember(uid: Uid) returns (was: bool)
      requires Valid()
      modifies `db, `permCache, `channelPermCache, `overwritesCache, `voicePasses
      ensures Valid() && db == MemberGone(old(db), uid)
      ensures was == (uid in old(db).members) && voicePasses == old(voicePasses) - {uid}
    {
      MemberGoneReady(db, uid, voicePasses, permCache, channelPermCache);
      InvalidateUserPerms(uid);
      overwritesCache := map[];
      voicePasses := voicePasses - {uid};
      var next;
      was, next := MemberRowsGone(db, uid);
      CommitTables(next);
    }

    // A transaction that leaves the layout alone, with the caches fit for it.
    method CommitTables(next: Tables)
      requires Inv(next) && SameLayout(db, next) && LayoutCoherent() && ownerCache == next.owner
      requires EntriesCoherent(next, permCache) && ChannelsCoherent(next, voicePasses, channelPermCache)
      requires RowsCoherent(next, overwritesCache)
      modifies `db
      ensures Valid() && db == next
    {
      if layoutValid { LayoutStays(db, next, parentOf, syncedOf, categorySyncOf); }
      db := next;
    }

    method AddBan(uid: Uid) returns (ok: bool)
      requires Valid()
      modifies `db, `permCache, `channelPermCache, `overwritesCache, `voicePasses
      ensures Valid() && ok == (uid != 0)
      ensures db == if ok then MemberBanned(old(db), uid) else old(db)
      ensures voicePasses == if ok then old(voicePasses) - {uid} else old(voicePasses)
    {
      if uid == 0 { return false; }
      var was := RemoveMember(uid);
      ghost var t := db;
      db := db.(banned := db.banned + {uid});
      UnreadColumns(t, db, voicePasses, permCache, channelPermCache);
      MemberOpsKeepInv(old(db), uid, []);
      if layoutValid { LayoutStays(t, db, parentOf, syncedOf, categorySyncOf); }
      ok := true;
    }

    // Every id is checked before anything is written.
    method SetMemberRoles(uid: Uid, ids: seq<RoleId>) returns (ok: bool)
      requires Valid()
      modifies `db, `permCache, `channelPermCache
      ensures Valid() && ok == Assignable(old(db), ids)
      ensures db == if ok then RolesAssigned(old(db), uid, ids) else old(db)
    {
      for i := 0 to |ids|
        invariant Assignable(db, ids[..i])
      {
        if ids[i] !in db.roles || db.roles[ids[i]].isDefault { return false; }
      }
      assert ids[..|ids|] == ids;
      WriteMemberRoles(uid, ids);
      ok := true;
    }

    // Replaces the member's rows in one transaction.
    method WriteMemberRoles(uid: Uid, ids: seq<RoleId>)
      requires Valid() && Assignable(db, ids)
      modifies `db, `permCache, `channelPermCache
      ensures Valid() && db == RolesAssigned(old(db), uid, ids)
    {
      RolesAssignedReady(db, uid, ids, voicePasses, permCache, channelPermCache, overwritesCache);
      InvalidateUserPerms(uid);
      var held := InsertRoles(WithoutRolesOf(db.memberRoles, uid), uid, ids);
      CommitTables(db.(memberRoles := held));
    }

    method TransferOwnership(uid: Uid) returns (ok: bool)
      requires Valid()
      modifies `db, `permCache, `channelPermCache, `ownerCache
      ensures Valid() && ok == (uid in old(db).members)
      ensures db == if ok then old(db).(owner := uid) else old(db)
    {
      if uid !in db.members { return false; }
      ghost var t := db;
      db := db.(owner := uid);
      ownerCache := uid;
      InvalidatePermCache();
      ColumnOnly(t, db);
      if layoutValid { LayoutStays(t, db, parentOf, syncedOf, categorySyncOf); }
      ok := true;
    }

    // ---- roles ----

    // A transaction on roles, with the permission caches already dropped.
    method CommitRoles(next: Tables)
      requires Inv(next) && SameLayout(db, next) && LayoutCoherent() && ownerCache == next.owner
      requires permCache == map[] && channelPermCache == map[] && RowsCoherent(next, overwritesCache)
      modifies `db
      ensures Valid() && db == next
    {
      NothingCached(next, voicePasses);
      CommitTables(next);
    }

    // New roles land at position 1, directly above `everyone`. `name` is what
    // clamping left of the name asked for.
    method CreateRole(name: string, color: nat, permissions: Perms, manageEachOther: bool) returns (id: Option<RoleId>)
      requires Valid()
      modifies `db, `permCache, `channelPermCache
      ensures Valid() && (id.Some? <==> name != "")
      ensures db == if name != "" then RoleCreated(old(db), Role(name, color, 1, permissions, false, manageEachOther)) else old(db)
      ensures id.Some? ==> id.value == old(db).nextRole && id.value !in old(db).roles
    {
      if name == "" { return None; }
      InvalidatePermCache();
      var row := Role(name, color, 1, permissions, false, manageEachOther);
      RoleCreateReady(db, row, overwritesCache);
      var next := RoleRowAdded(db, row);
      id := Some(db.nextRole);
      CommitRoles(next);
    }

    method UpdateRole(id: RoleId, name: string, color: nat, permissions: Perms, position: int, manageEachOther: bool) returns (ok: bool)
      requires Valid()
      modifies `db, `permCache, `channelPermCache
      ensures Valid() && ok == (id in old(db).roles && (old(db).roles[id].isDefault || name != ""))
      ensures db == if ok then RoleUpdated(old(db), id, Role(name, color, position, permissions, false, manageEachOther)) else old(db)
    {
      if id !in db.roles { return false; }
      InvalidatePermCache();
      if !db.roles[id].isDefault && name == "" { return false; }
      var row := Role(name, color, position, permissions, false, manageEachOther);
      var roles := RoleRows(db, id, row);
      RoleUpdateKeepsInv(db, id, row);
      CommitRoles(db.(roles := roles));
      ok := true;
    }

    method DeleteRole(id: RoleId) returns (ok: bool)
      requires Valid()
      modifies `db, `permCache, `channelPermCache, `overwritesCache
      ensures Valid() && ok == (id in old(db).roles && !old(db).roles[id].isDefault)
      ensures db == if ok then RoleDeleted(old(db), id) else old(db)
    {
      if id !in db.roles || db.roles[id].isDefault { return false; }
      InvalidatePermCache();
      overwritesCache := map[];
      RoleDeleteReady(db, id);
      var next := RoleRowsGone(db, id);
      CommitRoles(next);
      ok := true;
    }

    // ---- channels ----

    method NormalizeChannelOrder()
      requires forall c :: c in db.order ==> c in db.kinds
      modifies `db, `layoutValid, `channelPermCache
      ensures db == old(db).(order := Normalize(old(db).order, old(db).kinds))
      ensures !layoutValid && channelPermCache == map[]
    {
      var out := NormalizedOrder(db.order, db.kinds);
      db := db.(order := out);
      InvalidateChannelLayout();
    }

    // Unsyncs every synced channel that follows nothing.
    method EnforceSyncInvariant()
      requires OrderInv(db) && LayoutCoherent()
      modifies `db, `parentOf, `syncedOf, `categorySyncOf, `layoutValid, `channelPermCache
      ensures db == Enforced(old(db)) && LayoutCoherent()
      ensures channelPermCache == old(channelPermCache) || channelPermCache == map[]
      ensures Strays(old(db)) != {} ==> channelPermCache == map[]
    {
      EnsureLayout();
      var stray := StrayIds(db, parentOf, syncedOf, categorySyncOf);
      if stray == {} {
        assert Enforced(db) == db;
        return;
      }
      db := db.(synced := db.synced - stray);
      InvalidateChannelLayout();
    }

    // write_own_overwrites for each channel, unsynced, with its cached rows
    // forgotten.
    method WriteOwnRows(rowsOf: map<ChannelId, Rows>)
      requires RowsCoherent(db, overwritesCache)
      requires forall c :: c in db.overwrites ==> db.overwrites[c] != map[]
      modifies `db, `overwritesCache
      ensures db == Kept(old(db), rowsOf) && RowsCoherent(db, overwritesCache)
    {
      ghost var t := db;
      var todo := rowsOf.Keys;
      while todo != {}
        invariant todo <= rowsOf.Keys && RowsCoherent(db, overwritesCache)
        invariant KeptSoFar(t, db, rowsOf, rowsOf.Keys - todo)
      {
        var c :| c in todo;
        KeptMore(t, db, rowsOf, rowsOf.Keys - todo, c);
        CachedRowsAfter(db, c, rowsOf[c], overwritesCache);
        assert (rowsOf.Keys - todo) + {c} == rowsOf.Keys - (todo - {c});
        db := Restored(db, c, rowsOf[c]);
        overwritesCache := overwritesCache - {c};
        todo := todo - {c};
      }
      assert rowsOf.Keys - todo == rowsOf.Keys;
      KeptAll(t, db, rowsOf);
    }

    // COMMIT of a transaction on channels, then the layout and every resolved
    // permission are dropped.
    method CommitChannels(next: Tables)
      requires Inv(next) && RowsCoherent(next, overwritesCache)
      requires ownerCache == next.owner && EntriesCoherent(next, permCache)
      modifies `db, `layoutValid, `channelPermCache
      ensures Valid() && db == next
    {
      db := next;
      InvalidateChannelLayout();
    }

    // Turns a category's sync on or off; off, its followers get its rows as
    // their own first.
    method SetCategorySync(category: ChannelId, on: bool) returns (ok: bool)
      requires Valid()
      modifies `db, `parentOf, `syncedOf, `categorySyncOf, `layoutValid, `channelPermCache, `overwritesCache
      ensures Valid() && ok == IsCategory(old(db).kinds, category)
      ensures db == Apply(old(db), Op.SetCategorySync(category, on))
    {
      EnsureLayout();
      if category !in categorySyncOf { return false; }
      if categorySyncOf[category] != on { SwitchCategory(category, on); }
      ok := true;
    }

    method SwitchCategory(category: ChannelId, on: bool)
      requires Valid() && layoutValid && IsCategory(db.kinds, category) && on != (category in db.syncing)
      modifies `db, `layoutValid, `channelPermCache, `overwritesCache
      ensures Valid() && db == Switched(old(db), category, on)
    {
      var rowsOf: map<ChannelId, Rows> := map[];
      if !on { rowsOf := FollowerRows(category); }
      ghost var next := Switched(db, category, on);
      SwitchReady(db, category, on, rowsOf, permCache);
      WriteSwitch(category, on, rowsOf, next);
    }

    method WriteSwitch(category: ChannelId, on: bool, rowsOf: map<ChannelId, Rows>, ghost next: Tables)
      requires RowsCoherent(db, overwritesCache) && RowsInv(db) && ownerCache == next.owner
      requires Inv(next) && EntriesCoherent(next, permCache)
      requires Kept(db, rowsOf).(syncing := if on then db.syncing + {category} else db.syncing - {category}) == next
      modifies `db, `layoutValid, `channelPermCache, `overwritesCache
      ensures Valid() && db == next
    {
      WriteOwnRows(rowsOf);
      CommitChannels(db.(syncing := if on then db.syncing + {category} else db.syncing - {category}));
    }

    // The rows each follower of `category` is to keep.
    method FollowerRows(category: ChannelId) returns (rowsOf: map<ChannelId, Rows>)
      requires OrderInv(db) && layoutValid && LayoutCoherent() && category in db.kinds
      requires RowsCoherent(db, overwritesCache)
      modifies `overwritesCache
      ensures RowsCoherent(db, overwritesCache)
      ensures rowsOf == map f | f in Followers(db, category) :: RowsOf(db, category)
    {
      var rows: Rows := map[];
      var followers := FollowerIds(db, parentOf, syncedOf, categorySyncOf, category);
      if followers != {} { rows := OverwriteRows(category); }
      rowsOf := map f | f in followers :: rows;
    }

    // ---- moving ----

    // Rewrites positions to the order asked for; one that is not exactly the
    // current set of channels fails whole.
    method ReorderChannels(ids: seq<ChannelId>) returns (ok: bool)
      requires Valid()
      modifies `db, `parentOf, `syncedOf, `categorySyncOf, `layoutValid, `channelPermCache, `overwritesCache
      ensures Valid() && ok == IsListing(old(db), ids)
      ensures db == if ok then Reordered(old(db), ids) else old(db)
    {
      IdsCount(ids);
      if |Ids(ids)| != |ids| || Ids(ids) != db.kinds.Keys { return false; }
      EnsureLayout();
      var followed := FollowedPairs(db, parentOf, syncedOf, categorySyncOf);
      MoveRows(ids, followed);
      ok := true;
    }

    method MoveRows(ids: seq<ChannelId>, followed: map<ChannelId, ChannelId>)
      requires Valid() && IsListing(db, ids) && FollowedBy(db, followed)
      modifies `db, `parentOf, `syncedOf, `categorySyncOf, `layoutValid, `channelPermCache, `overwritesCache
      ensures Valid() && db == Reordered(old(db), ids)
    {
      ghost var t := db;
      ReorderInv(t, ids, permCache);
      Reposition(ids);
      var moved := MovedPairs(t, db, followed, parentOf);
      var rowsOf := ReadRows(moved);
      ReorderReady(t, db, ids, moved, rowsOf);
      WriteMoved(rowsOf, Reordered(t, ids));
    }

    method WriteMoved(rowsOf: map<ChannelId, Rows>, ghost next: Tables)
      requires RowsCoherent(db, overwritesCache) && RowsInv(db) && ownerCache == next.owner
      requires Inv(next) && EntriesCoherent(next, permCache) && Kept(db, rowsOf) == next
      modifies `db, `parentOf, `syncedOf, `categorySyncOf, `layoutValid, `channelPermCache, `overwritesCache
      ensures Valid() && db == next
    {
      WriteOwnRows(rowsOf);
      InvalidateChannelLayout();
      EnforceKeeps(db);
      EnforceSyncInvariant();
    }

    // The new positions, normalised, and the layout they give.
    method Reposition(ids: seq<ChannelId>)
      requires OrderInv(db) && IsListing(db, ids) && RowsCoherent(db, overwritesCache)
      modifies `db, `parentOf, `syncedOf, `categorySyncOf, `layoutValid, `channelPermCache
      ensures db == old(db).(order := Normalize(ids, old(db).kinds)) && OrderInv(db)
      ensures layoutValid && LayoutCoherent() && RowsCoherent(db, overwritesCache) && channelPermCache == map[]
    {
      ListingOrder(db, ids);
      db := db.(order := ids);
      InvalidateChannelLayout();
      NormalizeChannelOrder();
      RebuildChannelLayout();
    }

    // The rows of each channel's source.
    method ReadRows(sources: map<ChannelId, ChannelId>) returns (rowsOf: map<ChannelId, Rows>)
      requires RowsCoherent(db, overwritesCache)
      modifies `overwritesCache
      ensures RowsCoherent(db, overwritesCache)
      ensures rowsOf == map c | c in sources :: RowsOf(db, sources[c])
    {
      rowsOf := map[];
      var todo := sources.Keys;
      while todo != {}
        invariant todo <= sources.Keys && RowsCoherent(db, overwritesCache)
        invariant rowsOf == map c | c in sources && c !in todo :: RowsOf(db, sources[c])
      {
        var c :| c in todo;
        var rows := OverwriteRows(sources[c]);
        rowsOf := rowsOf[c := rows];
        todo := todo - {c};
      }
    }

    // ---- creating and deleting ----

    // Deletes a channel or category with its rows; a category's followers
    // keep them first. (Messages and attachments are not part of the model.)
    method DeleteChannel(c: ChannelId) returns (ok: bool)
      requires Valid()
      modifies `db, `parentOf, `syncedOf, `categorySyncOf, `layoutValid, `channelPermCache, `overwritesCache
      ensures Valid() && ok == (c in old(db).kinds)
      ensures db == if ok then Removed(old(db), c) else old(db)
    {
      if c !in db.kinds { return false; }
      EnsureLayout();
      DeleteKnown(c);
      ok := true;
    }

    method DeleteKnown(c: ChannelId)
      requires Inv(db) && c in db.kinds && layoutValid && LayoutCoherent()
      requires RowsCoherent(db, overwritesCache) && ownerCache == db.owner && EntriesCoherent(db, permCache)
      modifies `db, `layoutValid, `channelPermCache, `overwritesCache
      ensures Valid() && db == Removed(old(db), c)
    {
      var rowsOf := FollowerRows(c);
      RemoveReady(db, c, rowsOf, permCache);
      DeleteRows(c, rowsOf);
    }

    method DeleteRows(c: ChannelId, rowsOf: map<ChannelId, Rows>)
      requires RowsCoherent(db, overwritesCache) && RowsInv(db) && ownerCache == db.owner
      requires RowsGone(Kept(db, rowsOf), c) == Removed(db, c)
      requires Inv(Removed(db, c)) && EntriesCoherent(Removed(db, c), permCache)
      requires forall x :: x in Drop(db.order, c) ==> x in db.kinds && x != c
      modifies `db, `layoutValid, `channelPermCache, `overwritesCache
      ensures Valid() && db == Removed(old(db), c)
    {
      WriteOwnRows(rowsOf);
      RemoveRows(c);
    }

    method RemoveRows(c: ChannelId)
      requires RowsCoherent(db, overwritesCache) && ownerCache == db.owner
      requires forall x :: x in Drop(db.order, c) ==> x in db.kinds && x != c
      requires Inv(RowsGone(db, c)) && EntriesCoherent(RowsGone(db, c), permCache)
      modifies `db, `layoutValid, `channelPermCache, `overwritesCache
      ensures Valid() && db == RowsGone(old(db), c)
    {
      ghost var t := db;
      var left := DropRow(db.order, c);
      db := db.(overwrites := db.overwrites - {c});
      db := db.(order := left, kinds := db.kinds - {c}, synced := db.synced - {c}, syncing := db.syncing - {c});
      CachedRowsDropped(t, db, c, overwritesCache);
      overwritesCache := overwritesCache - {c};
      InvalidateChannelLayout();
      NormalizeChannelOrder();
    }

    // `slug` is the file-name-safe form of `name`. The position returned is
    // the insertion index, before normalisation.
    method CreateChannel(name: string, slug: string, kind: Kind, category: ChannelId) returns (made: Option<NewChannel>)
      requires Valid() && slug != ""
      modifies `db, `parentOf, `syncedOf, `categorySyncOf, `layoutValid, `channelPermCache
      ensures Valid()
      ensures made.Some? <==> name != "" && Place(old(db).order, old(db).kinds, kind, category).Some? && HasFreeId(old(db).kinds, slug)
      ensures made.None? ==> db == old(db)
      ensures made.Some? ==>
        && FirstFreeId(old(db).kinds, slug, made.value.id)
        && db == Added(old(db), made.value.id, kind, category)
        && made.value.position == Place(old(db).order, old(db).kinds, kind, category).value
        && made.value.permSynced == (made.value.id in db.synced)
    {
      if name == "" { return None; }
      var id := UniqueId(db.kinds, slug);
      var p := InsertionIndex(db.order, db.kinds, kind, category);
      if p.None? || id in db.kinds { return None; }
      var startSynced := InsertChannel(id, kind, category, p.value);
      made := Some(NewChannel(id, p.value, startSynced));
    }

    method InsertChannel(id: ChannelId, kind: Kind, category: ChannelId, p: nat) returns (startSynced: bool)
      requires Valid() && id !in db.kinds && id != NO_CATEGORY
      requires Place(db.order, db.kinds, kind, category) == Some(p)
      modifies `db, `parentOf, `syncedOf, `categorySyncOf, `layoutValid, `channelPermCache
      ensures Valid() && db == Added(old(db), id, kind, category) && startSynced == (id in db.synced)
    {
      AddReady(db, id, kind, category, permCache);
      EnsureLayout();
      startSynced := kind != Category && category in categorySyncOf && categorySyncOf[category];
      assert startSynced == (kind != Category && category in db.syncing);
      InsertRow(id, kind, category, p, startSynced);
    }

    method InsertRow(id: ChannelId, kind: Kind, ghost category: ChannelId, p: nat, startSynced: bool)
      requires RowsCoherent(db, overwritesCache) && ownerCache == db.owner && id !in db.synced
      requires Place(db.order, db.kinds, kind, category) == Some(p)
      requires startSynced == (kind != Category && category in db.syncing)
      requires Inv(Added(db, id, kind, category)) && EntriesCoherent(Added(db, id, kind, category), permCache)
      requires forall x :: x in Inserted(db, id, kind, category) ==> x in db.kinds[id := kind]
      modifies `db, `layoutValid, `channelPermCache
      ensures Valid() && db == Added(old(db), id, kind, category) && startSynced == (id in db.synced)
    {
      db := db.(order := db.order[..p] + [id] + db.order[p..], kinds := db.kinds[id := kind],
                synced := db.synced + if startSynced then {id} else {});
      NormalizeChannelOrder();
    }

    // ---- editing and syncing ----

    // set_overwrite: upserts one row, or deletes it when no bit is left.
    method SetOverwrite(c: ChannelId, x: Target, allow: Perms, deny: Perms) returns (ok: bool)
      requires Valid()
      modifies `db, `parentOf, `syncedOf, `categorySyncOf, `layoutValid, `channelPermCache, `overwritesCache
      ensures Valid() && ok == (c in old(db).kinds && KnownTarget(old(db), x))
      ensures db == if ok then Edited(old(db), c, x, Masked(allow, deny)) else old(db)
    {
      if c !in db.kinds || !KnownTarget(db, x) { return false; }
      var denied := deny * KNOWN_MASK;
      var bits := Bits((allow * KNOWN_MASK) - denied, denied);
      ghost var next := Edited(db, c, x, bits);
      EditReady(db, c, x, bits, permCache);
      EditSteps(db, c, x, bits);
      var inherited := InheritedRows(c);
      WriteEdit(c, x, bits, inherited, next);
      ok := true;
    }

    // The rows of the category the channel follows, if it follows one.
    method InheritedRows(c: ChannelId) returns (inherited: Rows)
      requires OrderInv(db) && LayoutCoherent() && RowsCoherent(db, overwritesCache)
      modifies `overwritesCache, `parentOf, `syncedOf, `categorySyncOf, `layoutValid
      ensures RowsCoherent(db, overwritesCache) && inherited == Inherited(db, c)
    {
      var source := OverwriteSource(c);
      inherited := map[];
      if source != c { inherited := OverwriteRows(source); }
    }

    method WriteEdit(c: ChannelId, x: Target, bits: Bits, inherited: Rows, ghost next: Tables)
      requires RowsCoherent(db, overwritesCache) && ownerCache == next.owner
      requires Inv(next) && EntriesCoherent(next, permCache) && EditsTo(db, c, x, bits, inherited, next)
      modifies `db, `layoutValid, `channelPermCache, `overwritesCache
      ensures Valid() && db == next
    {
      var t := db;
      if inherited != map[] {
        CachedRowsAfter(t, c, inherited, overwritesCache);
        t := Restored(t, c, inherited);
      }
      overwritesCache := overwritesCache - {c};
      if !IsCategory(t.kinds, c) { t := t.(synced := t.synced - {c}); }
      var rows := RowsOf(t, c);
      rows := if bits == Bits({}, {}) then rows - {x} else rows[x := bits];
      CachedRowsAfter(t, c, rows, overwritesCache);
      overwritesCache := overwritesCache - {c};
      CommitChannels(t.(overwrites := Put(t.overwrites, c, rows)));
    }

    // Drops the channel's own rows and follows its category.
    method SyncChannelPermissions(c: ChannelId) returns (ok: bool)
      requires Valid()
      modifies `db, `parentOf, `syncedOf, `categorySyncOf, `layoutValid, `channelPermCache, `overwritesCache
      ensures Valid() && ok == CanSync(old(db), c)
      ensures db == if ok then Synced(old(db), c) else old(db)
    {
      EnsureLayout();
      ParentIsCategory(db.order, db.kinds, c, NO_CATEGORY);
      if c !in parentOf || parentOf[c] == NO_CATEGORY { return false; }
      var p := parentOf[c];
      if p !in categorySyncOf || !categorySyncOf[p] { return false; }
      SyncReady(db, c, permCache, overwritesCache);
      overwritesCache := overwritesCache - {c};
      CommitChannels(db.(overwrites := Put(db.overwrites, c, map[]), synced := db.synced + {c}));
      ok := true;
    }

    // Writes rows listed earlier back as the channel's own. It checks no
    // channel id: the invariant survives exactly for a known channel or no rows.
    method RestoreChannelOverwrites(c: ChannelId, rows: seq<(Target, Bits)>) returns (ok: bool)
      requires Valid()
      modifies `db, `layoutValid, `channelPermCache, `overwritesCache
      ensures Coherent() && ok == OneRowPerTarget(rows)
      ensures db == if ok then Restored(old(db), c, RowMap(rows)) else old(db)
      ensures Inv(db) <==> !ok || c in old(db).kinds || RowMap(rows) == map[]
    {
      var m;
      ok, m := InsertRows(rows);
      RestoreReady(db, c, m, permCache, overwritesCache);
      if ok { db := Restored(db, c, m); }
      overwritesCache := overwritesCache - {c};
      InvalidateChannelLayout();
    }
  }
}
