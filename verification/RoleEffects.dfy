// What creating, editing and deleting a role does to the roles table and to
// anybody's permissions (src/community/db.cpp).
module RoleEffects {
  import opened Decimal
  import opened ChannelOrder
  import opened Roles
  import opened Permissions
  import opened Membership

  // Two rows that may differ in their position only.
  predicate SameButPosition(a: Role, b: Role)
  {
    && a.name == b.name && a.color == b.color && a.permissions == b.permissions
    && a.isDefault == b.isDefault && a.manageEachOther == b.manageEachOther
  }

  // Every role of `ids` keeps its columns, and the default role all of them.
  ghost predicate ColumnsKept(t: Tables, t': Tables, ids: set<RoleId>)
  {
    && (forall r :: r in ids ==> r in t.roles && r in t'.roles && SameButPosition(t'.roles[r], t.roles[r]))
    && (t.everyone in ids ==> t'.roles[t.everyone] == t.roles[t.everyone])
  }

  // ---- the rows ----

  // create_role adds one row as asked for, at position 1, and of the others
  // changes positions alone.
  lemma CreatedRows(t: Tables, role: Role)
    requires Inv(t)
    ensures var t', id := RoleCreated(t, role), t.nextRole;
            && id !in t.roles && t'.roles.Keys == t.roles.Keys + {id}
            && t'.roles[id] == Role(role.name, role.color, 1, role.permissions, false, role.manageEachOther)
            && ColumnsKept(t, t', t.roles.Keys)
            && t' == t.(roles := t'.roles, nextRole := id + 1)
  {
  }

  // update_role writes the columns asked for, of the default role only its
  // bits and its peer flag; of the other rows it changes positions alone.
  lemma UpdatedRows(t: Tables, id: RoleId, role: Role)
    requires Inv(t) && id in t.roles
    ensures var t' := RoleUpdated(t, id, role);
            && t'.roles.Keys == t.roles.Keys && ColumnsKept(t, t', t.roles.Keys - {id})
            && SameButPosition(t'.roles[id], AskedFor(t, id, role))
            && (id == t.everyone ==> t'.roles[id].position == t.roles[id].position)
            && t' == t.(roles := t'.roles)
  {
    DefaultIsEveryone(t);
    if id != t.everyone { UpdatedOther(t, id, role); }
  }

  function AskedFor(t: Tables, id: RoleId, role: Role): Role
    requires id in t.roles
  {
    if id == t.everyone then t.roles[id].(permissions := role.permissions, manageEachOther := role.manageEachOther)
    else role.(isDefault := false)
  }

  lemma DefaultIsEveryone(t: Tables)
    requires Inv(t)
    ensures t.everyone in t.roles && forall r :: r in t.roles ==> (t.roles[r].isDefault <==> r == t.everyone)
  {
    var list :| Ranked(t.roles, t.everyone, list);
  }

  lemma UpdatedOther(t: Tables, id: RoleId, role: Role)
    requires id in t.roles && !t.roles[id].isDefault && t.everyone in t.roles && t.roles[t.everyone].isDefault
    ensures var t' := RoleUpdated(t, id, role);
            && t'.roles.Keys == t.roles.Keys && ColumnsKept(t, t', t.roles.Keys - {id})
            && SameButPosition(t'.roles[id], role.(isDefault := false))
  {
  }

  // delete_role takes the row, who held it, and every overwrite of it; the
  // other rows lose at most their position.
  lemma DeletedRows(t: Tables, id: RoleId)
    requires Inv(t) && id in t.roles && id != t.everyone
    ensures var t' := RoleDeleted(t, id);
            && t'.roles.Keys == t.roles.Keys - {id} && ColumnsKept(t, t', t.roles.Keys - {id})
            && (forall m :: m in t'.memberRoles <==> m in t.memberRoles && m.1 != id)
            && (forall c, x :: x in RowsOf(t', c) <==> x in RowsOf(t, c) && x != Target(0, ToString(id)))
            && (forall c, x :: x in RowsOf(t', c) ==> RowsOf(t', c)[x] == RowsOf(t, c)[x])
            && t' == t.(overwrites := t'.overwrites, memberRoles := t'.memberRoles, roles := t'.roles)
  {
    WithoutTargetRows(t, RoleDeleted(t, id), RoleTarget(id));
    var list :| Ranked(t.roles, t.everyone, list);
  }

  // ---- whose permissions change ----

  ghost predicate Held(t: Tables, uid: Uid, r: RoleId) { r in t.roles && (uid, r) in t.memberRoles }

  // The member holds the same roles in both tables, with the same bits.
  ghost predicate SameRoles(t: Tables, t': Tables, uid: Uid)
  {
    && t'.everyone == t.everyone && t'.owner == t.owner && (t.everyone in t.roles <==> t.everyone in t'.roles)
    && (forall r :: Held(t', uid, r) <==> Held(t, uid, r))
    && (forall r :: r in t.roles && r in t'.roles && (r == t.everyone || Held(t, uid, r)) ==> t'.roles[r].permissions == t.roles[r].permissions)
  }

  lemma SameRelation(t: Tables, t': Tables, uid: Uid, x: Target)
    requires SameRoles(t, t', uid)
    ensures Relates(t', uid, x) == Relates(t, uid, x)
  {
    if r :| r in t'.roles && (uid, r) in t'.memberRoles && x.id == ToString(r) { assert Held(t, uid, r); }
    if r :| r in t.roles && (uid, r) in t.memberRoles && x.id == ToString(r) { assert Held(t', uid, r); }
  }

  lemma GrantsOf(t: Tables, t': Tables, uid: Uid)
    requires SameRoles(t, t', uid)
    ensures Granted(t.roles, Applying(t, uid)) <= Granted(t'.roles, Applying(t', uid))
  {
    forall b | b in Granted(t.roles, Applying(t, uid)) ensures b in Granted(t'.roles, Applying(t', uid)) {
      var r :| r in Applying(t, uid) && b in t.roles[r].permissions;
      assert r == t.everyone || Held(t', uid, r);
      assert r in Applying(t', uid) && b in t'.roles[r].permissions;
    }
  }

  lemma SameBase(t: Tables, t': Tables, uid: Uid)
    requires SameRoles(t, t', uid)
    ensures BaseOf(t', uid) == BaseOf(t, uid)
  {
    GrantsOf(t, t', uid);
    GrantsOf(t', t, uid);
  }

  ghost predicate SameRelatedRows(t: Tables, uid: Uid, rows: Rows, rows': Rows)
  {
    forall x :: Relates(t, uid, x) != Unrelated ==> (x in rows' <==> x in rows) && (x in rows ==> rows'[x] == rows[x])
  }

  // The same roles with the same bits, and the same rows that concern the
  // member: the same permissions.
  lemma SameForMember(t: Tables, t': Tables, passes: Passes, uid: Uid, c: ChannelId)
    requires SameRoles(t, t', uid) && t'.kinds == t.kinds
    requires SameRelatedRows(t, uid, Effective(t, c), Effective(t', c))
    ensures ChannelPerms(t', passes, uid, c) == ChannelPerms(t, passes, uid, c)
  {
    SameBase(t, t', uid);
    forall x ensures Relates(t', uid, x) == Relates(t, uid, x) { SameRelation(t, t', uid, x); }
    SameRelations(t, t', Effective(t, c), Effective(t', c), BaseOf(t, uid), uid, HasPass(passes, uid, c));
  }

  lemma SameSources(t: Tables, t': Tables, c: ChannelId)
    requires t'.order == t.order && t'.kinds == t.kinds && t'.synced == t.synced && t'.syncing == t.syncing
    ensures Source(t', c) == Source(t, c)
  {
  }

  // Creating a role changes nobody's permissions, in any channel.
  lemma CreateChangesNobody(t: Tables, role: Role, passes: Passes, uid: Uid, c: ChannelId)
    requires Inv(t)
    ensures ChannelPerms(RoleCreated(t, role), passes, uid, c) == ChannelPerms(t, passes, uid, c)
  {
    var t' := RoleCreated(t, role);
    CreatedRows(t, role);
    var list :| Ranked(t.roles, t.everyone, list);
    assert (uid, t.nextRole) !in t.memberRoles;
    SameSources(t, t', c);
    SameForMember(t, t', passes, uid, c);
  }

  // The member's own permissions after a role is taken from them.
  function RoleTaken(t: Tables, uid: Uid, id: RoleId): Tables { t.(memberRoles := t.memberRoles - {(uid, id)}) }

  lemma DeletedRoles(t: Tables, id: RoleId, uid: Uid)
    requires Inv(t) && id in t.roles && id != t.everyone
    ensures SameRoles(RoleTaken(t, uid, id), RoleDeleted(t, id), uid)
  {
    DeletedRows(t, id);
    var list :| Ranked(t.roles, t.everyone, list);
  }

  lemma DeletedRelatedRows(t: Tables, id: RoleId, uid: Uid, c: ChannelId)
    requires Inv(t) && id in t.roles && id != t.everyone
    ensures SameRelatedRows(RoleTaken(t, uid, id), uid, Effective(t, c), Effective(RoleDeleted(t, id), c))
  {
    DeletedRows(t, id);
    SameSources(t, RoleDeleted(t, id), c);
    RoleIdsDiffer(t, id, uid);
  }

  lemma RoleIdsDiffer(t: Tables, id: RoleId, uid: Uid)
    requires id != t.everyone
    ensures Relates(RoleTaken(t, uid, id), uid, Target(0, ToString(id))) == Unrelated
  {
    ToStringInjective(id, t.everyone);
    forall r | r in t.roles && r != id ensures ToString(r) != ToString(id) { ToStringInjective(r, id); }
  }

  // Deleting a role gives everybody exactly the permissions they would have
  // if it were taken from them, so it changes only its holders'.
  lemma DeleteTakesTheRole(t: Tables, id: RoleId, passes: Passes, uid: Uid, c: ChannelId)
    requires Inv(t) && id in t.roles && id != t.everyone
    ensures ChannelPerms(RoleDeleted(t, id), passes, uid, c) == ChannelPerms(RoleTaken(t, uid, id), passes, uid, c)
    ensures (uid, id) !in t.memberRoles ==> ChannelPerms(RoleDeleted(t, id), passes, uid, c) == ChannelPerms(t, passes, uid, c)
  {
    var u := RoleTaken(t, uid, id);
    DeletedRoles(t, id, uid);
    DeletedRelatedRows(t, id, uid, c);
    SameSources(t, u, c);
    SameForMember(u, RoleDeleted(t, id), passes, uid, c);
    if (uid, id) !in t.memberRoles { assert u == t by { assert t.memberRoles - {(uid, id)} == t.memberRoles; } }
  }

  // Editing a role other than the default one changes only its holders'
  // permissions.
  lemma UpdateChangesHolders(t: Tables, id: RoleId, role: Role, passes: Passes, uid: Uid, c: ChannelId)
    requires Inv(t) && id in t.roles && id != t.everyone && (uid, id) !in t.memberRoles
    ensures ChannelPerms(RoleUpdated(t, id, role), passes, uid, c) == ChannelPerms(t, passes, uid, c)
  {
    var t' := RoleUpdated(t, id, role);
    UpdatedRows(t, id, role);
    SameSources(t, t', c);
    SameForMember(t, t', passes, uid, c);
  }

  // Whoever holds it gets its new bits instead of the old ones.
  lemma UpdateGrants(t: Tables, id: RoleId, role: Role, uid: Uid, b: nat)
    requires Inv(t) && id in t.roles
    ensures RolesGrant(RoleUpdated(t, id, role), uid, b) <==>
            || ((id == t.everyone || (uid, id) in t.memberRoles) && b in role.permissions)
            || (exists r :: r in t.roles && r != id && (r == t.everyone || (uid, r) in t.memberRoles) && b in t.roles[r].permissions)
  {
    var t' := RoleUpdated(t, id, role);
    UpdatedRows(t, id, role);
    if r :| r in t.roles && r != id && (r == t.everyone || (uid, r) in t.memberRoles) && b in t.roles[r].permissions {
      assert b in t'.roles[r].permissions;
    }
    if r :| r in t'.roles && (r == t'.everyone || (uid, r) in t'.memberRoles) && b in t'.roles[r].permissions {
      assert r == id || b in t.roles[r].permissions;
    }
  }

  // ---- whose rank changes ----

  lemma CreatedPositions(t: Tables, role: Role)
    requires Inv(t)
    ensures forall r :: r in t.roles ==> RoleCreated(t, role).roles[r].position == if r == t.everyone then 0 else t.roles[r].position + 1
    ensures forall r :: r in t.roles ==> t.roles[r].position >= 0 && (t.roles[r].position == 0 <==> r == t.everyone)
  {
    var list :| Ranked(t.roles, t.everyone, list);
  }

  lemma CreatedHolders(t: Tables, role: Role, uid: Uid)
    requires Inv(t)
    ensures SameRoles(t, RoleCreated(t, role), uid) && Applying(RoleCreated(t, role), uid) == Applying(t, uid)
    ensures Granted(RoleCreated(t, role).roles, Applying(t, uid)) == Granted(t.roles, Applying(t, uid))
  {
    var t' := RoleCreated(t, role);
    CreatedRows(t, role);
    DefaultIsEveryone(t);
    assert (uid, t.nextRole) !in t.memberRoles;
    assert Applying(t', uid) == Applying(t, uid);
    GrantsOf(t, t', uid);
    GrantsOf(t', t, uid);
  }

  lemma CreatedFlags(t: Tables, role: Role)
    requires Inv(t)
    ensures forall r :: r in t.roles ==> r in RoleCreated(t, role).roles && RoleCreated(t, role).roles[r].manageEachOther == t.roles[r].manageEachOther
    ensures t.nextRole !in t.roles
  {
    CreatedRows(t, role);
  }

  lemma TopStays(t: Tables, role: Role, uid: Uid, r: RoleId)
    requires Inv(t) && IsTop(t.roles, Applying(t, uid), r)
    ensures IsTop(RoleCreated(t, role).roles, Applying(t, uid), r)
    ensures RoleCreated(t, role).roles[r].position == if t.roles[r].position == 0 then 0 else t.roles[r].position + 1
  {
    CreatedPositions(t, role);
    CreatedFlags(t, role);
    forall q | q in Applying(t, uid) && q in RoleCreated(t, role).roles ensures q in t.roles {}
  }

  // A new role goes under every other, so it moves nobody past anybody.
  lemma CreateKeepsRanks(t: Tables, role: Role, uid: Uid, e: PermEntry)
    requires Inv(t) && IsEntry(t, uid, e)
    ensures var e' := if IsOwner(t, uid) || e.level == 0 then e else e.(level := e.level + 1);
            IsEntry(RoleCreated(t, role), uid, e')
  {
    if !IsOwner(t, uid) {
      CreatedHolders(t, role, uid);
      CreatedFlags(t, role);
      var r :| IsTop(t.roles, Applying(t, uid), r) && e.level == t.roles[r].position && e.managePeers == t.roles[r].manageEachOther;
      TopStays(t, role, uid, r);
    }
  }

  // A member's level is the highest place of a role they hold, 0 without one;
  // the owner has every bit and, while there are fewer than 2^31 - 1 roles,
  // stands above everybody.
  lemma RankIs(t: Tables, uid: Uid, e: PermEntry)
    requires Inv(t) && IsEntry(t, uid, e) && |t.roles| <= 0x7FFF_FFFF
    ensures uid != 0 && uid == t.owner ==> e.level == 0x7FFF_FFFF && forall b: nat :: b in e.permissions <==> b < 64
    ensures !(uid != 0 && uid == t.owner) ==>
              && 0 <= e.level < 0x7FFF_FFFF
              && (forall r :: Held(t, uid, r) ==> t.roles[r].position <= e.level)
              && (e.level > 0 ==> exists r :: Held(t, uid, r) && t.roles[r].position == e.level && t.roles[r].manageEachOther == e.managePeers)
  {
    var list :| Ranked(t.roles, t.everyone, list);
    RankedCount(t.roles, t.everyone, list);
    if !IsOwner(t, uid) {
      var top :| IsTop(t.roles, Applying(t, uid), top) && e.level == t.roles[top].position && e.managePeers == t.roles[top].manageEachOther;
      forall r | Held(t, uid, r) ensures t.roles[r].position <= e.level { assert r in Applying(t, uid); }
      if e.level > 0 { assert Held(t, uid, top); }
    }
  }
}
