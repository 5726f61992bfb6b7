// Members, roles and ownership: what each operation does to the tables, and
// whose permissions it can touch.
module Membership {
  import opened Options
  import opened Decimal
  import opened ChannelOrder
  import opened Roles
  import opened Permissions
  import opened CategorySync

  function MemberTarget(uid: Uid): Target { Target(1, ToString(uid)) }

  function RoleTarget(r: RoleId): Target { Target(0, ToString(r)) }

  // set_overwrite accepts a target it can read the number of a role, or of a
  // member, from.
  predicate KnownTarget(t: Tables, x: Target)
  {
    match Stoll(x.id)
    case None => false
    case Some(n) => if x.kind == 0 then n >= 0 && n in t.roles else x.kind == 1 && n in t.members
  }

  // DELETE FROM channel_overwrites WHERE target_type = ? AND target_id = ?
  function WithoutTarget(ow: Overwrites, x: Target): Overwrites
  {
    map c | c in ow && ow[c] - {x} != map[] :: ow[c] - {x}
  }

  function WithoutRolesOf(held: set<(Uid, RoleId)>, uid: Uid): set<(Uid, RoleId)>
  {
    set m | m in held && m.0 != uid
  }

  // remove_member, and what add_ban does before it records the ban.
  function MemberGone(t: Tables, uid: Uid): Tables
  {
    t.(overwrites := WithoutTarget(t.overwrites, MemberTarget(uid)),
       memberRoles := WithoutRolesOf(t.memberRoles, uid),
       members := t.members - {uid})
  }

  function MemberBanned(t: Tables, uid: Uid): Tables
  {
    MemberGone(t, uid).(banned := t.banned + {uid})
  }

  function RoleCreated(t: Tables, role: Role): Tables
  {
    t.(roles := Roles.Created(t.roles, t.nextRole, role), nextRole := t.nextRole + 1)
  }

  // The row a role update asks for; of the default role only the permission
  // bits and the peer flag can change.
  function RoleUpdated(t: Tables, id: RoleId, role: Role): Tables
    requires id in t.roles
  {
    if t.roles[id].isDefault then
      t.(roles := t.roles[id := t.roles[id].(permissions := role.permissions, manageEachOther := role.manageEachOther)])
    else
      t.(roles := Updated(t.roles, id, role, Clamp(role.position, 1, |t.roles| - 1)))
  }

  function RoleDeleted(t: Tables, id: RoleId): Tables
    requires id in t.roles
  {
    t.(overwrites := WithoutTarget(t.overwrites, RoleTarget(id)),
       memberRoles := (set m | m in t.memberRoles && m.1 != id),
       roles := Deleted(t.roles, id))
  }

  predicate Assignable(t: Tables, ids: seq<RoleId>)
  {
    forall i :: 0 <= i < |ids| ==> ids[i] in t.roles && !t.roles[ids[i]].isDefault
  }

  function RolesAssigned(t: Tables, uid: Uid, ids: seq<RoleId>): Tables
  {
    t.(memberRoles := WithoutRolesOf(t.memberRoles, uid) + (set r | r in ids :: (uid, r)))
  }

  // ---- the invariant ----

  lemma WithoutTargetRows(t: Tables, t': Tables, x: Target)
    requires t'.overwrites == WithoutTarget(t.overwrites, x)
    ensures forall c :: RowsOf(t', c) == RowsOf(t, c) - {x}
    ensures RowsInv(t) && t'.kinds == t.kinds ==> RowsInv(t')
  {
  }

  // Whoever left holds no role and has no row in any channel; everybody else
  // keeps theirs. A ban adds the name to the list, and nothing else.
  lemma NothingStays(t: Tables, uid: Uid)
    ensures var t' := MemberGone(t, uid);
            && t'.members == t.members - {uid}
            && (forall m :: m in t'.memberRoles <==> m in t.memberRoles && m.0 != uid)
            && (forall c, x :: x in RowsOf(t', c) <==> x in RowsOf(t, c) && x != Target(1, ToString(uid)))
            && (forall c, x :: x in RowsOf(t', c) ==> RowsOf(t', c)[x] == RowsOf(t, c)[x])
            && t' == t.(overwrites := t'.overwrites, memberRoles := t'.memberRoles, members := t'.members)
            && MemberBanned(t, uid) == t'.(banned := t.banned + {uid})
  {
    WithoutTargetRows(t, MemberGone(t, uid), MemberTarget(uid));
  }

  // Any role but the default one can be given.
  lemma AssignableIff(t: Tables, ids: seq<RoleId>)
    requires RolesInv(t)
    ensures Assignable(t, ids) <==> forall r :: r in ids ==> r in t.roles && r != t.everyone
  {
    var list :| Ranked(t.roles, t.everyone, list);
    if forall r :: r in ids ==> r in t.roles && r != t.everyone {
      forall i | 0 <= i < |ids| ensures ids[i] in t.roles && !t.roles[ids[i]].isDefault { assert ids[i] in ids; }
    }
  }

  // set_member_roles gives the member exactly the roles listed.
  lemma HoldsExactly(t: Tables, uid: Uid, ids: seq<RoleId>)
    ensures var t' := RolesAssigned(t, uid, ids);
            && (forall r :: (uid, r) in t'.memberRoles <==> r in ids)
            && (forall v, r :: v != uid ==> ((v, r) in t'.memberRoles <==> (v, r) in t.memberRoles))
            && t' == t.(memberRoles := t'.memberRoles)
  {
  }

  // Operations that leave the layout and the flags alone.
  lemma LayoutUntouched(t: Tables, t': Tables, x: Target)
    requires OrderInv(t) && SyncInv(t) && RowsInv(t)
    requires t'.order == t.order && t'.kinds == t.kinds && t'.synced == t.synced && t'.syncing == t.syncing
    requires t'.overwrites == WithoutTarget(t.overwrites, x) || t'.overwrites == t.overwrites
    ensures OrderInv(t') && SyncInv(t') && RowsInv(t')
    ensures forall c :: Parent(t', c) == Parent(t, c) && Source(t', c) == Source(t, c)
    ensures t'.overwrites == WithoutTarget(t.overwrites, x) ==> forall c :: Effective(t', c) == Effective(t, c) - {x}
  {
    if t'.overwrites == WithoutTarget(t.overwrites, x) { WithoutTargetRows(t, t', x); }
    forall c ensures Parent(t', c) == Parent(t, c) && Source(t', c) == Source(t, c) && Follows(t', c) == Follows(t, c) {}
  }

  lemma MemberOpsKeepInv(t: Tables, uid: Uid, ids: seq<RoleId>)
    requires Inv(t)
    ensures Inv(MemberGone(t, uid)) && Inv(MemberBanned(t, uid))
    ensures Assignable(t, ids) ==> Inv(RolesAssigned(t, uid, ids))
  {
    LayoutUntouched(t, MemberGone(t, uid), MemberTarget(uid));
    LayoutUntouched(t, MemberBanned(t, uid), MemberTarget(uid));
    LayoutUntouched(t, RolesAssigned(t, uid, ids), MemberTarget(uid));
    var list :| Ranked(t.roles, t.everyone, list);
    assert Ranked(MemberGone(t, uid).roles, t.everyone, list);
    assert Ranked(MemberBanned(t, uid).roles, t.everyone, list);
    assert Ranked(RolesAssigned(t, uid, ids).roles, t.everyone, list);
  }

  // create_role, update_role and delete_role are insert at the bottom,
  // clamped move and remove on the one list the positions stand for.
  lemma RoleCreateRefines(t: Tables, role: Role, list: seq<RoleId>)
    requires Inv(t) && Ranked(t.roles, t.everyone, list)
    ensures Inv(RoleCreated(t, role))
    ensures Ranked(RoleCreated(t, role).roles, t.everyone, InsertAt(list, 0, t.nextRole))
  {
    CreateInserts(t.roles, t.everyone, list, t.nextRole, role);
    LayoutUntouched(t, RoleCreated(t, role), RoleTarget(0));
  }

  lemma UpdateKeepsIds(roles: RoleTable, id: RoleId, role: Role, position: int)
    requires id in roles
    ensures Updated(roles, id, role, position).Keys == roles.Keys
  {
  }

  lemma RankedSize(roles: RoleTable, everyone: RoleId, list: seq<RoleId>, id: RoleId)
    requires Ranked(roles, everyone, list) && id in roles && id != everyone
    ensures |list| == |roles| - 1 && 1 <= roles[id].position <= |list| && !roles[id].isDefault
  {
    RankedCount(roles, everyone, list);
  }

  lemma ClampedMove(t: Tables, id: RoleId, role: Role, list: seq<RoleId>, i: nat, j: nat)
    requires Ranked(t.roles, t.everyone, list)
    requires i < |list| && list[i] == id
    requires j == Clamp(role.position, 1, |list|) - 1
    ensures id in t.roles && Ranked(RoleUpdated(t, id, role).roles, t.everyone, Move(list, i, j))
  {
    ListedRole(t.roles, t.everyone, list, i);
    RankedSize(t.roles, t.everyone, list, id);
    UpdateMoves(t.roles, t.everyone, list, id, role, j + 1);
    assert RoleUpdated(t, id, role).roles == Updated(t.roles, id, role, j + 1);
  }

  // The place asked for counts from 1, and ends at the list's ends.
  lemma RoleUpdateMoves(t: Tables, id: RoleId, role: Role, list: seq<RoleId>, i: nat, j: nat)
    requires Ranked(t.roles, t.everyone, list)
    requires i < |list| && list[i] == id
    requires j == if role.position < 1 then 0 else if role.position > |list| then |list| - 1 else role.position - 1
    ensures id in t.roles && Ranked(RoleUpdated(t, id, role).roles, t.everyone, Move(list, i, j))
  {
    ClampedMove(t, id, role, list, i, j);
  }

  lemma ListedRole(roles: RoleTable, everyone: RoleId, list: seq<RoleId>, i: nat)
    requires Ranked(roles, everyone, list) && i < |list|
    ensures list[i] in roles && list[i] != everyone && roles[list[i]].position == i + 1
  {
  }

  // Editing `everyone` moves nothing.
  lemma DefaultRoleStays(t: Tables, role: Role, list: seq<RoleId>)
    requires Ranked(t.roles, t.everyone, list)
    ensures Ranked(RoleUpdated(t, t.everyone, role).roles, t.everyone, list)
    ensures RoleUpdated(t, t.everyone, role).roles.Keys == t.roles.Keys
  {
  }

  lemma RoleUpdateKeepsInv(t: Tables, id: RoleId, role: Role)
    requires Inv(t) && id in t.roles
    ensures Inv(RoleUpdated(t, id, role))
  {
    var list :| Ranked(t.roles, t.everyone, list);
    if id == t.everyone {
      DefaultRoleStays(t, role, list);
    } else {
      RankedSize(t.roles, t.everyone, list, id);
      ClampedMove(t, id, role, list, t.roles[id].position - 1, Clamp(role.position, 1, |list|) - 1);
    }
    UpdateKeepsIds(t.roles, id, role, Clamp(role.position, 1, |t.roles| - 1));
    RoleUpdateInv(t, RoleUpdated(t, id, role));
  }

  lemma RoleUpdateInv(t: Tables, t': Tables)
    requires Inv(t) && t' == t.(roles := t'.roles) && t'.roles.Keys == t.roles.Keys
    requires exists list :: Ranked(t'.roles, t'.everyone, list)
    ensures Inv(t')
  {
    LayoutUntouched(t, t', RoleTarget(0));
  }

  lemma RoleDeleteRefines(t: Tables, id: RoleId, list: seq<RoleId>)
    requires Inv(t) && Ranked(t.roles, t.everyone, list) && id in t.roles && id != t.everyone
    ensures Inv(RoleDeleted(t, id))
    ensures 1 <= t.roles[id].position <= |list|
    ensures Ranked(RoleDeleted(t, id).roles, t.everyone, Without(list, t.roles[id].position - 1))
  {
    DeleteRemoves(t.roles, t.everyone, list, id);
    LayoutUntouched(t, RoleDeleted(t, id), RoleTarget(id));
  }

  lemma RoleCreateKeepsInv(t: Tables, role: Role)
    requires Inv(t)
    ensures Inv(RoleCreated(t, role)) && t.nextRole !in t.roles
  {
    var list :| Ranked(t.roles, t.everyone, list);
    RoleCreateRefines(t, role, list);
  }

  lemma RoleDeleteKeepsInv(t: Tables, id: RoleId)
    requires Inv(t) && id in t.roles && !t.roles[id].isDefault
    ensures Inv(RoleDeleted(t, id))
  {
    var list :| Ranked(t.roles, t.everyone, list);
    RoleDeleteRefines(t, id, list);
  }

  // ---- whose permissions change ----

  lemma TargetsDiffer(t: Tables, uid: Uid, other: Uid)
    requires uid != other
    ensures Relates(t, other, MemberTarget(uid)) == Unrelated
  {
    ToStringInjective(uid, other);
  }

  // Losing one row that does not concern a member changes nothing for them.
  lemma UnrelatedRow(t: Tables, t': Tables, rows: Rows, x: Target, base: Perms, uid: Uid, pass: bool)
    requires t'.roles == t.roles && t'.everyone == t.everyone
    requires forall r :: (uid, r) in t'.memberRoles <==> (uid, r) in t.memberRoles
    requires Relates(t, uid, x) == Unrelated
    ensures Resolve(t', rows - {x}, base, uid, pass) == Resolve(t, rows, base, uid, pass)
  {
    ResolveFrame(t, t', rows, rows - {x}, base, uid, pass);
  }

  // A member leaving, being banned or changing roles touches nobody else.
  lemma OthersUntouched(t: Tables, uid: Uid, ids: seq<RoleId>, other: Uid, passes: Passes, c: ChannelId, e: PermEntry)
    requires Inv(t) && other != uid
    ensures ChannelPerms(MemberGone(t, uid), passes, other, c) == ChannelPerms(t, passes, other, c)
    ensures ChannelPerms(RolesAssigned(t, uid, ids), passes, other, c) == ChannelPerms(t, passes, other, c)
    ensures IsEntry(MemberGone(t, uid), other, e) == IsEntry(t, other, e)
    ensures IsEntry(RolesAssigned(t, uid, ids), other, e) == IsEntry(t, other, e)
  {
    TargetsDiffer(t, uid, other);
    var g, a := MemberGone(t, uid), RolesAssigned(t, uid, ids);
    LayoutUntouched(t, g, MemberTarget(uid));
    LayoutUntouched(t, a, MemberTarget(uid));
    EntryFrame(t, g, other, e);
    EntryFrame(t, a, other, e);
    UnrelatedRow(t, g, Effective(t, c), MemberTarget(uid), BaseOf(t, other), other, HasPass(passes, other, c));
    assert Effective(a, c) == Effective(t, c);
    ResolveFrame(t, a, Effective(t, c), Effective(t, c), BaseOf(t, other), other, HasPass(passes, other, c));
  }

  // An edit changes permissions only for those its target concerns.
  lemma EditTouchesItsTargets(t: Tables, c: ChannelId, x: Target, bits: Bits, passes: Passes, uid: Uid, y: ChannelId)
    requires Inv(t) && c in t.kinds
    requires Relates(t, uid, x) == Unrelated
    ensures ChannelPerms(Edited(t, c, x, bits), passes, uid, y) == ChannelPerms(t, passes, uid, y)
  {
    var t' := Edited(t, c, x, bits);
    EditChangesOneTarget(t, c, x, bits);
    EntryFrame(t, t', uid, PermEntry({}, 0, false));
    ResolveFrame(t, t', Effective(t, y), Effective(t', y), BaseOf(t, uid), uid, HasPass(passes, uid, y));
  }

  lemma PrintedIsRead(id: string, n: int, m: int)
    requires Stoll(id) == Some(n) && INT64_MIN <= m <= INT64_MAX && id == ToString(m)
    ensures m == n
  {
    StollReadsToString(m, "");
    assert ToString(m) + "" == ToString(m);
  }

  lemma RolesPrint(t: Tables, x: Target, n: int)
    requires Inv(t) && t.nextRole <= INT64_MAX && Stoll(x.id) == Some(n) && x.kind == 0 && n >= 0 && n in t.roles
    ensures forall r :: r in t.roles ==> (x.id == ToString(r) <==> x.id == ToString(n) && r == n)
    ensures t.everyone in t.roles
  {
    var list :| Ranked(t.roles, t.everyone, list);
    forall r | r in t.roles && x.id == ToString(r) ensures r == n { PrintedIsRead(x.id, n, r); }
  }

  // Whom an accepted overwrite concerns, and how: the role or member it was
  // read as, if the id is written as numbers print, and otherwise nobody.
  lemma TargetConcernsIff(t: Tables, x: Target, uid: Uid)
    requires Inv(t) && KnownTarget(t, x) && INT64_MIN <= uid <= INT64_MAX && t.nextRole <= INT64_MAX
    ensures var n := Stoll(x.id).value;
            Relates(t, uid, x) ==
            if x.id != ToString(n) then Unrelated
            else if x.kind == 0 then
              if n == t.everyone then ToEveryone else if (uid, n) in t.memberRoles then ToMyRole else Unrelated
            else if uid == n then ToMe else Unrelated
  {
    var n := Stoll(x.id).value;
    if x.kind == 0 {
      RolesPrint(t, x, n);
    } else if x.id == ToString(uid) {
      PrintedIsRead(x.id, n, uid);
    }
  }

  // Such an id is accepted: 007 is read as the number 7, which prints as 7.
  lemma OddTargetIsKnown(t: Tables)
    ensures Stoll("007") == Some(7) && "007" != ToString(7)
    ensures KnownTarget(t, Target(0, "007")) <==> 7 in t.roles
    ensures KnownTarget(t, Target(1, "007")) <==> 7 in t.members
  {
    DigitPrefixOfNumber("007", "");
    assert "007" + "" == "007" && "007"[..2] == "00" && "00"[..1] == "0" && "0"[..0] == "";
    assert Val("007") == 7;
    assert |ToString(7)| == 1;
  }

  // set_overwrite keeps the target id as it was written. Text stoll reads a
  // known id from but that is not how the id prints ("007", "7x") is accepted,
  // and then concerns nobody: no permission changes anywhere.
  lemma OddTargetIsInert(t: Tables, c: ChannelId, x: Target, bits: Bits, passes: Passes, uid: Uid, y: ChannelId)
    requires Inv(t) && c in t.kinds
    requires INT64_MIN <= uid <= INT64_MAX && t.nextRole <= INT64_MAX
    requires Stoll(x.id).Some? ==> x.id != ToString(Stoll(x.id).value)
    ensures ChannelPerms(Edited(t, c, x, bits), passes, uid, y) == ChannelPerms(t, passes, uid, y)
  {
    forall n: int | INT64_MIN <= n <= INT64_MAX ensures x.id != ToString(n) {
      StollReadsToString(n, "");
      assert ToString(n) + "" == ToString(n);
    }
    var list :| Ranked(t.roles, t.everyone, list);
    EditTouchesItsTargets(t, c, x, bits, passes, uid, y);
  }
}
