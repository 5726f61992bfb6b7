// Whole runs of operations: the invariant in every reachable state, and the
// promise that nothing but an edit, a sync or a restore changes what a
// channel allows.
module Runs {
  import opened Options
  import opened ChannelOrder
  import opened Roles
  import opened Permissions
  import opened CategorySync
  import opened Membership

  datatype Op =
    | Reorder(ids: seq<ChannelId>)
    | DeleteChannel(channel: ChannelId)
    | SetCategorySync(category: ChannelId, on: bool)
    | CreateChannel(id: ChannelId, kind: Kind, under: ChannelId)
    | SetOverwrite(edited: ChannelId, target: Target, allow: Perms, deny: Perms)
    | SyncChannel(synced: ChannelId)
    | RestoreOverwrites(restored: ChannelId, rows: Rows)
    | AddMember(joined: Uid)
    | RemoveMember(left: Uid)
    | AddBan(banned: Uid)
    | SetMemberRoles(holder: Uid, roles: seq<RoleId>)
    | TransferOwnership(owner: Uid)
    | CreateRole(role: Role)
    | UpdateRole(updated: RoleId, to: Role)
    | DeleteRole(deleted: RoleId)

  // The next tables; a refused operation changes nothing.
  function Apply(t: Tables, op: Op): Tables
  {
    match op
    case Reorder(ids) => if IsListing(t, ids) then Reordered(t, ids) else t
    case DeleteChannel(c) => if c in t.kinds then Removed(t, c) else t
    case SetCategorySync(c, on) =>
      if IsCategory(t.kinds, c) && on != (c in t.syncing) then Switched(t, c, on) else t
    case CreateChannel(id, kind, under) =>
      if id != NO_CATEGORY && id !in t.kinds && Place(t.order, t.kinds, kind, under).Some? then Added(t, id, kind, under) else t
    case SetOverwrite(c, x, allow, deny) => if c in t.kinds && KnownTarget(t, x) then Edited(t, c, x, Masked(allow, deny)) else t
    case SyncChannel(c) => if CanSync(t, c) then Synced(t, c) else t
    case RestoreOverwrites(c, rows) => Restored(t, c, rows)
    case AddMember(uid) => t.(members := t.members + if uid > 0 then {uid} else {})
    case RemoveMember(uid) => MemberGone(t, uid)
    case AddBan(uid) => if uid == 0 then t else MemberBanned(t, uid)
    case SetMemberRoles(uid, ids) => if Assignable(t, ids) then RolesAssigned(t, uid, ids) else t
    case TransferOwnership(uid) => if uid in t.members then t.(owner := uid) else t
    case CreateRole(role) => if role.name != "" then RoleCreated(t, role) else t
    case UpdateRole(id, role) =>
      if id in t.roles && (t.roles[id].isDefault || role.name != "") then RoleUpdated(t, id, role) else t
    case DeleteRole(id) => if id in t.roles && !t.roles[id].isDefault then RoleDeleted(t, id) else t
  }

  function Run(t: Tables, ops: seq<Op>): Tables
    decreases |ops|
  {
    if ops == [] then t else Run(Apply(t, ops[0]), ops[1..])
  }

  // A restore asks for no channel; this is what its callers must know.
  predicate Grounded(t: Tables, op: Op)
  {
    op.RestoreOverwrites? ==> op.restored in t.kinds || op.rows == map[]
  }

  lemma ChannelOpKeepsInv(t: Tables, op: Op)
    requires Inv(t)
    requires op.Reorder? || op.DeleteChannel? || op.SetCategorySync? || op.CreateChannel? || op.SetOverwrite?
          || op.SyncChannel? || op.RestoreOverwrites?
    ensures Inv(Apply(t, op)) <==> Grounded(t, op)
  {
    match op
    case Reorder(ids) => if IsListing(t, ids) { ReorderKeeps(t, ids); }
    case DeleteChannel(c) => if c in t.kinds { RemoveKeeps(t, c); }
    case SetCategorySync(c, on) => if IsCategory(t.kinds, c) && on != (c in t.syncing) { SwitchKeeps(t, c, on); }
    case CreateChannel(id, kind, under) =>
      if id != NO_CATEGORY && id !in t.kinds && Place(t.order, t.kinds, kind, under).Some? { AddKeeps(t, id, kind, under); }
    case SetOverwrite(c, x, allow, deny) => if c in t.kinds { EditChangesOneTarget(t, c, x, Masked(allow, deny)); }
    case SyncChannel(c) => if CanSync(t, c) { SyncFollows(t, c); }
    case RestoreOverwrites(c, rows) => RestoreKeepsIffKnown(t, c, rows);
  }

  lemma RoleOpKeepsInv(t: Tables, op: Op)
    requires Inv(t) && (op.CreateRole? || op.UpdateRole? || op.DeleteRole?)
    ensures Inv(Apply(t, op))
  {
    match op
    case CreateRole(role) => RoleCreateKeepsInv(t, role);
    case UpdateRole(id, role) => if id in t.roles { RoleUpdateKeepsInv(t, id, role); }
    case DeleteRole(id) => if id in t.roles && !t.roles[id].isDefault { RoleDeleteKeepsInv(t, id); }
  }

  lemma ColumnOnly(t: Tables, t': Tables)
    requires Inv(t) && t' == t.(members := t'.members, owner := t'.owner)
    ensures Inv(t')
  {
    LayoutUntouched(t, t', RoleTarget(0));
    RolesUntouched(t, t');
  }

  // Every operation keeps the invariant, a restore exactly when the channel is
  // known or there is nothing to restore.
  lemma ApplyKeepsInv(t: Tables, op: Op)
    requires Inv(t)
    ensures Inv(Apply(t, op)) <==> Grounded(t, op)
  {
    match op
    case AddMember(uid) => ColumnOnly(t, Apply(t, op));
    case TransferOwnership(uid) => ColumnOnly(t, Apply(t, op));
    case RemoveMember(uid) => MemberOpsKeepInv(t, uid, []);
    case AddBan(uid) => MemberOpsKeepInv(t, uid, []);
    case SetMemberRoles(uid, ids) => MemberOpsKeepInv(t, uid, ids);
    case CreateRole(_) => RoleOpKeepsInv(t, op);
    case UpdateRole(_, _) => RoleOpKeepsInv(t, op);
    case DeleteRole(_) => RoleOpKeepsInv(t, op);
    case _ => ChannelOpKeepsInv(t, op);
  }

  predicate AllGrounded(t: Tables, ops: seq<Op>)
    decreases |ops|
  {
    ops == [] || (Grounded(t, ops[0]) && AllGrounded(Apply(t, ops[0]), ops[1..]))
  }

  // In every reachable state the order is normal, synced channels have no
  // rows and a syncing parent, and role positions are 1..N.
  lemma {:induction false} RunKeepsInv(t: Tables, ops: seq<Op>)
    requires Inv(t) && AllGrounded(t, ops)
    ensures Inv(Run(t, ops))
    decreases |ops|
  {
    if ops != [] {
      ApplyKeepsInv(t, ops[0]);
      RunKeepsInv(Apply(t, ops[0]), ops[1..]);
    }
  }

  // ---- the shape of stored rows ----

  predicate WellShaped(op: Op) { op.RestoreOverwrites? ==> AllShaped(op.rows) }

  lemma PeopleOpShaped(t: Tables, op: Op)
    requires RowsShaped(t) && (op.RemoveMember? || op.AddBan? || op.DeleteRole?)
    ensures RowsShaped(Apply(t, op))
  {
    match op
    case RemoveMember(uid) => WithoutTargetShaped(t, MemberGone(t, uid), MemberTarget(uid));
    case AddBan(uid) => WithoutTargetShaped(t, MemberBanned(t, uid), MemberTarget(uid));
    case DeleteRole(id) => if id in t.roles { WithoutTargetShaped(t, RoleDeleted(t, id), RoleTarget(id)); }
  }

  lemma StructuralShaped(t: Tables, op: Op)
    requires RowsShaped(t) && (op.Reorder? || op.DeleteChannel? || op.SetCategorySync?)
    ensures RowsShaped(Apply(t, op))
  {
    match op
    case Reorder(ids) => DetachedPlusShaped(t, MovedAway(t, Normalize(ids, t.kinds)), Apply(t, op));
    case DeleteChannel(c) => RemovedShaped(t, c);
    case SetCategorySync(c, on) => DetachedPlusShaped(t, Followers(t, c), Apply(t, op));
  }

  lemma RowOpShaped(t: Tables, op: Op)
    requires RowsShaped(t) && (op.SetOverwrite? || op.SyncChannel? || op.RestoreOverwrites?)
    ensures RowsShaped(Apply(t, op)) <==> WellShaped(op)
  {
    match op
    case SetOverwrite(c, x, allow, deny) => EditShaped(t, c, x, allow, deny);
    case SyncChannel(c) => PutShaped(t, Synced(t, c), c, map[]);
    case RestoreOverwrites(c, rows) => PutShaped(t, Restored(t, c, rows), c, rows);
  }

  lemma OtherOpRows(t: Tables, op: Op)
    requires op.CreateChannel? || op.AddMember? || op.SetMemberRoles? || op.TransferOwnership? || op.CreateRole? || op.UpdateRole?
    ensures Apply(t, op).overwrites == t.overwrites
  {
  }

  // Every stored row keeps a shape set_overwrite could have written; only a
  // restore of others breaks it.
  lemma ApplyKeepsShape(t: Tables, op: Op)
    requires RowsShaped(t)
    ensures RowsShaped(Apply(t, op)) <==> WellShaped(op)
  {
    if op.Reorder? || op.DeleteChannel? || op.SetCategorySync? {
      StructuralShaped(t, op);
    } else if op.SetOverwrite? || op.SyncChannel? || op.RestoreOverwrites? {
      RowOpShaped(t, op);
    } else if op.RemoveMember? || op.AddBan? || op.DeleteRole? {
      PeopleOpShaped(t, op);
    } else {
      OtherOpRows(t, op);
      SameRowsShaped(t, Apply(t, op));
    }
  }

  lemma DetachedPlusShaped(t: Tables, cs: set<ChannelId>, t': Tables)
    requires RowsShaped(t) && (t'.overwrites == t.overwrites || t'.overwrites == Detached(t, cs).overwrites)
    ensures RowsShaped(t')
  {
    DetachedShaped(t, cs);
    if t'.overwrites == t.overwrites { SameRowsShaped(t, t'); } else { SameRowsShaped(Detached(t, cs), t'); }
  }

  lemma RemovedShaped(t: Tables, c: ChannelId)
    requires RowsShaped(t)
    ensures RowsShaped(Removed(t, c))
  {
    var d := Detached(t, Followers(t, c));
    DetachedShaped(t, Followers(t, c));
    forall x ensures AllShaped(RowsOf(Removed(t, c), x)) { assert AllShaped(RowsOf(d, x)); }
  }

  lemma WithoutTargetShaped(t: Tables, t': Tables, x: Target)
    requires RowsShaped(t) && t'.overwrites == WithoutTarget(t.overwrites, x)
    ensures RowsShaped(t')
  {
    WithoutTargetRows(t, t', x);
    forall c ensures AllShaped(RowsOf(t', c)) { assert AllShaped(RowsOf(t, c)); }
  }

  lemma SameRowsShaped(t: Tables, t': Tables)
    requires RowsShaped(t) && t'.overwrites == t.overwrites
    ensures RowsShaped(t')
  {
    forall c ensures AllShaped(RowsOf(t', c)) { assert AllShaped(RowsOf(t, c)); }
  }

  lemma {:induction false} RunKeepsShape(t: Tables, ops: seq<Op>)
    requires RowsShaped(t) && forall i :: 0 <= i < |ops| ==> WellShaped(ops[i])
    ensures RowsShaped(Run(t, ops))
    decreases |ops|
  {
    if ops != [] {
      ApplyKeepsShape(t, ops[0]);
      RunKeepsShape(Apply(t, ops[0]), ops[1..]);
    }
  }

  // So in every state reached by operations and restores of rows once listed,
  // the guard's revert of an edit puts back exactly the tables.
  lemma EveryEditIsUndone(t: Tables, ops: seq<Op>, c: ChannelId, x: Target, bits: Bits)
    requires Inv(t) && RowsShaped(t) && AllGrounded(t, ops) && forall i :: 0 <= i < |ops| ==> WellShaped(ops[i])
    requires c in Run(t, ops).kinds && !Follows(Run(t, ops), c)
    ensures Reverted(Run(t, ops), c, x, bits) == Run(t, ops)
  {
    RunKeepsInv(t, ops);
    RunKeepsShape(t, ops);
    assert AllShaped(RowsOf(Run(t, ops), c));
    EditUndoesEdit(Run(t, ops), c, x, bits);
  }

  // ---- structural runs ----

  // Moving, creating, deleting and switching category sync.
  predicate Structural(op: Op)
  {
    op.Reorder? || op.DeleteChannel? || op.SetCategorySync? || op.CreateChannel?
  }

  lemma StructuralStep(t: Tables, op: Op, c: ChannelId)
    requires Inv(t) && Structural(op) && c in t.kinds
    requires op != DeleteChannel(c)
    ensures c in Apply(t, op).kinds && Effective(Apply(t, op), c) == Effective(t, c)
    ensures Apply(t, op).roles == t.roles && Apply(t, op).everyone == t.everyone
    ensures Apply(t, op).owner == t.owner && Apply(t, op).memberRoles == t.memberRoles
  {
    match op
    case Reorder(ids) => if IsListing(t, ids) { ReorderKeeps(t, ids); }
    case DeleteChannel(d) => if d in t.kinds { RemoveKeeps(t, d); }
    case SetCategorySync(k, on) => if IsCategory(t.kinds, k) && on != (k in t.syncing) { SwitchKeeps(t, k, on); }
    case CreateChannel(id, kind, under) =>
      if id != NO_CATEGORY && id !in t.kinds && Place(t.order, t.kinds, kind, under).Some? { AddKeeps(t, id, kind, under); }
  }

  // Over any run of structural operations, a channel that is not deleted
  // allows every member exactly what it allowed before.
  lemma {:induction false} StructuralRunKeepsPermissions(t: Tables, ops: seq<Op>, c: ChannelId, passes: Passes, uid: Uid)
    requires Inv(t) && c in t.kinds
    requires forall i :: 0 <= i < |ops| ==> Structural(ops[i]) && ops[i] != DeleteChannel(c)
    ensures c in Run(t, ops).kinds
    ensures Effective(Run(t, ops), c) == Effective(t, c)
    ensures ChannelPerms(Run(t, ops), passes, uid, c) == ChannelPerms(t, passes, uid, c)
    decreases |ops|
  {
    if ops != [] {
      var t' := Apply(t, ops[0]);
      StructuralStep(t, ops[0], c);
      ApplyKeepsInv(t, ops[0]);
      SamePermissions(t, t', passes, uid, c);
      StructuralRunKeepsPermissions(t', ops[1..], c, passes, uid);
    }
  }

  // Nothing but an explicit sync, or being created inside a syncing category,
  // makes a channel start following one: whatever else happens, a channel that
  // follows afterwards followed the same category before.
  lemma OnlySyncStartsFollowing(t: Tables, op: Op, c: ChannelId)
    requires Inv(t) && c in t.kinds && op != SyncChannel(c)
    ensures var t' := Apply(t, op);
            c in t'.kinds && Source(t', c) != c ==> Source(t', c) == Source(t, c)
  {
    match op
    case Reorder(ids) => if IsListing(t, ids) { MovesDetach(t, ids, c); }
    case DeleteChannel(d) => if d in t.kinds && c != d { RemovalDetaches(t, d, c); }
    case SetCategorySync(k, on) => if IsCategory(t.kinds, k) && on != (k in t.syncing) { SwitchDetaches(t, k, on, c); }
    case CreateChannel(_, _, _) => RowOpFollows(t, op, c);
    case SetOverwrite(_, _, _, _) => RowOpFollows(t, op, c);
    case SyncChannel(_) => RowOpFollows(t, op, c);
    case RestoreOverwrites(_, _) => RowOpFollows(t, op, c);
    case _ => MemberOpFollows(t, op, c);
  }

  lemma RowOpFollows(t: Tables, op: Op, c: ChannelId)
    requires Inv(t) && c in t.kinds && op != SyncChannel(c)
    requires op.CreateChannel? || op.SetOverwrite? || op.SyncChannel? || op.RestoreOverwrites?
    ensures var t' := Apply(t, op);
            c in t'.kinds && Source(t', c) != c ==> Source(t', c) == Source(t, c)
  {
    match op
    case CreateChannel(id, kind, under) =>
      if id != NO_CATEGORY && id !in t.kinds && Place(t.order, t.kinds, kind, under).Some? { AddedLayout(t, id, kind, under); }
    case SetOverwrite(d, x, allow, deny) => if d in t.kinds { EditFollows(t, d, x, Masked(allow, deny), c); }
    case SyncChannel(d) => if CanSync(t, d) { SyncFollows(t, d); }
    case RestoreOverwrites(d, rows) => assert Parent(Restored(t, d, rows), c) == Parent(t, c);
  }

  lemma MemberOpFollows(t: Tables, op: Op, c: ChannelId)
    requires Inv(t) && c in t.kinds
    requires op.AddMember? || op.RemoveMember? || op.AddBan? || op.SetMemberRoles? || op.TransferOwnership?
          || op.CreateRole? || op.UpdateRole? || op.DeleteRole?
    ensures Source(Apply(t, op), c) == Source(t, c)
  {
    MemberOpLayout(t, op);
    SourceFrame(t, Apply(t, op), c);
  }

  lemma MemberOpLayout(t: Tables, op: Op)
    requires op.AddMember? || op.RemoveMember? || op.AddBan? || op.SetMemberRoles? || op.TransferOwnership?
          || op.CreateRole? || op.UpdateRole? || op.DeleteRole?
    ensures var t' := Apply(t, op); t'.order == t.order && t'.kinds == t.kinds && t'.synced == t.synced && t'.syncing == t.syncing
  {
  }

  lemma SourceFrame(t: Tables, t': Tables, c: ChannelId)
    requires t'.order == t.order && t'.kinds == t.kinds && t'.synced == t.synced && t'.syncing == t.syncing
    ensures Source(t', c) == Source(t, c)
  {
  }

  // Rows kept by some of the followers: a channel that still follows did so
  // before.
  lemma KeptFollow(t: Tables, cs: set<ChannelId>, c: ChannelId)
    requires Inv(t) && forall x :: x in cs ==> Source(t, x) != x
    ensures Inv(Detached(t, cs)) && (Follows(Detached(t, cs), c) ==> Follows(t, c) && c !in cs)
    ensures forall x :: x in cs ==> Follows(t, x)
  {
    forall x ensures x in cs ==> Follows(t, x) { SourceFacts(t, x); }
    DetachKeeps(t, cs);
  }

  lemma MovesDetach(t: Tables, ids: seq<ChannelId>, c: ChannelId)
    requires Inv(t) && IsListing(t, ids) && c in t.kinds
    ensures var t' := Reordered(t, ids); Source(t', c) != c ==> Source(t', c) == Source(t, c)
  {
    var t' := Reordered(t, ids);
    KeptFollow(t, MovedAway(t, Normalize(ids, t.kinds)), c);
    ReorderKeeps(t, ids);
    SourceFacts(t, c);
    SourceFacts(t', c);
  }

  lemma RemovalDetaches(t: Tables, d: ChannelId, c: ChannelId)
    requires Inv(t) && d in t.kinds && c in t.kinds && c != d
    ensures var t' := Removed(t, d); Source(t', c) != c ==> Source(t', c) == Source(t, c)
  {
    var t' := Removed(t, d);
    KeptFollow(t, Followers(t, d), c);
    RemovedLayout(t, d);
    RemoveKeeps(t, d);
    SourceFacts(t, c);
    SourceFacts(t', c);
  }

  lemma SwitchDetaches(t: Tables, k: ChannelId, on: bool, c: ChannelId)
    requires Inv(t) && IsCategory(t.kinds, k) && on != (k in t.syncing) && c in t.kinds
    ensures var t' := Switched(t, k, on); Source(t', c) != c ==> Source(t', c) == Source(t, c)
  {
    var t' := Switched(t, k, on);
    KeptFollow(t, Followers(t, k), c);
    SwitchKeeps(t, k, on);
    SourceFacts(t, c);
    SourceFacts(t', c);
    assert Parent(t', c) == Parent(t, c);
  }

  lemma EditFollows(t: Tables, d: ChannelId, x: Target, bits: Bits, c: ChannelId)
    requires Inv(t) && d in t.kinds && c in t.kinds
    ensures var t' := Edited(t, d, x, bits); Source(t', c) != c ==> Source(t', c) == Source(t, c)
  {
    SourceFacts(t, c);
    EditChangesOneTarget(t, d, x, bits);
  }
}
