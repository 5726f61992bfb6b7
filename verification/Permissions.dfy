// The tables of the community database that permissions are read from, and
// what the queries mean on them: the rows that apply to a channel, a
// member's server-wide entry, and the permissions of a member in a channel.
module Permissions {
  import opened Decimal
  import opened ChannelOrder
  import opened Roles

  type Uid = int

  // Permission bits, by number (src/community/db.hpp).
  const ADMINISTRATOR: nat := 0
  const CONNECT_VOICE: nat := 11
  const VIEW_CHANNEL: nat := 13
  const ALL: Perms := set b: nat | b < 64
  const KNOWN_MASK: Perms := set b: nat | b < 25 && b != 9

  const OWNER_LEVEL := 0x7FFF_FFFF

  // target_type 0 is a role, 1 a member; target_id is decimal text.
  datatype Target = Target(kind: int, id: string)
  datatype Bits = Bits(allow: Perms, deny: Perms)
  type Rows = map<Target, Bits>

  // The overwrite rows by channel; a channel with none has no entry.
  type Overwrites = map<ChannelId, Rows>

  type Passes = map<Uid, set<ChannelId>>

  datatype Tables = Tables(
    order: seq<ChannelId>,          // SELECT id FROM channels ORDER BY position
    kinds: Kinds,                   // channels.type
    synced: set<ChannelId>,         // channels.perm_synced = 1, on a category possible but not read
    syncing: set<ChannelId>,        // channels.category_sync = 1
    overwrites: Overwrites,
    roles: RoleTable,
    everyone: RoleId,               // the role with is_default = 1
    nextRole: RoleId,               // AUTOINCREMENT: above every id ever used
    members: set<Uid>,
    memberRoles: set<(Uid, RoleId)>,
    banned: set<Uid>,
    owner: Uid)                     // server_meta.owner_uid, 0 when unset

  // ---- which rows apply to a channel ----

  function RowsOf(t: Tables, c: ChannelId): Rows
  {
    if c in t.overwrites then t.overwrites[c] else map[]
  }

  function Parent(t: Tables, c: ChannelId): ChannelId
  {
    ParentIn(t.order, t.kinds, c, NO_CATEGORY)
  }

  // The channel whose rows apply to `c`.
  function Source(t: Tables, c: ChannelId): ChannelId
  {
    var p := Parent(t, c);
    if p != NO_CATEGORY && c in t.synced && p in t.syncing then p else c
  }

  function Effective(t: Tables, c: ChannelId): Rows { RowsOf(t, Source(t, c)) }

  // The flag where it is read.
  predicate Follows(t: Tables, c: ChannelId) { c in t.synced && !IsCategory(t.kinds, c) }

  // ---- a member's server-wide entry ----

  datatype PermEntry = PermEntry(permissions: Perms, level: int, managePeers: bool)

  // `everyone` and the roles the member holds.
  function Applying(t: Tables, uid: Uid): set<RoleId>
  {
    set r | r in t.roles && (r == t.everyone || (uid, r) in t.memberRoles)
  }

  function Granted(roles: RoleTable, held: set<RoleId>): Perms
  {
    set r, b | r in held && r in roles && b in roles[r].permissions :: b
  }

  ghost predicate IsTop(roles: RoleTable, held: set<RoleId>, r: RoleId)
  {
    r in held && r in roles && forall q :: q in held && q in roles ==> roles[q].position <= roles[r].position
  }

  predicate IsOwner(t: Tables, uid: Uid) { uid != 0 && t.owner == uid }

  // `e` is the entry the roles table gives `uid`: the owner has everything;
  // anyone else the union over the roles that apply, with the level and the
  // peer flag of the highest of them.
  ghost predicate IsEntry(t: Tables, uid: Uid, e: PermEntry)
  {
    if IsOwner(t, uid) then e == PermEntry(ALL, OWNER_LEVEL, false)
    else
      var bits := Granted(t.roles, Applying(t, uid));
      && e.permissions == (if ADMINISTRATOR in bits then ALL else bits)
      && exists r :: IsTop(t.roles, Applying(t, uid), r) && e.level == t.roles[r].position && e.managePeers == t.roles[r].manageEachOther
  }

  // ---- a member's permissions in a channel ----

  datatype Relation = Unrelated | ToEveryone | ToMyRole | ToMe

  // How an overwrite row concerns the member.
  function Relates(t: Tables, uid: Uid, x: Target): Relation
  {
    if x.kind == 0 then
      if x.id == ToString(t.everyone) then ToEveryone
      else if exists r | r in t.roles :: (uid, r) in t.memberRoles && x.id == ToString(r) then ToMyRole
      else Unrelated
    else if x.id == ToString(uid) then ToMe
    else Unrelated
  }

  function AllowedBy(t: Tables, uid: Uid, rows: Rows, how: Relation): Perms
  {
    set x, b | x in rows && Relates(t, uid, x) == how && b in rows[x].allow :: b
  }

  function DeniedBy(t: Tables, uid: Uid, rows: Rows, how: Relation): Perms
  {
    set x, b | x in rows && Relates(t, uid, x) == how && b in rows[x].deny :: b
  }

  function Applied(t: Tables, uid: Uid, rows: Rows, how: Relation, p: Perms): Perms
  {
    (p - DeniedBy(t, uid, rows, how)) + AllowedBy(t, uid, rows, how)
  }

  predicate HasPass(passes: Passes, uid: Uid, c: ChannelId) { uid in passes && c in passes[uid] }

  // base -> everyone -> roles -> member -> voice pass; nothing without VIEW.
  function Resolve(t: Tables, rows: Rows, base: Perms, uid: Uid, pass: bool): Perms
  {
    if base == ALL then ALL
    else
      var p := Applied(t, uid, rows, ToMe, Applied(t, uid, rows, ToMyRole, Applied(t, uid, rows, ToEveryone, base)));
      var q := if pass then p + {VIEW_CHANNEL, CONNECT_VOICE} else p;
      if VIEW_CHANNEL in q then q else {}
  }

  // Some row that concerns the member in this way allows, or denies, the bit.
  ghost predicate SomeAllow(t: Tables, uid: Uid, rows: Rows, how: Relation, b: nat)
  {
    exists x :: x in rows && Relates(t, uid, x) == how && b in rows[x].allow
  }

  ghost predicate SomeDeny(t: Tables, uid: Uid, rows: Rows, how: Relation, b: nat)
  {
    exists x :: x in rows && Relates(t, uid, x) == how && b in rows[x].deny
  }

  // A role that applies to the member has the bit.
  ghost predicate RolesGrant(t: Tables, uid: Uid, b: nat)
  {
    exists r :: r in t.roles && (r == t.everyone || (uid, r) in t.memberRoles) && b in t.roles[r].permissions
  }

  // The owner and administrators: no row limits them.
  ghost predicate FullAccess(t: Tables, uid: Uid)
  {
    (uid != 0 && uid == t.owner) || RolesGrant(t, uid, ADMINISTRATOR)
  }

  // The nearest rows that mention a bit decide it: the member's own, then the
  // roles', then everyone's, then the roles table; an allow among them beats
  // a deny.
  ghost predicate Decides(t: Tables, rows: Rows, uid: Uid, b: nat)
  {
    if SomeAllow(t, uid, rows, ToMe, b) then true
    else if SomeDeny(t, uid, rows, ToMe, b) then false
    else if SomeAllow(t, uid, rows, ToMyRole, b) then true
    else if SomeDeny(t, uid, rows, ToMyRole, b) then false
    else if SomeAllow(t, uid, rows, ToEveryone, b) then true
    else if SomeDeny(t, uid, rows, ToEveryone, b) then false
    else RolesGrant(t, uid, b)
  }

  ghost predicate DecidesOrPassed(t: Tables, rows: Rows, uid: Uid, pass: bool, b: nat)
  {
    Decides(t, rows, uid, b) || (pass && (b == VIEW_CHANNEL || b == CONNECT_VOICE))
  }

  function BaseOf(t: Tables, uid: Uid): Perms
  {
    if IsOwner(t, uid) then ALL
    else
      var bits := Granted(t.roles, Applying(t, uid));
      if ADMINISTRATOR in bits then ALL else bits
  }

  function ChannelPerms(t: Tables, passes: Passes, uid: Uid, c: ChannelId): Perms
  {
    if c !in t.kinds then {}
    else Resolve(t, Effective(t, c), BaseOf(t, uid), uid, HasPass(passes, uid, c))
  }

  // The owner and administrators may do everything in every channel, whatever
  // its rows. Anybody else has a bit exactly if the nearest rows that mention
  // it say so, or a voice pass gives it, and the channel can be seen at all.
  lemma NearestRowsDecide(t: Tables, passes: Passes, uid: Uid, c: ChannelId, b: nat)
    ensures var rows, pass := Effective(t, c), uid in passes && c in passes[uid];
            b in ChannelPerms(t, passes, uid, c) <==>
            && c in t.kinds
            && if FullAccess(t, uid) then b < 64
               else DecidesOrPassed(t, rows, uid, pass, VIEW_CHANNEL) && DecidesOrPassed(t, rows, uid, pass, b)
  {
    BaseBits(t, uid, ADMINISTRATOR);
    if !FullAccess(t, uid) { ResolveBit(t, Effective(t, c), uid, HasPass(passes, uid, c), b); }
  }

  // What the roles table alone gives.
  lemma BaseBits(t: Tables, uid: Uid, b: nat)
    ensures FullAccess(t, uid) <==> BaseOf(t, uid) == ALL
    ensures !FullAccess(t, uid) ==> (b in BaseOf(t, uid) <==> RolesGrant(t, uid, b))
  {
    GrantedBit(t, uid, b);
    GrantedBit(t, uid, ADMINISTRATOR);
    assert ADMINISTRATOR in ALL;
  }

  lemma GrantedBit(t: Tables, uid: Uid, b: nat)
    ensures b in Granted(t.roles, Applying(t, uid)) <==> RolesGrant(t, uid, b)
  {
    if r :| r in t.roles && (r == t.everyone || (uid, r) in t.memberRoles) && b in t.roles[r].permissions {
      assert r in Applying(t, uid);
    }
  }

  lemma ResolveBit(t: Tables, rows: Rows, uid: Uid, pass: bool, b: nat)
    requires !FullAccess(t, uid)
    ensures b in Resolve(t, rows, BaseOf(t, uid), uid, pass) <==>
            DecidesOrPassed(t, rows, uid, pass, VIEW_CHANNEL) && DecidesOrPassed(t, rows, uid, pass, b)
  {
    BaseBits(t, uid, b);
    ChainBit(t, rows, BaseOf(t, uid), uid, b);
    BaseBits(t, uid, VIEW_CHANNEL);
    ChainBit(t, rows, BaseOf(t, uid), uid, VIEW_CHANNEL);
  }

  lemma AppliedBit(t: Tables, uid: Uid, rows: Rows, how: Relation, p: Perms, b: nat)
    ensures b in Applied(t, uid, rows, how, p) <==> SomeAllow(t, uid, rows, how, b) || (b in p && !SomeDeny(t, uid, rows, how, b))
  {
    assert b in AllowedBy(t, uid, rows, how) <==> SomeAllow(t, uid, rows, how, b);
    assert b in DeniedBy(t, uid, rows, how) <==> SomeDeny(t, uid, rows, how, b);
  }

  lemma ChainBit(t: Tables, rows: Rows, base: Perms, uid: Uid, b: nat)
    requires b in base <==> RolesGrant(t, uid, b)
    ensures b in Applied(t, uid, rows, ToMe, Applied(t, uid, rows, ToMyRole, Applied(t, uid, rows, ToEveryone, base))) <==>
            Decides(t, rows, uid, b)
  {
    AppliedBit(t, uid, rows, ToEveryone, base, b);
    AppliedBit(t, uid, rows, ToMyRole, Applied(t, uid, rows, ToEveryone, base), b);
    AppliedBit(t, uid, rows, ToMe, Applied(t, uid, rows, ToMyRole, Applied(t, uid, rows, ToEveryone, base)), b);
  }

  // ---- invariants ----

  // The list and the rows agree, text is above voice in each block, and ""
  // names no channel.
  ghost predicate OrderInv(t: Tables)
  {
    && Distinct(t.order) && Normal(t.order, t.kinds)
    && (forall c :: c in t.order <==> c in t.kinds)
    && NO_CATEGORY !in t.kinds
  }

  // A synced channel has no rows of its own and a parent category that syncs.
  // (A category may carry the flag too: the column's default put it there.)
  ghost predicate SyncInv(t: Tables)
  {
    && (forall c :: c in t.synced ==> c in t.kinds)
    && (forall c :: Follows(t, c) ==> RowsOf(t, c) == map[] && Parent(t, c) != NO_CATEGORY && Parent(t, c) in t.syncing)
    && (forall c :: c in t.syncing ==> IsCategory(t.kinds, c))
  }

  ghost predicate RowsInv(t: Tables)
  {
    forall c :: c in t.overwrites ==> c in t.kinds && t.overwrites[c] != map[]
  }

  ghost predicate RolesInv(t: Tables)
  {
    && (exists list :: Ranked(t.roles, t.everyone, list))
    && (forall r :: r in t.roles ==> r < t.nextRole)
    && (forall m :: m in t.memberRoles ==> m.1 in t.roles && m.1 != t.everyone)
  }

  ghost predicate Inv(t: Tables) { OrderInv(t) && SyncInv(t) && RowsInv(t) && RolesInv(t) }

  // ---- what the definitions give ----

  // Under the invariant a synced channel is exactly one that follows its
  // parent, and nothing follows a follower.
  lemma SourceFacts(t: Tables, c: ChannelId)
    requires OrderInv(t) && SyncInv(t)
    ensures Source(t, c) == if Follows(t, c) then Parent(t, c) else c
    ensures Follows(t, c) ==> IsCategory(t.kinds, Parent(t, c)) && Parent(t, c) != c
    ensures !Follows(t, Source(t, c))
  {
    ParentIsCategory(t.order, t.kinds, c, NO_CATEGORY);
  }

  // The flag of a category changes nothing, in any state: no channel's source
  // depends on it.
  lemma CategoryFlagUnread(t: Tables, k: ChannelId, c: ChannelId)
    requires IsCategory(t.kinds, k)
    ensures var t' := t.(synced := t.synced + {k}); Source(t', c) == Source(t, c) && Effective(t', c) == Effective(t, c)
  {
    ParentIsCategory(t.order, t.kinds, k, NO_CATEGORY);
  }

  // The entry is unique, because positions are.
  lemma EntryUnique(t: Tables, uid: Uid, e: PermEntry, f: PermEntry)
    requires RolesInv(t)
    requires IsEntry(t, uid, e) && IsEntry(t, uid, f)
    ensures e == f && e.permissions == BaseOf(t, uid)
  {
    if !IsOwner(t, uid) {
      var held := Applying(t, uid);
      var list :| Ranked(t.roles, t.everyone, list);
      RankedCount(t.roles, t.everyone, list);
      var r :| IsTop(t.roles, held, r) && e.level == t.roles[r].position && e.managePeers == t.roles[r].manageEachOther;
      var q :| IsTop(t.roles, held, q) && f.level == t.roles[q].position && f.managePeers == t.roles[q].manageEachOther;
      assert t.roles[r].position == t.roles[q].position;
    }
  }

  // Only the roles and who holds them matter to an entry, and only the
  // member's own rows to their permissions.
  lemma EntryFrame(t: Tables, t': Tables, uid: Uid, e: PermEntry)
    requires t'.roles == t.roles && t'.everyone == t.everyone && t'.owner == t.owner
    requires forall r :: (uid, r) in t'.memberRoles <==> (uid, r) in t.memberRoles
    ensures IsEntry(t', uid, e) == IsEntry(t, uid, e)
    ensures BaseOf(t', uid) == BaseOf(t, uid)
  {
    assert Applying(t', uid) == Applying(t, uid);
  }

  lemma RelatesFrame(t: Tables, t': Tables, uid: Uid, x: Target)
    requires t'.roles == t.roles && t'.everyone == t.everyone
    requires forall r :: (uid, r) in t'.memberRoles <==> (uid, r) in t.memberRoles
    ensures Relates(t', uid, x) == Relates(t, uid, x)
  {
  }

  // Rows that concern the member the same way resolve the same.
  lemma ResolveFrame(t: Tables, t': Tables, rows: Rows, rows': Rows, base: Perms, uid: Uid, pass: bool)
    requires t'.roles == t.roles && t'.everyone == t.everyone
    requires forall r :: (uid, r) in t'.memberRoles <==> (uid, r) in t.memberRoles
    requires forall x :: Relates(t, uid, x) != Unrelated ==> (x in rows' <==> x in rows) && (x in rows ==> rows'[x] == rows[x])
    ensures Resolve(t', rows', base, uid, pass) == Resolve(t, rows, base, uid, pass)
  {
    forall x ensures Relates(t', uid, x) == Relates(t, uid, x) { RelatesFrame(t, t', uid, x); }
    SameRelations(t, t', rows, rows', base, uid, pass);
  }

  lemma SameRelations(t: Tables, t': Tables, rows: Rows, rows': Rows, base: Perms, uid: Uid, pass: bool)
    requires forall x :: Relates(t', uid, x) == Relates(t, uid, x)
    requires forall x :: Relates(t, uid, x) != Unrelated ==> (x in rows' <==> x in rows) && (x in rows ==> rows'[x] == rows[x])
    ensures Resolve(t', rows', base, uid, pass) == Resolve(t, rows, base, uid, pass)
  {
    forall how: Relation | how != Unrelated
      ensures AllowedBy(t', uid, rows', how) == AllowedBy(t, uid, rows, how)
      ensures DeniedBy(t', uid, rows', how) == DeniedBy(t, uid, rows, how)
    {
      forall b ensures b in AllowedBy(t', uid, rows', how) <==> b in AllowedBy(t, uid, rows, how) {
        if b in AllowedBy(t', uid, rows', how) {
          var x :| x in rows' && Relates(t', uid, x) == how && b in rows'[x].allow;
          assert x in rows && b in rows[x].allow;
        }
        if b in AllowedBy(t, uid, rows, how) {
          var x :| x in rows && Relates(t, uid, x) == how && b in rows[x].allow;
          assert x in rows' && b in rows'[x].allow;
        }
      }
      forall b ensures b in DeniedBy(t', uid, rows', how) <==> b in DeniedBy(t, uid, rows, how) {
        if b in DeniedBy(t', uid, rows', how) {
          var x :| x in rows' && Relates(t', uid, x) == how && b in rows'[x].deny;
          assert x in rows && b in rows[x].deny;
        }
        if b in DeniedBy(t, uid, rows, how) {
          var x :| x in rows && Relates(t, uid, x) == how && b in rows[x].deny;
          assert x in rows' && b in rows'[x].deny;
        }
      }
    }
  }

  // Same rows in force and same roles: the same permissions for everyone.
  lemma SamePermissions(t: Tables, t': Tables, passes: Passes, uid: Uid, c: ChannelId)
    requires t'.roles == t.roles && t'.everyone == t.everyone && t'.owner == t.owner && t'.memberRoles == t.memberRoles
    requires c in t.kinds && c in t'.kinds && Effective(t', c) == Effective(t, c)
    ensures ChannelPerms(t', passes, uid, c) == ChannelPerms(t, passes, uid, c)
  {
    EntryFrame(t, t', uid, PermEntry({}, 0, false));
    ResolveFrame(t, t', Effective(t, c), Effective(t', c), BaseOf(t, uid), uid, HasPass(passes, uid, c));
  }
}
