// The roles table as a ranked list: every non-default role's position is its
// place (from 1, lowest first) in one list.
module Roles {
  type RoleId = nat
  // A permission mask: the set of bits that are set.
  type Perms = set<nat>

  datatype Role = Role(name: string, color: nat, position: int, permissions: Perms,
                       isDefault: bool, manageEachOther: bool)

  type RoleTable = map<RoleId, Role>

  // `list` holds exactly the non-default roles, lowest first, and positions
  // are the places in it; `everyone` is the one default role, at 0.
  ghost predicate Ranked(roles: RoleTable, everyone: RoleId, list: seq<RoleId>)
  {
    && everyone in roles && roles[everyone].position == 0
    && (forall r :: r in roles ==> (roles[r].isDefault <==> r == everyone))
    && (forall r :: r in roles && r != everyone ==> 1 <= roles[r].position <= |list| && list[roles[r].position - 1] == r)
    && (forall i :: 0 <= i < |list| ==> list[i] in roles && list[i] != everyone && roles[list[i]].position == i + 1)
  }

  // UPDATE roles SET position = position + delta WHERE is_default = 0 AND
  // position BETWEEN lo AND hi
  function Shift(roles: RoleTable, lo: int, hi: int, delta: int): RoleTable
  {
    map r | r in roles ::
      if !roles[r].isDefault && lo <= roles[r].position <= hi then roles[r].(position := roles[r].position + delta) else roles[r]
  }

  // The same without an upper bound.
  function ShiftFrom(roles: RoleTable, lo: int, delta: int): RoleTable
  {
    map r | r in roles ::
      if !roles[r].isDefault && lo <= roles[r].position then roles[r].(position := roles[r].position + delta) else roles[r]
  }

  function Clamp(x: int, lo: int, hi: int): int
  {
    var y := if x < lo then lo else x;
    if y > hi then hi else y
  }

  // The three list operations positions stand for.
  function Without(list: seq<RoleId>, i: nat): seq<RoleId>
    requires i < |list|
  {
    list[..i] + list[i + 1..]
  }

  function InsertAt(list: seq<RoleId>, i: nat, id: RoleId): seq<RoleId>
    requires i <= |list|
  {
    list[..i] + [id] + list[i..]
  }

  function Move(list: seq<RoleId>, i: nat, j: nat): seq<RoleId>
    requires i < |list| && j < |list|
  {
    InsertAt(Without(list, i), j, list[i])
  }

  // A new role lands at position 1, every other one a place higher.
  function Created(roles: RoleTable, id: RoleId, role: Role): RoleTable
  {
    ShiftFrom(roles, 1, 1)[id := role.(position := 1, isDefault := false)]
  }

  // Close the gap at the old place, open one at the new, then write the row.
  function Updated(roles: RoleTable, id: RoleId, role: Role, position: int): RoleTable
    requires id in roles
  {
    var from := roles[id].position;
    var shifted := if position > from then Shift(roles, from + 1, position, -1) else Shift(roles, position, from - 1, 1);
    shifted[id := role.(position := position, isDefault := roles[id].isDefault)]
  }

  function Deleted(roles: RoleTable, id: RoleId): RoleTable
    requires id in roles
  {
    ShiftFrom(roles - {id}, roles[id].position + 1, -1)
  }

  lemma {:induction false} ListElements(list: seq<RoleId>, s: set<RoleId>)
    requires forall i, j :: 0 <= i < j < |list| ==> list[i] != list[j]
    requires forall r :: r in list <==> r in s
    ensures |list| == |s|
  {
    if list == [] {
      assert s == {};
    } else {
      assert list[0] in list;
      assert forall r :: r in list[1..] ==> r in list;
      ListElements(list[1..], s - {list[0]});
    }
  }

  // The highest position is the number of non-default roles, and every
  // place from 1 to it is taken once.
  lemma RankedCount(roles: RoleTable, everyone: RoleId, list: seq<RoleId>)
    requires Ranked(roles, everyone, list)
    ensures |list| == |roles| - 1
    ensures forall r :: r in roles ==> 0 <= roles[r].position <= |list|
    ensures forall r, q :: r in roles && q in roles && roles[r].position == roles[q].position ==> r == q
  {
    forall r ensures r in list <==> r in roles.Keys - {everyone} {
      if r in roles.Keys - {everyone} {
        assert list[roles[r].position - 1] == r;
      }
    }
    ListElements(list, roles.Keys - {everyone});
    assert |roles.Keys - {everyone}| == |roles| - 1;
  }

  // Only one list ranks a table.
  lemma RankingUnique(roles: RoleTable, everyone: RoleId, l1: seq<RoleId>, l2: seq<RoleId>)
    requires Ranked(roles, everyone, l1) && Ranked(roles, everyone, l2)
    ensures l1 == l2
  {
    RankedCount(roles, everyone, l1);
    RankedCount(roles, everyone, l2);
    forall i | 0 <= i < |l1| ensures l1[i] == l2[i] {
      assert roles[l1[i]].position == roles[l2[i]].position;
    }
  }

  // create_role inserts at the bottom of the list.
  lemma CreateInserts(roles: RoleTable, everyone: RoleId, list: seq<RoleId>, id: RoleId, role: Role)
    requires Ranked(roles, everyone, list)
    requires id !in roles
    ensures Ranked(Created(roles, id, role), everyone, InsertAt(list, 0, id))
  {
    RankedCount(roles, everyone, list);
    assert InsertAt(list, 0, id) == [id] + list;
  }

  // Where index `k` goes when the element at `i` moves to `j`.
  function Moved(i: int, j: int, k: int): int
  {
    if k == i then j else if i < k <= j then k - 1 else if j <= k < i then k + 1 else k
  }

  lemma MoveIndex(list: seq<RoleId>, i: nat, j: nat)
    requires i < |list| && j < |list|
    ensures |Move(list, i, j)| == |list|
    ensures forall k :: 0 <= k < |list| ==> Move(list, i, j)[Moved(i, j, k)] == list[k]
  {
  }

  lemma UpdatedPlaces(roles: RoleTable, everyone: RoleId, list: seq<RoleId>, id: RoleId, role: Role, position: int)
    requires Ranked(roles, everyone, list)
    requires id in roles && id != everyone
    ensures Updated(roles, id, role, position).Keys == roles.Keys
    ensures forall r :: r in roles ==>
      && Updated(roles, id, role, position)[r].isDefault == roles[r].isDefault
      && Updated(roles, id, role, position)[r].position ==
         if r == everyone then 0 else Moved(roles[id].position - 1, position - 1, roles[r].position - 1) + 1
  {
    RankedCount(roles, everyone, list);
  }

  lemma MovedRanking(roles: RoleTable, roles': RoleTable, everyone: RoleId, list: seq<RoleId>, moved: seq<RoleId>, i: nat, j: nat)
    requires Ranked(roles, everyone, list)
    requires i < |list| && j < |list|
    requires roles'.Keys == roles.Keys
    requires forall r :: r in roles ==> roles'[r].isDefault == roles[r].isDefault
    requires forall r :: r in roles ==> roles'[r].position == if r == everyone then 0 else Moved(i, j, roles[r].position - 1) + 1
    requires |moved| == |list|
    requires forall k :: 0 <= k < |list| ==> moved[Moved(i, j, k)] == list[k]
    ensures Ranked(roles', everyone, moved)
  {
    forall k | 0 <= k < |moved|
      ensures moved[k] in roles' && moved[k] != everyone && roles'[moved[k]].position == k + 1
    {
      var from := Moved(j, i, k);
      assert Moved(i, j, from) == k;
      assert moved[k] == list[from];
    }
    forall r | r in roles' && r != everyone
      ensures 1 <= roles'[r].position <= |moved| && moved[roles'[r].position - 1] == r
    {
      assert list[roles[r].position - 1] == r;
    }
  }

  // update_role moves the role to the place asked for.
  lemma UpdateMoves(roles: RoleTable, everyone: RoleId, list: seq<RoleId>, id: RoleId, role: Role, position: int)
    requires Ranked(roles, everyone, list)
    requires id in roles && id != everyone
    requires 1 <= position <= |list|
    ensures Ranked(Updated(roles, id, role, position), everyone, Move(list, roles[id].position - 1, position - 1))
  {
    var i, j := roles[id].position - 1, position - 1;
    MoveIndex(list, i, j);
    UpdatedPlaces(roles, everyone, list, id, role, position);
    MovedRanking(roles, Updated(roles, id, role, position), everyone, list, Move(list, i, j), i, j);
  }

  // delete_role removes it and closes the gap.
  lemma DeleteRemoves(roles: RoleTable, everyone: RoleId, list: seq<RoleId>, id: RoleId)
    requires Ranked(roles, everyone, list)
    requires id in roles && id != everyone
    ensures Ranked(Deleted(roles, id), everyone, Without(list, roles[id].position - 1))
  {
    RankedCount(roles, everyone, list);
    var i := roles[id].position - 1;
    var list', roles' := Without(list, i), Deleted(roles, id);
    forall r | r in roles' && r != everyone
      ensures 1 <= roles'[r].position <= |list'| && list'[roles'[r].position - 1] == r
    {
      assert roles[r].position != roles[id].position;
    }
    forall k | 0 <= k < |list'|
      ensures list'[k] in roles' && list'[k] != everyone && roles'[list'[k]].position == k + 1
    {
      assert list'[k] == list[if k < i then k else k + 1];
    }
  }

  // SELECT COALESCE(MAX(position), 0) FROM roles
  method MaxPosition(roles: RoleTable) returns (m: int)
    ensures m >= 0 && (m == 0 || exists r :: r in roles && roles[r].position == m)
    ensures forall r :: r in roles ==> roles[r].position <= m
    ensures forall everyone, list :: Ranked(roles, everyone, list) ==> m == |list|
  {
    m := 0;
    var todo := roles.Keys;
    while todo != {}
      invariant todo <= roles.Keys
      invariant m >= 0 && (m == 0 || exists r :: r in roles && roles[r].position == m)
      invariant forall r :: r in roles && r !in todo ==> roles[r].position <= m
    {
      var r :| r in todo;
      if roles[r].position > m { m := roles[r].position; }
      todo := todo - {r};
    }
    forall everyone, list | Ranked(roles, everyone, list) ensures m == |list| {
      RankedCount(roles, everyone, list);
      if list != [] {
        assert roles[list[|list| - 1]].position == |list|;
      }
    }
  }
}
