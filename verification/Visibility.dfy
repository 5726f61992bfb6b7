// The channels a member can view, in display order, with the categories that
// head something they can view.
module Visibility {
  import opened Options
  import opened ChannelOrder
  import opened Permissions
  import opened CommunityDatabase
  import opened ChannelEffects

  // Does the block `order` starts in hold a viewable channel?
  predicate BlockViewable(order: seq<ChannelId>, kinds: Kinds, view: set<ChannelId>)
  {
    order != [] && !IsCategory(kinds, order[0]) && (order[0] in view || BlockViewable(order[1..], kinds, view))
  }

  predicate Listed(order: seq<ChannelId>, kinds: Kinds, view: set<ChannelId>)
    requires order != []
  {
    order[0] in view || (IsCategory(kinds, order[0]) && BlockViewable(order[1..], kinds, view))
  }

  // The reference: the rows in order, those that are viewable and the
  // categories with a viewable channel in their block.
  function Shown(order: seq<ChannelId>, kinds: Kinds, view: set<ChannelId>): seq<ChannelId>
  {
    if order == [] then []
    else (if Listed(order, kinds, view) then [order[0]] else []) + Shown(order[1..], kinds, view)
  }

  // A hidden category read earlier, if this block shows something.
  function Pending(pending: Option<ChannelId>, order: seq<ChannelId>, kinds: Kinds, view: set<ChannelId>): seq<ChannelId>
  {
    if pending.Some? && BlockViewable(order, kinds, view) then [pending.value] else []
  }

  ghost function Viewable(t: Tables, passes: Passes, uid: Uid): set<ChannelId>
  {
    set c | c in t.kinds && VIEW_CHANNEL in ChannelPerms(t, passes, uid, c)
  }

  // visible_channels: one pass, holding a hidden category back until a channel
  // of its block turns out viewable.
  method VisibleChannels(db: CommunityDb, uid: Uid) returns (out: seq<ChannelId>)
    requires db.Valid()
    modifies db`permCache, db`channelPermCache, db`overwritesCache, db`parentOf, db`syncedOf, db`categorySyncOf, db`layoutValid
    ensures db.Coherent()
    ensures out == Shown(db.db.order, db.db.kinds, Viewable(db.db, db.voicePasses, uid))
  {
    out := [];
    var pending: Option<ChannelId> := None;
    var order := db.db.order;
    ShowAround(db.db, db.voicePasses, uid, order);
    for i := 0 to |order|
      invariant db.Coherent()
      invariant LeftToShow(db.db, db.voicePasses, uid, out, pending, order[i..]) == Shown(order, db.db.kinds, Viewable(db.db, db.voicePasses, uid))
    {
      assert order[i..][0] == order[i] && order[i..][1..] == order[i + 1..];
      out, pending := VisitRow(db, uid, out, pending, order[i..]);
    }
    NothingLeft(db.db, db.voicePasses, uid, out, pending, order[|order|..]);
  }

  // What is listed, held back and still to come.
  ghost function LeftToShow(t: Tables, passes: Passes, uid: Uid, out: seq<ChannelId>, pending: Option<ChannelId>, order: seq<ChannelId>): seq<ChannelId>
  {
    out + Pending(pending, order, t.kinds, Viewable(t, passes, uid)) + Shown(order, t.kinds, Viewable(t, passes, uid))
  }

  lemma ShowAround(t: Tables, passes: Passes, uid: Uid, order: seq<ChannelId>)
    ensures LeftToShow(t, passes, uid, [], None, order[0..]) == Shown(order, t.kinds, Viewable(t, passes, uid))
  {
    assert order[0..] == order;
    assert [] + [] + Shown(order, t.kinds, Viewable(t, passes, uid)) == Shown(order, t.kinds, Viewable(t, passes, uid));
  }

  lemma NothingLeft(t: Tables, passes: Passes, uid: Uid, out: seq<ChannelId>, pending: Option<ChannelId>, order: seq<ChannelId>)
    requires order == []
    ensures LeftToShow(t, passes, uid, out, pending, order) == out
  {
    assert out + [] + [] == out;
  }

  method VisitRow(db: CommunityDb, uid: Uid, out: seq<ChannelId>, pending: Option<ChannelId>, order: seq<ChannelId>)
      returns (out': seq<ChannelId>, pending': Option<ChannelId>)
    requires Inv(db.db) && db.Coherent() && order != [] && order[0] in db.db.kinds
    modifies db`permCache, db`channelPermCache, db`overwritesCache, db`parentOf, db`syncedOf, db`categorySyncOf, db`layoutValid
    ensures db.Coherent()
    ensures LeftToShow(db.db, db.voicePasses, uid, out', pending', order[1..]) == LeftToShow(db.db, db.voicePasses, uid, out, pending, order)
  {
    var p := db.ChannelPermissions(uid, order[0]);
    out', pending' := Step(out, pending, order, db.db.kinds, Viewable(db.db, db.voicePasses, uid), VIEW_CHANNEL in p);
  }

  // The loop body, for the row `order` starts with.
  method Step(out: seq<ChannelId>, pending: Option<ChannelId>, order: seq<ChannelId>, kinds: Kinds, ghost view: set<ChannelId>, viewable: bool)
      returns (out': seq<ChannelId>, pending': Option<ChannelId>)
    requires order != [] && viewable == (order[0] in view)
    ensures out' + Pending(pending', order[1..], kinds, view) + Shown(order[1..], kinds, view) ==
            out + Pending(pending, order, kinds, view) + Shown(order, kinds, view)
  {
    out', pending' := out, pending;
    if IsCategory(kinds, order[0]) {
      pending' := None;
      if viewable { out' := out' + [order[0]]; } else { pending' := Some(order[0]); }
    } else if viewable {
      if pending.Some? {
        out' := out' + [pending.value];
        pending' := None;
      }
      out' := out' + [order[0]];
    }
  }

  // ---- what is shown ----

  lemma {:induction false} ShownSubset(order: seq<ChannelId>, kinds: Kinds, view: set<ChannelId>)
    ensures forall c :: c in Shown(order, kinds, view) ==> c in order
    ensures forall c :: c in order && c in view ==> c in Shown(order, kinds, view)
    ensures forall c :: c in Shown(order, kinds, view) && !IsCategory(kinds, c) ==> c in view
  {
    if order != [] {
      ShownSubset(order[1..], kinds, view);
    }
  }

  // A block with something viewable is one whose category is some viewable
  // channel's parent.
  lemma {:induction false} BlockViewableIsParent(order: seq<ChannelId>, kinds: Kinds, view: set<ChannelId>, above: ChannelId)
    requires Distinct(order) && above !in order && NO_CATEGORY !in order && above != NO_CATEGORY
    ensures BlockViewable(order, kinds, view) <==>
            exists x :: x in order && x in view && !IsCategory(kinds, x) && ParentIn(order, kinds, x, above) == above
  {
    if order != [] {
      var rest := order[1..];
      if IsCategory(kinds, order[0]) {
        forall x | x in order && !IsCategory(kinds, x) ensures ParentIn(order, kinds, x, above) != above {
          ParentIsCategory(rest, kinds, x, order[0]);
          assert x in rest;
        }
      } else {
        BlockViewableIsParent(rest, kinds, view, above);
        forall x | x in rest ensures x != order[0] && ParentIn(order, kinds, x, above) == ParentIn(rest, kinds, x, above) {}
        if order[0] in view {
          assert ParentIn(order, kinds, order[0], above) == above;
        }
      }
    }
  }

  // A category is shown exactly when it or a channel under it is viewable.
  lemma {:induction false} CategoryShown(order: seq<ChannelId>, kinds: Kinds, view: set<ChannelId>, c: ChannelId, above: ChannelId)
    requires Distinct(order) && NO_CATEGORY !in order && above !in order
    requires c in order && IsCategory(kinds, c)
    ensures c in Shown(order, kinds, view) <==>
            c in view || exists x :: x in order && x in view && !IsCategory(kinds, x) && ParentIn(order, kinds, x, above) == c
  {
    var rest := order[1..];
    assert c != NO_CATEGORY;
    if order[0] == c {
      BlockViewableIsParent(rest, kinds, view, c);
      ShownSubset(rest, kinds, view);
      assert c !in rest;
      forall x | x in rest ensures ParentIn(order, kinds, x, above) == ParentIn(rest, kinds, x, c) {}
    } else {
      var above' := if IsCategory(kinds, order[0]) then order[0] else above;
      CategoryShown(rest, kinds, view, c, above');
      forall x | x in rest ensures ParentIn(order, kinds, x, above) == ParentIn(rest, kinds, x, above') {}
      assert ParentIn(order, kinds, order[0], above) != c;
    }
  }

  lemma {:induction false} BeyondFirstBlock(order: seq<ChannelId>, kinds: Kinds, view: set<ChannelId>, c: ChannelId, a: ChannelId, b: ChannelId)
    requires !BlockViewable(order, kinds, view) && c in view && c in order
    ensures ParentIn(order, kinds, c, a) == ParentIn(order, kinds, c, b)
  {
    if order[0] != c && !IsCategory(kinds, order[0]) {
      BeyondFirstBlock(order[1..], kinds, view, c, a, b);
    }
  }

  // In the list shown, the nearest category above a channel is its own.
  lemma {:induction false} ShownParents(order: seq<ChannelId>, kinds: Kinds, view: set<ChannelId>, c: ChannelId, above: ChannelId)
    requires Distinct(order) && c in Shown(order, kinds, view) && !IsCategory(kinds, c)
    ensures ParentIn(Shown(order, kinds, view), kinds, c, above) == ParentIn(order, kinds, c, above)
  {
    ShownSubset(order, kinds, view);
    var rest := order[1..];
    ShownSubset(rest, kinds, view);
    if order[0] != c {
      assert c in Shown(rest, kinds, view);
      var above' := if IsCategory(kinds, order[0]) then order[0] else above;
      if Listed(order, kinds, view) {
        assert Shown(order, kinds, view)[1..] == Shown(rest, kinds, view);
        ShownParents(rest, kinds, view, c, above');
      } else {
        assert Shown(order, kinds, view) == Shown(rest, kinds, view);
        ShownParents(rest, kinds, view, c, above);
        if IsCategory(kinds, order[0]) {
          BeyondFirstBlock(rest, kinds, view, c, order[0], above);
        }
      }
    } else {
      assert Shown(order, kinds, view)[0] == c;
    }
  }

  // What a member is shown of a whole database.
  lemma VisibleFacts(t: Tables, passes: Passes, uid: Uid, c: ChannelId)
    requires Inv(t) && c in t.kinds
    ensures var view, shown := Viewable(t, passes, uid), Shown(t.order, t.kinds, Viewable(t, passes, uid));
            && (!IsCategory(t.kinds, c) ==> (c in shown <==> c in view))
            && (IsCategory(t.kinds, c) ==> (c in shown <==> c in view || exists x :: x in view && !IsCategory(t.kinds, x) && Parent(t, x) == c))
            && (c in shown && !IsCategory(t.kinds, c) ==> ParentIn(shown, t.kinds, c, NO_CATEGORY) == Parent(t, c))
  {
    var view := Viewable(t, passes, uid);
    ShownSubset(t.order, t.kinds, view);
    if IsCategory(t.kinds, c) {
      CategoryShown(t.order, t.kinds, view, c, NO_CATEGORY);
    } else if c in Shown(t.order, t.kinds, view) {
      ShownParents(t.order, t.kinds, view, c, NO_CATEGORY);
    }
  }

  lemma {:induction false} ShownDistinct(order: seq<ChannelId>, kinds: Kinds, view: set<ChannelId>)
    requires Distinct(order)
    ensures Distinct(Shown(order, kinds, view))
  {
    if order != [] {
      ShownSubset(order[1..], kinds, view);
      ShownDistinct(order[1..], kinds, view);
      assert order[0] !in order[1..];
    }
  }

  // A row that is not listed is before none and behind none.
  lemma NotBefore(rows: seq<ChannelId>, x: ChannelId, y: ChannelId)
    requires x !in rows || y !in rows
    ensures !Before(rows, x, y)
  {
  }

  // The rows are shown in display order, each once.
  lemma {:induction false} ShownInOrder(order: seq<ChannelId>, kinds: Kinds, view: set<ChannelId>, x: ChannelId, y: ChannelId)
    requires Distinct(order)
    ensures Distinct(Shown(order, kinds, view))
    ensures x in Shown(order, kinds, view) && y in Shown(order, kinds, view) ==>
              (Before(Shown(order, kinds, view), x, y) <==> Before(order, x, y))
  {
    ShownDistinct(order, kinds, view);
    if order != [] {
      var c, rest, shown := order[0], order[1..], Shown(order[1..], kinds, view);
      ShownInOrder(rest, kinds, view, x, y);
      ShownSubset(rest, kinds, view);
      BeforeCons(c, rest, x, y);
      BeforeCons(c, shown, x, y);
      assert order == [c] + rest && c !in rest;
      if x !in shown || y !in shown {
        if x == c || y == c { NotBefore(rest, x, y); }
        NotBefore(shown, x, y);
      }
    }
  }
}
