/**
  Reference-counted versions: a value is written in place only by its sole
  owner, and detached first otherwise, so holding a reference freezes it.
 */
module SharedVersions {
  import opened Sums

  ghost function Owners<Slot(!new)>(owner: map<Slot, nat>, at: nat): set<Slot> {
    set s | s in owner && owner[s] == at
  }

  lemma OwnersAdd<Slot(!new)>(owner: map<Slot, nat>, slot: Slot, to: nat, at: nat)
    requires slot !in owner
    ensures |Owners(owner[slot := to], at)| == |Owners(owner, at)| + if at == to then 1 else 0
  {
    if at == to {
      assert Owners(owner[slot := to], at) == Owners(owner, at) + {slot};
    } else {
      assert Owners(owner[slot := to], at) == Owners(owner, at);
    }
  }

  lemma OwnersRemove<Slot(!new)>(owner: map<Slot, nat>, slot: Slot, at: nat)
    requires slot in owner
    ensures |Owners(owner - {slot}, at)| == |Owners(owner, at)| - if at == owner[slot] then 1 else 0
  {
    if at == owner[slot] {
      assert Owners(owner, at) == Owners(owner - {slot}, at) + {slot};
    } else {
      assert Owners(owner, at) == Owners(owner - {slot}, at);
    }
  }

  lemma OwnersMove<Slot(!new)>(owner: map<Slot, nat>, slot: Slot, to: nat, at: nat)
    requires slot in owner
    ensures |Owners(owner[slot := to], at)| ==
            |Owners(owner, at)| - (if at == owner[slot] then 1 else 0) + if at == to then 1 else 0
  {
    OwnersRemove(owner, slot, at);
    OwnersAdd(owner - {slot}, slot, to, at);
    assert owner[slot := to] == (owner - {slot})[slot := to];
  }

  /** A count of one means this slot is the only way to the value. */
  lemma SoleOwner<Slot(!new)>(owner: map<Slot, nat>, slot: Slot)
    requires slot in owner && |Owners(owner, owner[slot])| == 1
    ensures Sole(owner, slot)
  {
    var all := Owners(owner, owner[slot]);
    assert |all - {slot}| == 0;
    assert all == (all - {slot}) + {slot};
    forall s | s in owner && s != slot ensures owner[s] != owner[slot] { assert s !in all; }
  }

  lemma SoleCount<Slot(!new)>(owner: map<Slot, nat>, slot: Slot)
    requires slot in owner
    ensures Sole(owner, slot) ==> |Owners(owner, owner[slot])| == 1
  {
    if Sole(owner, slot) { assert Owners(owner, owner[slot]) == {slot}; }
  }

  ghost predicate Exact<Slot(!new), T>(cells: map<nat, T>, strong: map<nat, nat>, owner: map<Slot, nat>) {
    && strong.Keys == cells.Keys
    && (forall s :: s in owner ==> owner[s] in cells)
    && (forall c :: c in cells ==> strong[c] == |Owners(owner, c)| > 0)
  }

  ghost function ViewOf<Slot(!new), T>(cells: map<nat, T>, owner: map<Slot, nat>): (m: map<Slot, T>)
    requires forall s :: s in owner ==> owner[s] in cells
    ensures m.Keys == owner.Keys
  {
    map s | s in owner :: cells[owner[s]]
  }

  ghost predicate Sole<Slot(!new)>(owner: map<Slot, nat>, slot: Slot)
    requires slot in owner
  {
    forall s :: s in owner && s != slot ==> owner[s] != owner[slot]
  }

  /** Moving one reference to a fresh copy keeps every view and makes the mover its sole owner. */
  lemma DetachKeeps<Slot(!new), T>(cells: map<nat, T>, strong: map<nat, nat>, owner: map<Slot, nat>,
                                   slot: Slot, at: nat)
    requires Exact(cells, strong, owner) && slot in owner && at !in cells && strong[owner[slot]] > 1
    ensures Exact(cells[at := cells[owner[slot]]], strong[owner[slot] := strong[owner[slot]] - 1][at := 1],
                  owner[slot := at])
    ensures ViewOf(cells[at := cells[owner[slot]]], owner[slot := at]) == ViewOf(cells, owner)
    ensures Sole(owner[slot := at], slot)
  {
    var from := owner[slot];
    forall c ensures |Owners(owner[slot := at], c)| ==
                     |Owners(owner, c)| - (if c == from then 1 else 0) + if c == at then 1 else 0 {
      OwnersMove(owner, slot, at, c);
    }
    assert Owners(owner, at) == {};
  }

  lemma WriteKeeps<Slot(!new), T>(cells: map<nat, T>, strong: map<nat, nat>, owner: map<Slot, nat>,
                                  slot: Slot, value: T)
    requires Exact(cells, strong, owner) && slot in owner && Sole(owner, slot)
    ensures Exact(cells[owner[slot] := value], strong, owner)
    ensures ViewOf(cells[owner[slot] := value], owner) == ViewOf(cells, owner)[slot := value]
  {
  }

  /** All references to values of one type; freed addresses are reused. */
  class Arcs<Slot(!new, ==), T> {
    var cells: map<nat, T>
    var strong: map<nat, nat>
    var owner: map<Slot, nat>

    ghost predicate Valid()
      reads this
    {
      Exact(cells, strong, owner)
    }

    /** What each slot sees. */
    ghost function View(): (m: map<Slot, T>)
      requires Valid()
      reads this
      ensures m.Keys == owner.Keys
    {
      ViewOf(cells, owner)
    }

    constructor ()
      ensures Valid() && owner == map[]
    {
      cells, strong, owner := map[], map[], map[];
    }

    /** Pointer equality. */
    predicate Same(a: Slot, b: Slot)
      requires a in owner && b in owner
      reads this
    {
      owner[a] == owner[b]
    }

    method Allocate() returns (at: nat)
      ensures at !in cells
    {
      ghost var bound := Above(cells.Keys);
      assert bound !in cells.Keys;
      at :| at !in cells;
    }

    method New(slot: Slot, value: T)
      requires Valid() && slot !in owner
      modifies this
      ensures Valid() && View() == old(View())[slot := value]
      ensures owner == old(owner)[slot := owner[slot]] && owner[slot] !in old(cells)
      ensures cells.Keys == old(cells.Keys) + {owner[slot]}
    {
      var at := Allocate();
      forall c ensures |Owners(owner[slot := at], c)| == |Owners(owner, c)| + if c == at then 1 else 0 {
        OwnersAdd(owner, slot, at, c);
      }
      assert Owners(owner, at) == {};
      cells, strong, owner := cells[at := value], strong[at := 1], owner[slot := at];
    }

    method Clone(from: Slot, to: Slot)
      requires Valid() && from in owner && to !in owner
      modifies this
      ensures Valid() && View() == old(View())[to := old(View())[from]]
      ensures owner == old(owner)[to := old(owner)[from]] && cells.Keys == old(cells.Keys)
    {
      var at := owner[from];
      forall c ensures |Owners(owner[to := at], c)| == |Owners(owner, c)| + if c == at then 1 else 0 {
        OwnersAdd(owner, to, at, c);
      }
      strong, owner := strong[at := strong[at] + 1], owner[to := at];
    }

    /** Gives up a reference; the last one frees the value. */
    method Drop(slot: Slot) returns (freed: bool)
      requires Valid() && slot in owner
      modifies this
      ensures Valid() && View() == old(View()) - {slot} && owner == old(owner) - {slot}
      ensures cells.Keys == if freed then old(cells.Keys) - {old(owner)[slot]} else old(cells.Keys)
      ensures freed <==> forall s :: s in old(owner) && s != slot ==> old(owner)[s] != old(owner)[slot]
    {
      var at := owner[slot];
      ghost var before := owner;
      forall c ensures |Owners(owner - {slot}, c)| == |Owners(owner, c)| - if c == at then 1 else 0 {
        OwnersRemove(owner, slot, c);
      }
      freed := strong[at] == 1;
      if freed {
        SoleOwner(owner, slot);
        cells, strong := cells - {at}, strong - {at};
      } else {
        strong := strong[at := strong[at] - 1];
        assert Owners(before - {slot}, at) != {};
        ghost var s :| s in Owners(before - {slot}, at);
      }
      owner := owner - {slot};
    }

    /** `Arc::make_mut`: afterwards the slot is the sole owner of its value; a shared value is copied first. */
    method Detach(slot: Slot) returns (copied: bool)
      requires Valid() && slot in owner
      modifies this
      ensures Valid() && View() == old(View()) && slot in owner
      ensures owner == old(owner)[slot := owner[slot]]
      ensures Sole(owner, slot)
      ensures copied ==> owner[slot] !in old(cells) && cells.Keys == old(cells.Keys) + {owner[slot]}
      ensures !copied ==> owner[slot] == old(owner[slot]) && cells.Keys == old(cells.Keys)
      ensures old(Sole(owner, slot)) ==> !copied
    {
      hide Owners, ViewOf, Sole;
      SoleCount(owner, slot);
      var from := owner[slot];
      copied := strong[from] > 1;
      if copied {
        var at := Allocate();
        DetachKeeps(cells, strong, owner, slot, at);
        cells, strong, owner := cells[at := cells[from]], strong[from := strong[from] - 1][at := 1], owner[slot := at];
      } else {
        SoleOwner(owner, slot);
        assert owner[slot := from] == owner;
      }
    }

    /** A write through the slot: nobody else sees it. */
    method Set(slot: Slot, value: T)
      requires Valid() && slot in owner
      modifies this
      ensures Valid() && View() == old(View())[slot := value]
      ensures slot in owner && owner == old(owner)[slot := owner[slot]]
      ensures Sole(owner, slot)
      ensures owner[slot] == old(owner[slot]) || owner[slot] !in old(cells)
      ensures cells.Keys == old(cells.Keys) + {owner[slot]}
      ensures old(Sole(owner, slot)) ==> owner[slot] == old(owner[slot])
    {
      hide Owners, ViewOf, Sole, Exact;
      var copied := Detach(slot);
      WriteKeeps(cells, strong, owner, slot, value);
      cells := cells[owner[slot] := value];
    }
  }
}
