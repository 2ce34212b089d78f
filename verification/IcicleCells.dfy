/** Where the cells of a layout start, and what its stand-ins stand for. */
module IcicleCells {
  import opened StackTree
  import opened Icicle
  import opened IcicleShares
  import opened IcicleCursor

  // ---- Cells without gaps ----

  /** The cell of the frame a cell hangs under. */
  predicate Carries(p: Placed, c: Placed) {
    && p.folded == 0 && p.depth + 1 == c.depth
    && (if c.folded == 0 then |c.path| > 0 && p.path == c.path[..|c.path| - 1] else p.path == c.path)
  }

  /** The cell starts with the one it hangs under, or where another frame's under that one ends. */
  ghost predicate Abuts(cells: seq<Placed>, c: Placed) {
    exists p :: p in cells && Carries(p, c) &&
      (c.x == p.x || exists d :: d in cells && d.folded == 0 && Carries(p, d) && d.x + d.width == c.x)
  }

  lemma AbutsMore(a: seq<Placed>, b: seq<Placed>, c: Placed)
    requires Abuts(a, c) && forall d :: d in a ==> d in b
    ensures Abuts(b, c)
  {
    var p :| p in a && Carries(p, c) &&
      (c.x == p.x || exists d :: d in a && d.folded == 0 && Carries(p, d) && d.x + d.width == c.x);
    assert p in b;
    if c.x != p.x {
      var d :| d in a && d.folded == 0 && Carries(p, d) && d.x + d.width == c.x;
      assert d in b;
    }
  }

  /** Columns taken by the first k children end with the last of them that has any. */
  lemma {:induction false} LastTaken(n: Node, width: nat, path: seq<nat>, view: View, k: nat) returns (j: nat)
    requires k <= |n.children| && Consumed(n, width, path, view, k) > 0
    ensures j < k && Width(n, width, path, view, j) > 0
    ensures Consumed(n, width, path, view, j) + Width(n, width, path, view, j) == Consumed(n, width, path, view, k)
  {
    j := k - 1;
    assert Consumed(n, width, path, view, k) == Consumed(n, width, path, view, j) + Width(n, width, path, view, j);
    if Width(n, width, path, view, j) == 0 { j := LastTaken(n, width, path, view, j); }
  }

  /** The cell of child i. */
  function KidCell(n: Node, x: nat, width: nat, depth: nat, path: seq<nat>, view: View, i: nat): Placed
    requires i < |n.children|
  {
    Self(n.children[i], x + Consumed(n, width, path, view, i), Width(n, width, path, view, i), depth + 1, path + [i])
  }

  /** A drawn child's cells are all among the parent's. */
  lemma KidCells(n: Node, x: nat, width: nat, depth: nat, path: seq<nat>, view: View, i: nat)
    requires Expanded(n, width, depth, view) && i < |n.children| && Width(n, width, path, view, i) > 0
    ensures forall c :: c in Place(n.children[i], x + Consumed(n, width, path, view, i),
                                   Width(n, width, path, view, i), depth + 1, path + [i], view).cells ==>
              c in Place(n, x, width, depth, path, view).cells
    ensures KidCell(n, x, width, depth, path, view, i) in Place(n, x, width, depth, path, view).cells
  {
    var w := Width(n, width, path, view, i);
    var sub := Place(n.children[i], x + Consumed(n, width, path, view, i), w, depth + 1, path + [i], view).cells;
    SelfFirst(n.children[i], x + Consumed(n, width, path, view, i), w, depth + 1, path + [i], view);
    InPlace(n, x, width, depth, path, view);
    hide Place, PlaceKids, Width, Consumed, Self;
    forall c | c in sub ensures c in Place(n, x, width, depth, path, view).cells {
      KidsContain(n, x, width, depth, path, view, i, |n.children|, c);
    }
  }

  lemma SelfFirst(n: Node, x: nat, width: nat, depth: nat, path: seq<nat>, view: View)
    ensures Self(n, x, width, depth, path) in Place(n, x, width, depth, path, view).cells
  {
    hide PlaceKids, Tail, Self;
  }

  lemma InPlace(n: Node, x: nat, width: nat, depth: nat, path: seq<nat>, view: View)
    requires Expanded(n, width, depth, view)
    ensures var all := Place(n, x, width, depth, path, view).cells;
            var kids := PlaceKids(n, x, width, depth, path, view, |n.children|).cells;
            var tail := Tail(n, x, width, depth, path, view).cells;
            && (forall c :: c in all <==> c == Self(n, x, width, depth, path) || c in kids || c in tail)
  {
    hide PlaceKids, Tail, Self;
  }

  /** Whatever starts where the first k children end abuts. */
  lemma StartsAfter(n: Node, x: nat, width: nat, depth: nat, path: seq<nat>, view: View, k: nat, c: Placed)
    requires Expanded(n, width, depth, view) && k <= |n.children|
    requires Carries(Self(n, x, width, depth, path), c) && c.x == x + Consumed(n, width, path, view, k)
    ensures Abuts(Place(n, x, width, depth, path, view).cells, c)
  {
    var p := Self(n, x, width, depth, path);
    SelfFirst(n, x, width, depth, path, view);
    if Consumed(n, width, path, view, k) > 0 {
      var j := LastTaken(n, width, path, view, k);
      KidCells(n, x, width, depth, path, view, j);
      var d := KidCell(n, x, width, depth, path, view, j);
      hide Place, Width, Consumed;
      assert d.path[..|d.path| - 1] == path;
      assert Carries(p, d);
    }
  }

  /** Where a cell comes from: the frame itself, one of its children, or its stand-in. */
  lemma Origin(n: Node, x: nat, width: nat, depth: nat, path: seq<nat>, view: View, c: Placed) returns (i: nat)
    requires |path| == depth && c in Place(n, x, width, depth, path, view).cells
    requires c != Self(n, x, width, depth, path)
    ensures Expanded(n, width, depth, view)
    ensures || c in Tail(n, x, width, depth, path, view).cells
            || (i < |n.children| && Width(n, width, path, view, i) > 0
                && c in Place(n.children[i], x + Consumed(n, width, path, view, i), Width(n, width, path, view, i),
                              depth + 1, path + [i], view).cells)
  {
    i := 0;
    if Expanded(n, width, depth, view) {
      InPlace(n, x, width, depth, path, view);
      hide Place, PlaceKids, Width, Consumed, Tail, Self, Expanded;
      if c in PlaceKids(n, x, width, depth, path, view, |n.children|).cells {
        KidSource(n, x, width, depth, path, view, |n.children|, c);
        i := c.path[|path|];
      }
    }
  }

  lemma {:induction false} PlaceAbuts(n: Node, x: nat, width: nat, depth: nat, path: seq<nat>, view: View, c: Placed)
    requires |path| == depth && c in Place(n, x, width, depth, path, view).cells
    ensures c == Self(n, x, width, depth, path) || Abuts(Place(n, x, width, depth, path, view).cells, c)
    decreases n
  {
    hide Place, Width, Consumed, Abuts, Tail, Expanded;
    if c != Self(n, x, width, depth, path) {
      var i := Origin(n, x, width, depth, path, view, c);
      if c in Tail(n, x, width, depth, path, view).cells {
        TailStarts(n, x, width, depth, path, view, c);
        StartsAfter(n, x, width, depth, path, view, |n.children|, c);
      } else {
        var w := Width(n, width, path, view, i);
        PlaceAbuts(n.children[i], x + Consumed(n, width, path, view, i), w, depth + 1, path + [i], view, c);
        KidCells(n, x, width, depth, path, view, i);
        if c == KidCell(n, x, width, depth, path, view, i) {
          assert c.path[..|c.path| - 1] == path;
          StartsAfter(n, x, width, depth, path, view, i, c);
        } else {
          AbutsMore(Place(n.children[i], x + Consumed(n, width, path, view, i), w, depth + 1, path + [i], view).cells,
                    Place(n, x, width, depth, path, view).cells, c);
        }
      }
    }
  }

  lemma TailStarts(n: Node, x: nat, width: nat, depth: nat, path: seq<nat>, view: View, c: Placed)
    requires c in Tail(n, x, width, depth, path, view).cells
    ensures Carries(Self(n, x, width, depth, path), c) && c.x == x + Consumed(n, width, path, view, |n.children|)
    ensures c.folded == NarrowFrames(n, width, path, view, |n.children|) > 0
    ensures c.samples == Narrow(n, width, path, view, |n.children|) && c.path == path
  {
    hide Narrow, NarrowFrames, Consumed;
  }

  /** On every tree the cells under a frame start at its left edge and leave no gap between them. */
  lemma LayoutAbuts(root: Node, width: nat, limit: nat, cursor: seq<nat>, c: Placed)
    requires c in LayoutOf(root, width, limit, cursor).cells
    ensures c == Self(root, 0, width, 0, []) || Abuts(LayoutOf(root, width, limit, cursor).cells, c)
  {
    PlaceAbuts(root, 0, width, 0, [], View(limit, cursor), c);
  }

  /** A layout is empty exactly without columns, rows or samples; else its first cell is the root across the width. */
  lemma LayoutRoot(root: Node, width: nat, limit: nat, cursor: seq<nat>)
    ensures var cells := LayoutOf(root, width, limit, cursor).cells;
            && (cells == [] <==> width == 0 || limit == 0 || root.samples == 0)
            && (cells != [] ==> cells[0] == Placed(0, 0, width, Frame(root.name), root.samples, 0, []))
  {
    hide PlaceKids, Tail;
  }

  // ---- What a stand-in stands for ----

  /** The frame at that path has a cell of its own. */
  ghost predicate Seen(cells: seq<Placed>, p: seq<nat>) { exists c :: c in cells && c.folded == 0 && c.path == p }

  /** How many of the first k children of the frame at a path have no cell. */
  ghost function Unseen(cells: seq<Placed>, path: seq<nat>, k: nat): nat {
    if k == 0 then 0 else Unseen(cells, path, k - 1) + if Seen(cells, path + [k - 1]) then 0 else 1
  }

  /** And their samples. */
  ghost function UnseenSamples(n: Node, cells: seq<Placed>, path: seq<nat>, k: nat): nat
    requires k <= |n.children|
  {
    if k == 0 then 0
    else UnseenSamples(n, cells, path, k - 1) + if Seen(cells, path + [k - 1]) then 0 else n.children[k - 1].samples
  }

  /** A stand-in counts the children of its frame without a cell, and their samples. */
  ghost predicate StandsFor(root: Node, cells: seq<Placed>, c: Placed) {
    && Reaches(root, c.path)
    && var n := NodeAt(root, c.path);
       && c.folded == Unseen(cells, c.path, |n.children|)
       && c.samples == UnseenSamples(n, cells, c.path, |n.children|)
  }

  /** Below a child, the frames seen are those seen in the child's own cells. */
  lemma SeenBelow(n: Node, x: nat, width: nat, depth: nat, path: seq<nat>, view: View, i: nat, p: seq<nat>)
    requires Expanded(n, width, depth, view) && |path| == depth && i < |n.children| && path + [i] <= p
    ensures var w := Width(n, width, path, view, i);
            Seen(Place(n, x, width, depth, path, view).cells, p) <==>
            w > 0 &&
            Seen(Place(n.children[i], x + Consumed(n, width, path, view, i), w, depth + 1, path + [i], view).cells, p)
  {
    hide Place, Width, Consumed, Expanded;
    var w := Width(n, width, path, view, i);
    var sub := Place(n.children[i], x + Consumed(n, width, path, view, i), w, depth + 1, path + [i], view).cells;
    forall c: Placed | c.folded == 0 && c.path == p
      ensures c in Place(n, x, width, depth, path, view).cells <==> w > 0 && c in sub
    {
      CellBelow(n, x, width, depth, path, view, i, c);
    }
  }

  /** A child is seen exactly if it has a column. */
  lemma KidSeen(n: Node, x: nat, width: nat, depth: nat, path: seq<nat>, view: View, i: nat)
    requires Expanded(n, width, depth, view) && |path| == depth && i < |n.children|
    ensures Seen(Place(n, x, width, depth, path, view).cells, path + [i]) <==> Width(n, width, path, view, i) > 0
  {
    hide Place, Width, Consumed, Expanded;
    SeenBelow(n, x, width, depth, path, view, i, path + [i]);
    SelfFirst(n.children[i], x + Consumed(n, width, path, view, i), Width(n, width, path, view, i), depth + 1,
              path + [i], view);
  }

  lemma {:induction false} NarrowUnseen(n: Node, x: nat, width: nat, depth: nat, path: seq<nat>, view: View, k: nat)
    requires Expanded(n, width, depth, view) && |path| == depth && k <= |n.children|
    ensures var cells := Place(n, x, width, depth, path, view).cells;
            && NarrowFrames(n, width, path, view, k) == Unseen(cells, path, k)
            && Narrow(n, width, path, view, k) == UnseenSamples(n, cells, path, k)
  {
    hide Place, Width, Seen, Expanded;
    if k == 0 {
    } else {
      NarrowUnseen(n, x, width, depth, path, view, k - 1);
      KidSeen(n, x, width, depth, path, view, k - 1);
    }
  }

  lemma {:induction false} UnseenAgree(n: Node, a: seq<Placed>, b: seq<Placed>, path: seq<nat>, k: nat)
    requires k <= |n.children| && forall i: nat :: i < k ==> (Seen(a, path + [i]) <==> Seen(b, path + [i]))
    ensures Unseen(a, path, k) == Unseen(b, path, k) && UnseenSamples(n, a, path, k) == UnseenSamples(n, b, path, k)
  {
    hide Seen;
    if k == 0 {
    } else {
      UnseenAgree(n, a, b, path, k - 1);
    }
  }

  lemma {:induction false} PlaceStandsFor(root: Node, n: Node, x: nat, width: nat, depth: nat, path: seq<nat>,
                                          view: View, c: Placed)
    requires Reaches(root, path) && NodeAt(root, path) == n && |path| == depth
    requires c in Place(n, x, width, depth, path, view).cells && c.folded > 0
    ensures StandsFor(root, Place(n, x, width, depth, path, view).cells, c)
    decreases n
  {
    hide Place, Width, Consumed, Tail, Seen, Expanded, NodeAt, Reaches;
    var all := Place(n, x, width, depth, path, view).cells;
    var i := Origin(n, x, width, depth, path, view, c);
    if c in Tail(n, x, width, depth, path, view).cells {
      TailStarts(n, x, width, depth, path, view, c);
      NarrowUnseen(n, x, width, depth, path, view, |n.children|);
    } else {
      var w := Width(n, width, path, view, i);
      var sub := Place(n.children[i], x + Consumed(n, width, path, view, i), w, depth + 1, path + [i], view).cells;
      ReachesSnoc(root, path, i);
      PlaceStandsFor(root, n.children[i], x + Consumed(n, width, path, view, i), w, depth + 1, path + [i], view, c);
      PlaceBelow(n.children[i], x + Consumed(n, width, path, view, i), w, depth + 1, path + [i], view);
      SameBelow(n, x, width, depth, path, view, i, NodeAt(root, c.path), c.path);
    }
  }

  /** Counted in a child's cells or in all of them, the children unseen below the child are the same. */
  lemma SameBelow(n: Node, x: nat, width: nat, depth: nat, path: seq<nat>, view: View, i: nat, m: Node, at: seq<nat>)
    requires Expanded(n, width, depth, view) && |path| == depth && i < |n.children|
    requires Width(n, width, path, view, i) > 0 && path + [i] <= at
    ensures var all := Place(n, x, width, depth, path, view).cells;
            var sub := Place(n.children[i], x + Consumed(n, width, path, view, i), Width(n, width, path, view, i),
                             depth + 1, path + [i], view).cells;
            && Unseen(all, at, |m.children|) == Unseen(sub, at, |m.children|)
            && UnseenSamples(m, all, at, |m.children|) == UnseenSamples(m, sub, at, |m.children|)
  {
    hide Place, Width, Consumed, Seen, Expanded;
    var all := Place(n, x, width, depth, path, view).cells;
    var sub := Place(n.children[i], x + Consumed(n, width, path, view, i), Width(n, width, path, view, i),
                     depth + 1, path + [i], view).cells;
    forall j: nat | j < |m.children| ensures Seen(all, at + [j]) <==> Seen(sub, at + [j]) {
      assert path + [i] <= at + [j];
      SeenBelow(n, x, width, depth, path, view, i, at + [j]);
    }
    UnseenAgree(m, all, sub, at, |m.children|);
  }

  /** On every tree a stand-in stands for exactly the children of its frame that have no cell, and their samples. */
  lemma LayoutStandsFor(root: Node, width: nat, limit: nat, cursor: seq<nat>, c: Placed)
    requires c in LayoutOf(root, width, limit, cursor).cells && c.folded > 0
    ensures StandsFor(root, LayoutOf(root, width, limit, cursor).cells, c)
  {
    PlaceStandsFor(root, root, 0, width, 0, [], View(limit, cursor), c);
  }
}
