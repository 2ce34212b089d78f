/** Icicle layout of a stack tree in a bounded number of columns. */
module Icicle {
  import opened Numbers
  import opened StackTree

  const U16: nat := 0x1_0000

  datatype Title = Frame(name: string) | StandIn

  /** A drawn cell; `folded` frames stand behind a stand-in. Paths are child indices from the root. */
  datatype Placed = Placed(depth: nat, x: nat, width: nat, title: Title, samples: nat, folded: nat, path: seq<nat>)

  datatype Layout = Layout(cells: seq<Placed>, hidden: nat)

  /** What stays the same all the way down a layout. */
  datatype View = View(limit: nat, cursor: seq<nat>)

  function Total(n: Node): nat { Max(n.samples, 1) }

  /** The exact proportional share, before the cast to 16 bits. */
  function Floor(samples: nat, width: nat, total: nat): nat
    requires total > 0
  {
    samples * width / total
  }

  /** The share as it is stored: the cast keeps 16 bits. */
  function Cast(samples: nat, width: nat, total: nat): nat
    requires total > 0
  {
    Floor(samples, width, total) % U16
  }

  /** Columns of child k once `consumed` columns are taken. */
  function ChildWidth(n: Node, width: nat, path: seq<nat>, view: View, k: nat, consumed: nat): nat
    requires k < |n.children|
  {
    var w := Min(Cast(n.children[k].samples, width, Total(n)), SaturatingSub(width, consumed));
    if w == 0 && path + [k] <= view.cursor && consumed < width then 1 else w
  }

  /** Columns taken by the first k children. */
  function Consumed(n: Node, width: nat, path: seq<nat>, view: View, k: nat): (c: nat)
    requires k <= |n.children|
    ensures c <= width
  {
    if k == 0 then 0
    else var c := Consumed(n, width, path, view, k - 1); c + ChildWidth(n, width, path, view, k - 1, c)
  }

  function Width(n: Node, width: nat, path: seq<nat>, view: View, k: nat): nat
    requires k < |n.children|
  {
    ChildWidth(n, width, path, view, k, Consumed(n, width, path, view, k))
  }

  /** Samples of the first k children that get no column. */
  function Narrow(n: Node, width: nat, path: seq<nat>, view: View, k: nat): nat
    requires k <= |n.children|
  {
    if k == 0 then 0
    else Narrow(n, width, path, view, k - 1) +
         if Width(n, width, path, view, k - 1) == 0 then n.children[k - 1].samples else 0
  }

  /** How many of the first k children get no column. */
  function NarrowFrames(n: Node, width: nat, path: seq<nat>, view: View, k: nat): nat
    requires k <= |n.children|
  {
    if k == 0 then 0
    else NarrowFrames(n, width, path, view, k - 1) + if Width(n, width, path, view, k - 1) == 0 then 1 else 0
  }

  /** The cell for the folded children, or their count when no column is left. */
  function Tail(n: Node, x: nat, width: nat, depth: nat, path: seq<nat>, view: View): Layout {
    var k := |n.children|;
    var frames, consumed := NarrowFrames(n, width, path, view, k), Consumed(n, width, path, view, k);
    if frames == 0 then Layout([], 0)
    else if consumed == width then Layout([], frames)
    else
      var narrow := Narrow(n, width, path, view, k);
      var w := Min(Max(Cast(narrow, width, Total(n)), 1), width - consumed);
      Layout([Placed(depth + 1, x + consumed, w, StandIn, narrow, frames, path)], 0)
  }

  predicate Expanded(n: Node, width: nat, depth: nat, view: View) {
    depth + 1 < view.limit && width > 0 && n.children != []
  }

  function Self(n: Node, x: nat, width: nat, depth: nat, path: seq<nat>): Placed {
    Placed(depth, x, width, Frame(n.name), n.samples, 0, path)
  }

  /** The layout of a subtree: the frame, its drawn children in order, the stand-in. */
  function Place(n: Node, x: nat, width: nat, depth: nat, path: seq<nat>, view: View): Layout
    decreases n, 1, 0
  {
    var self := Self(n, x, width, depth, path);
    if !Expanded(n, width, depth, view) then Layout([self], 0)
    else
      var kids := PlaceKids(n, x, width, depth, path, view, |n.children|);
      var tail := Tail(n, x, width, depth, path, view);
      Layout([self] + kids.cells + tail.cells, kids.hidden + tail.hidden)
  }

  function PlaceKids(n: Node, x: nat, width: nat, depth: nat, path: seq<nat>, view: View, k: nat): Layout
    requires k <= |n.children|
    decreases n, 0, k
  {
    if k == 0 then Layout([], 0)
    else
      var before := PlaceKids(n, x, width, depth, path, view, k - 1);
      var w := Width(n, width, path, view, k - 1);
      if w == 0 then before
      else
        var sub :=
          Place(n.children[k - 1], x + Consumed(n, width, path, view, k - 1), w, depth + 1, path + [k - 1], view);
        Layout(before.cells + sub.cells, before.hidden + sub.hidden)
  }

  function LayoutOf(root: Node, width: nat, limit: nat, cursor: seq<nat>): Layout {
    if width == 0 || limit == 0 || root.samples == 0 then Layout([], 0)
    else Place(root, 0, width, 0, [], View(limit, cursor))
  }

  function Append(out: Layout, l: Layout): Layout { Layout(out.cells + l.cells, out.hidden + l.hidden) }

  lemma AppendAssociative(a: Layout, b: Layout, c: Layout)
    ensures Append(Append(a, b), c) == Append(a, Append(b, c))
  {
  }

  /** Writes a subtree to `out`. */
  method PlaceInto(n: Node, x: nat, width: nat, depth: nat, path: seq<nat>, view: View, out: Layout)
    returns (r: Layout)
    ensures r == Append(out, Place(n, x, width, depth, path, view))
    decreases n, 1
  {
    r := Layout(out.cells + [Self(n, x, width, depth, path)], out.hidden);
    if depth + 1 >= view.limit || width == 0 || n.children == [] {
      return;
    }
    var consumed, narrow, frames;
    r, consumed, narrow, frames := PlaceChildren(n, x, width, depth, path, view, r);
    var spare := width - consumed;
    if frames > 0 {
      if spare > 0 {
        var earned := Cast(narrow, width, Max(n.samples, 1));
        var standIn := Min(Max(earned, 1), spare);
        r := Layout(r.cells + [Placed(depth + 1, x + consumed, standIn, StandIn, narrow, frames, path)], r.hidden);
      } else {
        r := Layout(r.cells, r.hidden + frames);
      }
    }
  }

  /** One pass over the children, with running column and narrow counts. */
  method PlaceChildren(n: Node, x: nat, width: nat, depth: nat, path: seq<nat>, view: View, out: Layout)
    returns (r: Layout, consumed: nat, narrow: nat, frames: nat)
    ensures r == Append(out, PlaceKids(n, x, width, depth, path, view, |n.children|))
    ensures consumed == Consumed(n, width, path, view, |n.children|)
    ensures narrow == Narrow(n, width, path, view, |n.children|)
    ensures frames == NarrowFrames(n, width, path, view, |n.children|)
    decreases n, 0
  {
    r := out;
    consumed, narrow, frames := 0, 0, 0;
    for k := 0 to |n.children|
      invariant consumed == Consumed(n, width, path, view, k)
      invariant narrow == Narrow(n, width, path, view, k)
      invariant frames == NarrowFrames(n, width, path, view, k)
      invariant r == Append(out, PlaceKids(n, x, width, depth, path, view, k))
    {
      var child := n.children[k];
      var w := Min(Cast(child.samples, width, Max(n.samples, 1)), SaturatingSub(width, consumed));
      if w == 0 && path + [k] <= view.cursor && consumed < width {
        w := 1;
      }
      if w == 0 {
        narrow := narrow + child.samples;
        frames := frames + 1;
      } else {
        r := PlaceInto(child, x + consumed, w, depth + 1, path + [k], view, r);
        AppendAssociative(out, PlaceKids(n, x, width, depth, path, view, k),
                          Place(child, x + consumed, w, depth + 1, path + [k], view));
        consumed := consumed + w;
      }
    }
  }

  method Lay(root: Node, width: nat, limit: nat, cursor: seq<nat>) returns (l: Layout)
    ensures l == LayoutOf(root, width, limit, cursor)
  {
    l := Layout([], 0);
    if width == 0 || limit == 0 || root.samples == 0 {
      return;
    }
    l := PlaceInto(root, 0, width, 0, [], View(limit, cursor), l);
  }

  // ---- Geometry: for every tree, whatever its counts ----

  ghost predicate Inside(cells: seq<Placed>, x: nat, width: nat, depth: nat, view: View) {
    forall c :: c in cells ==> x <= c.x && c.x + c.width <= x + width && depth <= c.depth < view.limit
  }

  lemma {:induction false} PlaceInside(n: Node, x: nat, width: nat, depth: nat, path: seq<nat>, view: View)
    requires depth < view.limit
    ensures Inside(Place(n, x, width, depth, path, view).cells, x, width, depth, view)
    decreases n, 1, 0
  {
    if Expanded(n, width, depth, view) {
      KidsInside(n, x, width, depth, path, view, |n.children|);
    }
  }

  lemma InsideConcat(a: seq<Placed>, b: seq<Placed>, x: nat, c: nat, w: nat, depth: nat, view: View)
    requires Inside(a, x, c, depth, view) && Inside(b, x + c, w, depth, view)
    ensures Inside(a + b, x, c + w, depth, view)
  {
  }

  /** The layout of the first k children is that of one fewer, then the last one's if it gets a column. */
  lemma KidsNext(n: Node, x: nat, width: nat, depth: nat, path: seq<nat>, view: View, k: nat)
    requires 0 < k <= |n.children|
    ensures var w := Width(n, width, path, view, k - 1);
            var sub :=
              Place(n.children[k - 1], x + Consumed(n, width, path, view, k - 1), w, depth + 1, path + [k - 1], view);
            var before := PlaceKids(n, x, width, depth, path, view, k - 1);
            && Consumed(n, width, path, view, k) == Consumed(n, width, path, view, k - 1) + w
            && PlaceKids(n, x, width, depth, path, view, k) ==
               (if w == 0 then before else Layout(before.cells + sub.cells, before.hidden + sub.hidden))
  {
    hide Place, ChildWidth;
  }

  /** The first k children stay within the columns they consume, one level down. */
  lemma {:induction false} KidsInside(n: Node, x: nat, width: nat, depth: nat, path: seq<nat>, view: View, k: nat)
    requires depth + 1 < view.limit && k <= |n.children|
    ensures Inside(PlaceKids(n, x, width, depth, path, view, k).cells,
                   x, Consumed(n, width, path, view, k), depth + 1, view)
    decreases n, 0, k
  {
    hide Place, Width;
    if k == 0 {
    } else {
      hide PlaceKids, Consumed;
      KidsNext(n, x, width, depth, path, view, k);
      KidsInside(n, x, width, depth, path, view, k - 1);
      var c, w := Consumed(n, width, path, view, k - 1), Width(n, width, path, view, k - 1);
      if w > 0 {
        PlaceInside(n.children[k - 1], x + c, w, depth + 1, path + [k - 1], view);
        InsideConcat(PlaceKids(n, x, width, depth, path, view, k - 1).cells,
                     Place(n.children[k - 1], x + c, w, depth + 1, path + [k - 1], view).cells,
                     x, c, w, depth + 1, view);
      }
    }
  }

  /** Cells of one row do not overlap and go from left to right. */
  ghost predicate RowsOrdered(cells: seq<Placed>) {
    forall i, j :: 0 <= i < j < |cells| && cells[i].depth == cells[j].depth ==>
      cells[i].x + cells[i].width <= cells[j].x
  }

  lemma {:induction false} PlaceOrdered(n: Node, x: nat, width: nat, depth: nat, path: seq<nat>, view: View)
    requires depth < view.limit
    ensures RowsOrdered(Place(n, x, width, depth, path, view).cells)
    decreases n, 1, 0
  {
    if Expanded(n, width, depth, view) {
      KidsOrdered(n, x, width, depth, path, view, |n.children|);
      KidsInside(n, x, width, depth, path, view, |n.children|);
    }
  }

  lemma {:induction false} KidsOrdered(n: Node, x: nat, width: nat, depth: nat, path: seq<nat>, view: View, k: nat)
    requires depth + 1 < view.limit && k <= |n.children|
    ensures RowsOrdered(PlaceKids(n, x, width, depth, path, view, k).cells)
    decreases n, 0, k
  {
    hide Place, Width;
    if k == 0 {
    } else {
      hide PlaceKids, Consumed;
      KidsNext(n, x, width, depth, path, view, k);
      KidsOrdered(n, x, width, depth, path, view, k - 1);
      var w := Width(n, width, path, view, k - 1);
      if w > 0 {
        var x' := x + Consumed(n, width, path, view, k - 1);
        KidsInside(n, x, width, depth, path, view, k - 1);
        PlaceInside(n.children[k - 1], x', w, depth + 1, path + [k - 1], view);
        PlaceOrdered(n.children[k - 1], x', w, depth + 1, path + [k - 1], view);
      }
    }
  }

  /** A cell on a path below a frame lies within that frame's columns. */
  ghost predicate Nested(cells: seq<Placed>) {
    forall i, j :: 0 <= i < |cells| && 0 <= j < |cells| ==> Holds(cells[i], cells[j])
  }

  predicate Holds(p: Placed, c: Placed) {
    p.folded == 0 && p.path <= c.path && p.depth <= c.depth ==> p.x <= c.x && c.x + c.width <= p.x + p.width
  }

  ghost predicate Below(cells: seq<Placed>, path: seq<nat>) {
    forall c :: c in cells ==> path <= c.path && c.depth == |c.path| + if c.folded == 0 then 0 else 1
  }

  lemma {:induction false} PlaceBelow(n: Node, x: nat, width: nat, depth: nat, path: seq<nat>, view: View)
    requires depth == |path|
    ensures Below(Place(n, x, width, depth, path, view).cells, path)
    decreases n, 1, 0
  {
    if Expanded(n, width, depth, view) { KidsBelow(n, x, width, depth, path, view, |n.children|); }
  }

  lemma {:induction false} KidsBelow(n: Node, x: nat, width: nat, depth: nat, path: seq<nat>, view: View, k: nat)
    requires depth == |path| && k <= |n.children|
    ensures Below(PlaceKids(n, x, width, depth, path, view, k).cells, path)
    ensures forall c :: c in PlaceKids(n, x, width, depth, path, view, k).cells ==>
              |c.path| > |path| && c.path[|path|] < k
    decreases n, 0, k
  {
    hide Place, Width;
    if k == 0 {
    } else {
      hide PlaceKids, Consumed;
      KidsNext(n, x, width, depth, path, view, k);
      KidsBelow(n, x, width, depth, path, view, k - 1);
      var w := Width(n, width, path, view, k - 1);
      if w > 0 {
        var sub :=
          Place(n.children[k - 1], x + Consumed(n, width, path, view, k - 1), w, depth + 1, path + [k - 1], view);
        PlaceBelow(n.children[k - 1], x + Consumed(n, width, path, view, k - 1), w, depth + 1, path + [k - 1], view);
        forall c | c in sub.cells ensures path <= c.path && |c.path| > |path| && c.path[|path|] == k - 1 {
          assert path + [k - 1] <= c.path && (path + [k - 1])[|path|] == k - 1;
        }
      }
    }
  }

  /** The frame holds whatever lies inside it, and nothing below holds the frame or a stand-in of it. */
  lemma NestedUnder(self: Placed, kids: seq<Placed>, tail: seq<Placed>)
    requires Nested(kids)
    requires forall c :: c in kids ==> |c.path| > |self.path| && Holds(self, c)
    requires forall c :: c in tail ==> c.path == self.path && c.folded > 0 && Holds(self, c)
    ensures Nested([self] + kids + tail)
  {
    var cells := [self] + kids + tail;
    forall i, j | 0 <= i < |cells| && 0 <= j < |cells| ensures Holds(cells[i], cells[j]) {
      if 0 < i <= |kids| {
        assert cells[i] in kids;
        if 0 < j <= |kids| { HoldsKids(kids, i - 1, j - 1); }
      } else if i == 0 {
        assert j == 0 || cells[j] in kids || cells[j] in tail;
      } else {
        assert cells[i] in tail;
      }
    }
  }

  lemma HoldsKids(kids: seq<Placed>, i: nat, j: nat)
    requires Nested(kids) && i < |kids| && j < |kids|
    ensures Holds(kids[i], kids[j])
  {
  }

  /** Cells inside the frame's columns are held by it. */
  lemma HeldBySelf(self: Placed, cells: seq<Placed>, view: View)
    requires Inside(cells, self.x, self.width, self.depth, view)
    ensures forall c :: c in cells ==> Holds(self, c)
  {
  }

  lemma {:induction false} PlaceNested(n: Node, x: nat, width: nat, depth: nat, path: seq<nat>, view: View)
    requires depth == |path| && depth < view.limit
    ensures Nested(Place(n, x, width, depth, path, view).cells)
    decreases n, 1, 0
  {
    if Expanded(n, width, depth, view) {
      var kids := PlaceKids(n, x, width, depth, path, view, |n.children|).cells;
      KidsNested(n, x, width, depth, path, view, |n.children|);
      KidsBelow(n, x, width, depth, path, view, |n.children|);
      PlaceInside(n, x, width, depth, path, view);
      HeldBySelf(Self(n, x, width, depth, path), Place(n, x, width, depth, path, view).cells, view);
      hide PlaceKids, Nested, Holds, Inside;
      NestedUnder(Self(n, x, width, depth, path), kids, Tail(n, x, width, depth, path, view).cells);
    }
  }

  lemma {:induction false} KidsNested(n: Node, x: nat, width: nat, depth: nat, path: seq<nat>, view: View, k: nat)
    requires depth == |path| && depth + 1 < view.limit && k <= |n.children|
    ensures Nested(PlaceKids(n, x, width, depth, path, view, k).cells)
    decreases n, 0, k
  {
    hide Place, Width, Nested, Below;
    if k == 0 {
      NothingNested();
    } else {
      hide PlaceKids, Consumed;
      KidsNext(n, x, width, depth, path, view, k);
      KidsNested(n, x, width, depth, path, view, k - 1);
      KidsBelow(n, x, width, depth, path, view, k - 1);
      var w := Width(n, width, path, view, k - 1);
      if w > 0 {
        var x' := x + Consumed(n, width, path, view, k - 1);
        PlaceNested(n.children[k - 1], x', w, depth + 1, path + [k - 1], view);
        PlaceBelow(n.children[k - 1], x', w, depth + 1, path + [k - 1], view);
        var before := PlaceKids(n, x, width, depth, path, view, k - 1).cells;
        var sub := Place(n.children[k - 1], x', w, depth + 1, path + [k - 1], view).cells;
        NestedConcat(before, sub, path, k - 1);
      }
    }
  }

  lemma NothingNested()
    ensures Nested([])
  {
  }

  lemma NestedConcat(a: seq<Placed>, b: seq<Placed>, path: seq<nat>, k: nat)
    requires Nested(a) && Nested(b) && Below(b, path + [k])
    requires forall c :: c in a ==> |c.path| > |path| && c.path[|path|] < k
    ensures Nested(a + b)
  {
    assert (path + [k])[|path|] == k;
    forall c | c in b ensures |c.path| > |path| && c.path[|path|] == k {
      assert path + [k] <= c.path;
    }
    var s := a + b;
    forall i, j | 0 <= i < |s| && 0 <= j < |s| ensures Holds(s[i], s[j]) {
      assert i >= |a| ==> s[i] in b;
      assert j >= |a| ==> s[j] in b;
      if s[i].path <= s[j].path { assert s[j].path[|path|] == s[i].path[|path|]; }
    }
  }

  /** Every layout stays in the area, nests, and keeps each row disjoint and ordered. */
  lemma LayoutGeometry(root: Node, width: nat, limit: nat, cursor: seq<nat>)
    ensures var cells := LayoutOf(root, width, limit, cursor).cells;
            Inside(cells, 0, width, 0, View(limit, cursor)) && RowsOrdered(cells) && Nested(cells)
  {
    if width > 0 && limit > 0 && root.samples > 0 {
      PlaceInside(root, 0, width, 0, [], View(limit, cursor));
      PlaceOrdered(root, 0, width, 0, [], View(limit, cursor));
      PlaceNested(root, 0, width, 0, [], View(limit, cursor));
    }
  }
}
