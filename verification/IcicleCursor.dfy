/** Exactly when a frame under the cursor is drawn. */
module IcicleCursor {
  import opened StackTree
  import opened Icicle
  import opened IcicleShares

  /** A cell of its own for the frame at that path, at least one column wide. */
  ghost predicate Drawn(cells: seq<Placed>, p: seq<nat>) {
    exists c :: c in cells && c.folded == 0 && c.path == p && c.depth == |p| && c.width >= 1
  }

  /** On each step of the way down, the next frame has samples or finds a column left by its elder siblings. */
  predicate Roomy(n: Node, width: nat, path: seq<nat>, view: View, rest: seq<nat>)
    decreases |rest|
  {
    rest == [] || (
      var i := rest[0];
      && i < |n.children|
      && (n.children[i].samples > 0 || Consumed(n, width, path, view, i) < width)
      && Roomy(n.children[i], Width(n, width, path, view, i), path + [i], view, rest[1..]))
  }

  // ---- One frame ----

  /** Elder siblings of the cursor's frame are never widened, so they take no more columns than their samples earn. */
  lemma {:induction false} ElderShares(n: Node, width: nat, path: seq<nat>, view: View, i: nat, k: nat)
    requires k <= i <= |n.children| && |path| < |view.cursor| && view.cursor[|path|] == i
    ensures Consumed(n, width, path, view, k) * Total(n) <= Sum(n.children[..k]) * width
  {
    if k == 0 {
    } else {
      var j := k - 1;
      ElderShares(n, width, path, view, i, j);
      SumTake(n.children, j);
      NotUnder(path, j, view.cursor);
      ElderStep(Consumed(n, width, path, view, j), Width(n, width, path, view, j), Sum(n.children[..j]),
                n.children[j].samples, width, Total(n));
    }
  }

  lemma NotUnder(path: seq<nat>, j: nat, cursor: seq<nat>)
    requires |path| < |cursor| && cursor[|path|] != j
    ensures !(path + [j] <= cursor)
  {
    assert (path + [j])[|path|] == j;
  }

  lemma ElderStep(c: nat, w: nat, s: nat, x: nat, width: nat, d: nat)
    requires d > 0 && c * d <= s * width && w <= Floor(x, width, d)
    ensures (c + w) * d <= (s + x) * width
  {
    FloorBound(x, width, d);
    Monotone(w, Floor(x, width, d), d);
    assert (c + w) * d == c * d + w * d && (s + x) * width == s * width + x * width;
  }

  /** Samples under the cursor leave a column for themselves. */
  lemma ElderRoom(n: Node, width: nat, path: seq<nat>, view: View, i: nat)
    requires Sum(n.children) <= n.samples && width > 0 && i < |n.children| && n.children[i].samples > 0
    requires |path| < |view.cursor| && view.cursor[|path|] == i
    ensures Consumed(n, width, path, view, i) < width
  {
    ElderShares(n, width, path, view, i, i);
    SumTake(n.children, i);
    SumPrefix(n.children, i + 1);
    hide Sum, Consumed;
    RoomLeft(Consumed(n, width, path, view, i), Sum(n.children[..i]), width, Total(n));
  }

  lemma RoomLeft(c: nat, s: nat, width: nat, d: nat)
    requires s < d && width > 0 && c * d <= s * width
    ensures c < width
  {
    Monotone(s, d - 1, width);
    assert (d - 1) * width == width * d - width;
    CancelStrict(c, width, d);
  }

  /** The frame under the cursor gets a column exactly if it has samples or a column is left. */
  lemma CursorWidth(n: Node, width: nat, path: seq<nat>, view: View, i: nat)
    requires Valid(n) && width > 0 && i < |n.children| && path + [i] <= view.cursor
    ensures Width(n, width, path, view, i) >= 1 <==>
            n.children[i].samples > 0 || Consumed(n, width, path, view, i) < width
  {
    hide Consumed, Floor, Total;
    assert view.cursor[|path|] == (path + [i])[|path|] == i;
    if n.children[i].samples > 0 { ElderRoom(n, width, path, view, i); }
  }

  // ---- Where a cell comes from ----

  /** A cell below child j was drawn for child j. */
  lemma {:induction false} KidSource(n: Node, x: nat, width: nat, depth: nat, path: seq<nat>, view: View, k: nat,
                                     c: Placed)
    requires |path| == depth && k <= |n.children| && c in PlaceKids(n, x, width, depth, path, view, k).cells
    ensures |c.path| > |path| && c.path[|path|] < k
    ensures var j := c.path[|path|]; var w := Width(n, width, path, view, j);
            w > 0 &&
            c in Place(n.children[j], x + Consumed(n, width, path, view, j), w, depth + 1, path + [j], view).cells
    decreases k
  {
    hide Place, Width, Consumed;
    if k == 0 {
      KidsNone(n, x, width, depth, path, view);
    } else {
      KidsNext(n, x, width, depth, path, view, k);
      hide PlaceKids;
      if c in PlaceKids(n, x, width, depth, path, view, k - 1).cells {
        KidSource(n, x, width, depth, path, view, k - 1, c);
      } else {
        PlaceBelow(n.children[k - 1], x + Consumed(n, width, path, view, k - 1), Width(n, width, path, view, k - 1),
                   depth + 1, path + [k - 1], view);
        assert path + [k - 1] <= c.path && (path + [k - 1])[|path|] == k - 1;
      }
    }
  }

  /** Every cell of a drawn child is a cell of the parent. */
  lemma {:induction false} KidsContain(n: Node, x: nat, width: nat, depth: nat, path: seq<nat>, view: View, i: nat,
                                       k: nat, c: Placed)
    requires i < k <= |n.children| && Width(n, width, path, view, i) > 0
    requires c in Place(n.children[i], x + Consumed(n, width, path, view, i), Width(n, width, path, view, i), depth + 1,
                        path + [i], view).cells
    ensures c in PlaceKids(n, x, width, depth, path, view, k).cells
    decreases k
  {
    hide Place, Width, Consumed;
    KidsNext(n, x, width, depth, path, view, k);
    hide PlaceKids;
    if i < k - 1 { KidsContain(n, x, width, depth, path, view, i, k - 1, c); }
  }

  /** A frame's cell below an expanded frame is among the cells of the children, and conversely. */
  lemma CellSource(n: Node, x: nat, width: nat, depth: nat, path: seq<nat>, view: View, c: Placed)
    requires Expanded(n, width, depth, view) && c.path != path && c.folded == 0
    ensures c in Place(n, x, width, depth, path, view).cells <==>
            c in PlaceKids(n, x, width, depth, path, view, |n.children|).cells
  {
    hide PlaceKids, Narrow, NarrowFrames, Consumed;
  }

  // ---- The whole way down ----

  /** A frame's cell on a path through child i is a cell of that child. */
  lemma CellBelow(n: Node, x: nat, width: nat, depth: nat, path: seq<nat>, view: View, i: nat, c: Placed)
    requires Expanded(n, width, depth, view) && |path| == depth && i < |n.children|
    requires c.folded == 0 && path + [i] <= c.path
    ensures var w := Width(n, width, path, view, i);
            c in Place(n, x, width, depth, path, view).cells <==>
            w > 0 &&
            c in Place(n.children[i], x + Consumed(n, width, path, view, i), w, depth + 1, path + [i], view).cells
  {
    hide Place, PlaceKids, Width, Consumed, Expanded;
    assert c.path[|path|] == (path + [i])[|path|] == i;
    CellSource(n, x, width, depth, path, view, c);
    if c in PlaceKids(n, x, width, depth, path, view, |n.children|).cells {
      KidSource(n, x, width, depth, path, view, |n.children|, c);
    } else if Width(n, width, path, view, i) > 0 {
      KidAbsent(n, x, width, depth, path, view, i, |n.children|, c);
    }
  }

  lemma KidAbsent(n: Node, x: nat, width: nat, depth: nat, path: seq<nat>, view: View, i: nat, k: nat, c: Placed)
    requires i < k <= |n.children| && Width(n, width, path, view, i) > 0
    requires c !in PlaceKids(n, x, width, depth, path, view, k).cells
    ensures c !in Place(n.children[i], x + Consumed(n, width, path, view, i), Width(n, width, path, view, i), depth + 1,
                        path + [i], view).cells
  {
    hide Place, PlaceKids, Width, Consumed;
    if c in Place(n.children[i], x + Consumed(n, width, path, view, i), Width(n, width, path, view, i), depth + 1,
                  path + [i], view).cells {
      KidsContain(n, x, width, depth, path, view, i, k, c);
    }
  }

  /** One step: drawn below the frame means drawn below the child, and the child has a column. */
  lemma DrawnStep(n: Node, x: nat, width: nat, depth: nat, path: seq<nat>, view: View, i: nat, rest: seq<nat>)
    requires Expanded(n, width, depth, view) && |path| == depth && i < |n.children|
    ensures var w := Width(n, width, path, view, i);
            Drawn(Place(n, x, width, depth, path, view).cells, path + ([i] + rest)) <==>
            && w > 0
            && Drawn(Place(n.children[i], x + Consumed(n, width, path, view, i), w, depth + 1, path + [i], view).cells,
                     path + [i] + rest)
  {
    hide Place, PlaceKids, Width, Consumed, Expanded;
    var p, w := path + [i] + rest, Width(n, width, path, view, i);
    assert path + ([i] + rest) == p && path + [i] <= p;
    var kid := Place(n.children[i], x + Consumed(n, width, path, view, i), w, depth + 1, path + [i], view).cells;
    forall c: Placed | c.folded == 0 && c.path == p
      ensures c in Place(n, x, width, depth, path, view).cells <==> w > 0 && c in kid
    {
      CellBelow(n, x, width, depth, path, view, i, c);
    }
  }

  lemma {:induction false} DrawnIff(n: Node, x: nat, width: nat, depth: nat, path: seq<nat>, view: View, rest: seq<nat>)
    requires Valid(n) && width > 0 && |path| == depth && depth + |rest| < view.limit
    requires path + rest <= view.cursor && Reaches(n, rest)
    ensures Drawn(Place(n, x, width, depth, path, view).cells, path + rest) <==> Roomy(n, width, path, view, rest)
    decreases |rest|
  {
    hide Place, Width, Consumed, Drawn;
    if rest == [] {
      assert path + [] == path;
      SelfDrawn(n, x, width, depth, path, view);
    } else {
      var i, more := rest[0], rest[1..];
      assert rest == [i] + more && path + [i] + more == path + rest && path + [i] <= path + rest;
      CursorWidth(n, width, path, view, i);
      DrawnStep(n, x, width, depth, path, view, i, more);
      var w := Width(n, width, path, view, i);
      if w > 0 {
        DrawnIff(n.children[i], x + Consumed(n, width, path, view, i), w, depth + 1, path + [i], view, more);
      }
    }
  }

  lemma SelfDrawn(n: Node, x: nat, width: nat, depth: nat, path: seq<nat>, view: View)
    requires width > 0 && |path| == depth
    ensures Drawn(Place(n, x, width, depth, path, view).cells, path)
  {
    hide PlaceKids, Tail;
    assert Self(n, x, width, depth, path) in Place(n, x, width, depth, path, view).cells;
  }

  lemma {:induction false} ReachesPrefix(n: Node, at: seq<nat>, m: nat)
    requires Reaches(n, at) && m <= |at|
    ensures Reaches(n, at[..m])
  {
    if m == 0 {
    } else {
      ReachesPrefix(n.children[at[0]], at[1..], m - 1);
      assert at[..m][1..] == at[1..][..m - 1];
    }
  }

  /**
    A frame on the path of a valid cursor is drawn if and only if, on each step down to it, the next frame has samples
    or finds a column left. The tree may have frames without samples anywhere.
   */
  lemma CursorDrawnIff(root: Node, width: nat, limit: nat, cursor: seq<nat>, m: nat)
    requires Valid(root) && width > 0 && Reaches(root, cursor) && m <= |cursor| < limit
    ensures Drawn(LayoutOf(root, width, limit, cursor).cells, cursor[..m]) <==>
            root.samples > 0 && Roomy(root, width, [], View(limit, cursor), cursor[..m])
  {
    hide Roomy, Place;
    if root.samples > 0 {
      ReachesPrefix(root, cursor, m);
      assert [] + cursor[..m] == cursor[..m];
      DrawnIff(root, 0, width, 0, [], View(limit, cursor), cursor[..m]);
    }
  }

  lemma {:induction false} RoomyPrefix(n: Node, width: nat, path: seq<nat>, view: View, rest: seq<nat>, m: nat)
    requires Roomy(n, width, path, view, rest) && m <= |rest|
    ensures Roomy(n, width, path, view, rest[..m])
    decreases m
  {
    if m == 0 {
    } else {
      RoomyPrefix(n.children[rest[0]], Width(n, width, path, view, rest[0]), path + [rest[0]], view, rest[1..], m - 1);
      assert rest[..m][1..] == rest[1..][..m - 1];
    }
  }

  /** The whole path of the cursor is drawn exactly if there is room on every step of it. */
  lemma CursorPathDrawnIff(root: Node, width: nat, limit: nat, cursor: seq<nat>)
    requires Valid(root) && width > 0 && Reaches(root, cursor) && |cursor| < limit
    ensures (forall m :: 0 <= m <= |cursor| ==> Drawn(LayoutOf(root, width, limit, cursor).cells, cursor[..m])) <==>
            root.samples > 0 && Roomy(root, width, [], View(limit, cursor), cursor)
  {
    hide Roomy, Drawn, LayoutOf;
    var view := View(limit, cursor);
    assert cursor[..|cursor|] == cursor;
    forall m | 0 <= m <= |cursor|
      ensures Drawn(LayoutOf(root, width, limit, cursor).cells, cursor[..m]) <==>
              root.samples > 0 && Roomy(root, width, [], view, cursor[..m])
      ensures Roomy(root, width, [], view, cursor) ==> Roomy(root, width, [], view, cursor[..m])
    {
      CursorDrawnIff(root, width, limit, cursor, m);
      if Roomy(root, width, [], view, cursor) { RoomyPrefix(root, width, [], view, cursor, m); }
    }
  }

  // ---- What follows ----

  lemma {:induction false} SampledIsRoomy(n: Node, width: nat, path: seq<nat>, view: View, rest: seq<nat>)
    requires Reaches(n, rest) && Sampled(n, rest)
    ensures Roomy(n, width, path, view, rest)
    decreases |rest|
  {
    hide Width, Consumed;
    if rest == [] {
    } else {
      SampledIsRoomy(n.children[rest[0]], Width(n, width, path, view, rest[0]), path + [rest[0]], view, rest[1..]);
    }
  }

  /** Samples on the cursor's own path are enough; frames without samples elsewhere do not matter. */
  lemma CursorIsDrawn(root: Node, width: nat, limit: nat, cursor: seq<nat>, m: nat)
    requires Valid(root) && root.samples > 0 && width > 0
    requires Reaches(root, cursor) && Sampled(root, cursor) && m <= |cursor| < limit
    ensures Drawn(LayoutOf(root, width, limit, cursor).cells, cursor[..m])
  {
    hide Roomy, Drawn, LayoutOf;
    var view := View(limit, cursor);
    SampledIsRoomy(root, width, [], view, cursor);
    RoomyPrefix(root, width, [], view, cursor, m);
    CursorDrawnIff(root, width, limit, cursor, m);
  }
}
