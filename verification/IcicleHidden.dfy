/** Exactly how many frames a layout leaves undrawn away from the cursor. */
module IcicleHidden {
  import opened StackTree
  import opened Icicle
  import opened IcicleShares

  /** What the floor of a share cuts off, in parts of a column. */
  function Rest(samples: nat, width: nat, total: nat): nat
    requires total > 0
  {
    samples * width % total
  }

  /** The children take every column: all samples are theirs, and each share is a whole number of columns. */
  predicate Full(n: Node, width: nat) {
    && n.samples > 0 && Sum(n.children) == n.samples
    && forall i :: 0 <= i < |n.children| ==> Rest(n.children[i].samples, width, n.samples) == 0
  }

  /** How many of the first k children have no samples. */
  function Empties(n: Node, k: nat): nat
    requires k <= |n.children|
  {
    if k == 0 then 0 else Empties(n, k - 1) + if n.children[k - 1].samples == 0 then 1 else 0
  }

  /** Frames without samples under full frames, going down by floor shares for so many levels. */
  function Lost(n: Node, width: nat, levels: nat): nat
    decreases levels, 1, 0
  {
    if levels <= 1 || width == 0 then 0
    else (if Full(n, width) then Empties(n, |n.children|) else 0) + LostBelow(n, width, levels, |n.children|)
  }

  function LostBelow(n: Node, width: nat, levels: nat, k: nat): nat
    requires levels > 1 && k <= |n.children|
    decreases levels, 0, k
  {
    if k == 0 then 0
    else LostBelow(n, width, levels, k - 1) +
         Lost(n.children[k - 1], Floor(n.children[k - 1].samples, width, Total(n)), levels - 1)
  }

  /** No drawn frame with a level below it is full and has a child without samples. */
  predicate Spacious(n: Node, width: nat, levels: nat)
    decreases levels
  {
    levels <= 1 || width == 0 || (
      && !(Full(n, width) && exists i :: 0 <= i < |n.children| && n.children[i].samples == 0)
      && forall i :: 0 <= i < |n.children| ==>
           Spacious(n.children[i], Floor(n.children[i].samples, width, Total(n)), levels - 1))
  }

  // ---- One frame ----

  /** Away from the cursor, or at its end, every child gets its floor share. */
  lemma OffShares(n: Node, width: nat, path: seq<nat>, view: View)
    requires Sum(n.children) <= n.samples && 0 < width < U16 && !(path < view.cursor)
    ensures forall i :: 0 <= i < |n.children| ==>
              && !(path + [i] < view.cursor)
              && Width(n, width, path, view, i) == Floor(n.children[i].samples, width, Total(n))
  {
    hide Width, Budget, Floor, Sum;
    forall i | 0 <= i < |n.children| ensures !(path + [i] <= view.cursor) {
      assert path + [i] <= view.cursor ==> path < view.cursor;
    }
    ShareExact(n, width, path, view, |n.children|);
  }

  /** The parts cut off the first k shares. */
  function Rests(n: Node, width: nat, k: nat): nat
    requires k <= |n.children|
  {
    if k == 0 then 0 else Rests(n, width, k - 1) + Rest(n.children[k - 1].samples, width, Total(n))
  }

  lemma {:induction false} RestsZero(n: Node, width: nat, k: nat)
    requires k <= |n.children|
    ensures Rests(n, width, k) == 0 <==> forall i :: 0 <= i < k ==> Rest(n.children[i].samples, width, Total(n)) == 0
  {
    if k == 0 {
    } else {
      RestsZero(n, width, k - 1);
    }
  }

  /** Columns taken and parts cut off make up the samples seen. */
  lemma {:induction false} ConsumedExact(n: Node, width: nat, path: seq<nat>, view: View, k: nat)
    requires k <= |n.children|
    requires forall i :: 0 <= i < |n.children| ==>
               Width(n, width, path, view, i) == Floor(n.children[i].samples, width, Total(n))
    ensures Consumed(n, width, path, view, k) * Total(n) + Rests(n, width, k) == Sum(n.children[..k]) * width
  {
    if k == 0 {
    } else {
      ConsumedExact(n, width, path, view, k - 1);
      hide Consumed, Width, Floor, Rests, Rest, Sum, Total;
      NextExact(n, width, path, view, k);
    }
  }

  lemma NextExact(n: Node, width: nat, path: seq<nat>, view: View, k: nat)
    requires 0 < k <= |n.children|
    requires Width(n, width, path, view, k - 1) == Floor(n.children[k - 1].samples, width, Total(n))
    ensures var x := n.children[k - 1].samples;
            && Rests(n, width, k) == Rests(n, width, k - 1) + Rest(x, width, Total(n))
            && Consumed(n, width, path, view, k) * Total(n) + Rest(x, width, Total(n)) ==
               Consumed(n, width, path, view, k - 1) * Total(n) + x * width
            && Sum(n.children[..k]) * width == Sum(n.children[..k - 1]) * width + x * width
  {
    SumTake(n.children, k - 1);
    hide Sum, Floor, Rest;
    var c, w := Consumed(n, width, path, view, k - 1), Width(n, width, path, view, k - 1);
    var x := n.children[k - 1].samples;
    assert Consumed(n, width, path, view, k) == c + w;
    hide Consumed, Width;
    Division(x, width, Total(n));
    Distributes(c, w, Total(n));
    Distributes(Sum(n.children[..k - 1]), x, width);
  }

  lemma Division(x: nat, width: nat, d: nat)
    requires d > 0
    ensures Floor(x, width, d) * d + Rest(x, width, d) == x * width
  {
  }

  lemma Distributes(a: nat, b: nat, d: nat)
    ensures (a + b) * d == a * d + b * d
  {
  }

  /** Away from the cursor every column is taken exactly under a full frame. */
  lemma FullIff(n: Node, width: nat, path: seq<nat>, view: View)
    requires Sum(n.children) <= n.samples && 0 < width < U16 && !(path < view.cursor)
    ensures Consumed(n, width, path, view, |n.children|) == width <==> Full(n, width)
  {
    var k := |n.children|;
    OffShares(n, width, path, view);
    ConsumedExact(n, width, path, view, k);
    RestsZero(n, width, k);
    assert n.children[..k] == n.children;
    hide Consumed, Sum, Rests, Width, Floor;
    AllTaken(Consumed(n, width, path, view, k), Rests(n, width, k), Sum(n.children), Total(n), width);
  }

  lemma AllTaken(c: nat, rest: nat, s: nat, d: nat, width: nat)
    requires d > 0 && s <= d && width > 0 && c <= width && c * d + rest == s * width
    ensures c == width <==> s == d && rest == 0
  {
    assert d * width == width * d;
    if s < d { Strictly(s, d, width); }
    if s == d && rest == 0 { Cancel(width, c, d); }
  }

  lemma Strictly(s: nat, d: nat, width: nat)
    requires s < d && width > 0
    ensures s * width < d * width
  {
    Monotone(s, d - 1, width);
    Distributes(d - 1, 1, width);
  }

  /** Under a full frame the children without a column are those without samples. */
  lemma {:induction false} NarrowEmpty(n: Node, width: nat, path: seq<nat>, view: View, k: nat)
    requires Full(n, width) && width > 0 && k <= |n.children|
    requires forall i :: 0 <= i < |n.children| ==>
               Width(n, width, path, view, i) == Floor(n.children[i].samples, width, Total(n))
    ensures NarrowFrames(n, width, path, view, k) == Empties(n, k)
  {
    if k == 0 {
    } else {
      NarrowEmpty(n, width, path, view, k - 1);
      hide Width;
      WholeIsZero(n.children[k - 1].samples, width, Total(n));
    }
  }

  lemma WholeIsZero(x: nat, width: nat, d: nat)
    requires d > 0 && width > 0 && Rest(x, width, d) == 0
    ensures Floor(x, width, d) == 0 <==> x == 0
  {
    if x > 0 {
      Monotone(1, x, width);
      Division(x, width, d);
    }
  }

  /** What one frame adds to the count, away from the cursor. */
  lemma TailHidden(n: Node, x: nat, width: nat, depth: nat, path: seq<nat>, view: View)
    requires Sum(n.children) <= n.samples && 0 < width < U16 && !(path < view.cursor)
    ensures Tail(n, x, width, depth, path, view).hidden == if Full(n, width) then Empties(n, |n.children|) else 0
  {
    OffShares(n, width, path, view);
    FullIff(n, width, path, view);
    if Full(n, width) { NarrowEmpty(n, width, path, view, |n.children|); }
    hide Consumed, Narrow, NarrowFrames, Empties, Full, Sum, Width;
  }

  // ---- The whole layout ----

  lemma {:induction false} PlaceHidden(n: Node, x: nat, width: nat, depth: nat, path: seq<nat>, view: View)
    requires Valid(n) && 0 < width < U16 && !(path < view.cursor) && depth < view.limit
    ensures Place(n, x, width, depth, path, view).hidden == Lost(n, width, view.limit - depth)
    decreases n, 1, 0
  {
    hide Full;
    if Expanded(n, width, depth, view) {
      KidsHidden(n, x, width, depth, path, view, |n.children|);
      TailHidden(n, x, width, depth, path, view);
      hide PlaceKids, Tail, LostBelow;
    }
  }

  lemma {:induction false} KidsHidden(n: Node, x: nat, width: nat, depth: nat, path: seq<nat>, view: View, k: nat)
    requires Valid(n) && 0 < width < U16 && !(path < view.cursor) && depth + 1 < view.limit && k <= |n.children|
    ensures PlaceKids(n, x, width, depth, path, view, k).hidden == LostBelow(n, width, view.limit - depth, k)
    decreases n, 0, k
  {
    hide Place, Width, Floor;
    if k == 0 {
    } else {
      KidsHidden(n, x, width, depth, path, view, k - 1);
      OffShares(n, width, path, view);
      KidsNext(n, x, width, depth, path, view, k);
      WidthAtMost(n, width, path, view, k - 1);
      hide PlaceKids, Consumed, Full;
      if Width(n, width, path, view, k - 1) > 0 {
        PlaceHidden(n.children[k - 1], x + Consumed(n, width, path, view, k - 1), Width(n, width, path, view, k - 1),
                    depth + 1, path + [k - 1], view);
      }
    }
  }

  lemma {:induction false} EmptyLost(n: Node, width: nat, levels: nat)
    requires Valid(n) && n.samples == 0
    ensures Lost(n, width, levels) == 0
  {
    if levels <= 1 || width == 0 {
    } else {
      EmptyBelow(n, width, levels, |n.children|);
    }
  }

  lemma {:induction false} EmptyBelow(n: Node, width: nat, levels: nat, k: nat)
    requires Valid(n) && n.samples == 0 && levels > 1 && k <= |n.children|
    ensures LostBelow(n, width, levels, k) == 0
  {
    if k == 0 {
    } else {
      EmptyBelow(n, width, levels, k - 1);
      SumTake(n.children, k - 1);
      SumPrefix(n.children, k);
    }
  }

  /**
    Without a cursor, on every valid tree, what a layout leaves undrawn are the frames without samples under frames
    whose children take every column; all else is drawn or behind a stand-in.
   */
  lemma HiddenWithoutCursor(root: Node, width: nat, limit: nat)
    requires Valid(root) && width < U16
    ensures LayoutOf(root, width, limit, []).hidden == Lost(root, width, limit)
  {
    hide Full, LostBelow, PlaceKids;
    if root.samples == 0 {
      EmptyLost(root, width, limit);
    } else if width > 0 && limit > 0 {
      PlaceHidden(root, 0, width, 0, [], View(limit, []));
    }
  }

  // ---- When nothing is hidden ----

  lemma {:induction false} NoEmpties(n: Node, k: nat)
    requires k <= |n.children|
    ensures Empties(n, k) == 0 <==> forall i :: 0 <= i < k ==> n.children[i].samples > 0
  {
    if k == 0 {
    } else {
      NoEmpties(n, k - 1);
    }
  }

  lemma {:induction false} LostIff(n: Node, width: nat, levels: nat)
    ensures Lost(n, width, levels) == 0 <==> Spacious(n, width, levels)
    decreases levels, 1, 0
  {
    hide Full, Floor;
    if levels <= 1 || width == 0 {
    } else {
      NoEmpties(n, |n.children|);
      LostBelowIff(n, width, levels, |n.children|);
      hide LostBelow, Empties;
    }
  }

  lemma {:induction false} LostBelowIff(n: Node, width: nat, levels: nat, k: nat)
    requires levels > 1 && k <= |n.children|
    ensures LostBelow(n, width, levels, k) == 0 <==>
            forall i :: 0 <= i < k ==>
              Spacious(n.children[i], Floor(n.children[i].samples, width, Total(n)), levels - 1)
    decreases levels, 0, k
  {
    hide Spacious, Lost, Floor;
    if k == 0 {
    } else {
      LostBelowIff(n, width, levels, k - 1);
      LostIff(n.children[k - 1], Floor(n.children[k - 1].samples, width, Total(n)), levels - 1);
    }
  }

  /** Nothing is left undrawn if and only if no drawn frame is full while a child of it has no samples. */
  lemma NothingHiddenIff(root: Node, width: nat, limit: nat)
    requires Valid(root) && width < U16
    ensures LayoutOf(root, width, limit, []).hidden == 0 <==> Spacious(root, width, limit)
  {
    hide LayoutOf, Lost, Spacious;
    HiddenWithoutCursor(root, width, limit);
    LostIff(root, width, limit);
  }

  lemma {:induction false} PositiveSpacious(n: Node, width: nat, levels: nat)
    requires Positive(n)
    ensures Spacious(n, width, levels)
    decreases levels
  {
    hide Full, Floor;
    if levels <= 1 || width == 0 {
    } else {
      forall i | 0 <= i < |n.children|
        ensures Spacious(n.children[i], Floor(n.children[i].samples, width, Total(n)), levels - 1)
      {
        PositiveSpacious(n.children[i], Floor(n.children[i].samples, width, Total(n)), levels - 1);
      }
    }
  }

  /** So nothing is left undrawn of a tree without empty frames, as every recorded tree is. */
  lemma NoCursorNothingHidden(root: Node, width: nat, limit: nat)
    requires Valid(root) && Positive(root) && width < U16
    ensures LayoutOf(root, width, limit, []).hidden == 0
  {
    hide LayoutOf, Spacious;
    PositiveSpacious(root, width, limit);
    NothingHiddenIff(root, width, limit);
  }

  /** A valid tree that loses a frame at every width: next to a child with all the samples, one without any. */
  lemma EmptySiblingHidden(root: Node, width: nat, limit: nat)
    requires Valid(root) && |root.children| == 2 && root.children[0].samples == root.samples > 0
    requires root.children[0].children == [] && root.children[1] == Node(root.children[1].name, 0, [])
    requires 0 < width < U16 && limit >= 2
    ensures LayoutOf(root, width, limit, []).hidden == 1
  {
    hide LayoutOf;
    HiddenWithoutCursor(root, width, limit);
    assert Lost(root, width, limit) ==
           (if Full(root, width) then Empties(root, 2) else 0) + LostBelow(root, width, limit, 2);
    var a, b := root.children[0], root.children[1];
    assert root.children == [a, b] && root.children[1..] == [b];
    WholeRest(root.samples, width);
    assert Full(root, width);
    assert Empties(root, 0) == 0;
    assert Empties(root, 1) == 0;
    assert Empties(root, 2) == 1;
    assert Lost(a, Floor(a.samples, width, Total(root)), limit - 1) == 0 by { Childless(a); }
    assert Lost(b, Floor(b.samples, width, Total(root)), limit - 1) == 0 by { Childless(b); }
    hide Lost, Full, Floor;
    assert LostBelow(root, width, limit, 0) == 0;
    assert LostBelow(root, width, limit, 1) == 0;
    assert LostBelow(root, width, limit, 2) == 0;
  }

  lemma WholeRest(s: nat, width: nat)
    requires s > 0
    ensures Rest(s, width, s) == 0 && Rest(0, width, s) == 0
  {
    WholeShare(s, width);
    Division(s, width, s);
    assert width * s == s * width;
  }

  lemma Childless(n: Node)
    requires n.children == []
    ensures forall width: nat, levels: nat :: Lost(n, width, levels) == 0
  {
  }
}
