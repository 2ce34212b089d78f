/** What the columns of an icicle layout are worth, on trees whose children fit their parent. */
module IcicleShares {
  import opened Numbers
  import opened StackTree
  import opened Icicle

  // ---- Integer shares ----

  lemma FloorBound(s: nat, w: nat, d: nat)
    requires d > 0
    ensures Floor(s, w, d) * d <= s * w < (Floor(s, w, d) + 1) * d
    ensures Floor(s, w, d) == 0 <==> s * w < d
  {
    var f := Floor(s, w, d);
    assert s * w == f * d + s * w % d;
    assert (f + 1) * d == f * d + d;
    if f >= 1 { assert f * d >= d; }
  }

  lemma Cancel(a: nat, b: nat, d: nat)
    requires d > 0 && a * d <= b * d
    ensures a <= b
  {
    assert (a - b) * d == a * d - b * d <= 0;
  }

  lemma CancelStrict(a: nat, b: nat, d: nat)
    requires d > 0 && a * d < b * d
    ensures a < b
  {
    assert (a - b) * d == a * d - b * d < 0;
  }

  lemma Monotone(a: nat, b: nat, w: nat)
    requires a <= b
    ensures a * w <= b * w
  {
  }

  /** A share of a part is at most the width, so the cast loses nothing. */
  lemma CastExact(s: nat, w: nat, d: nat)
    requires 0 < d && s <= d && w < U16
    ensures Cast(s, w, d) == Floor(s, w, d) <= w
  {
    FloorBound(s, w, d);
    Monotone(s, d, w);
    assert d * w == w * d;
    Cancel(Floor(s, w, d), w, d);
  }

  // ---- One frame ----

  /** Whether one of the first k children was widened for the cursor. */
  function Widened(n: Node, width: nat, path: seq<nat>, view: View, k: nat): nat
    requires k <= |n.children|
  {
    if k == 0 then 0
    else Widened(n, width, path, view, k - 1) +
         if path + [k - 1] <= view.cursor && Floor(n.children[k - 1].samples, width, Total(n)) == 0 then 1 else 0
  }

  lemma {:induction false} WidenedOnce(n: Node, width: nat, path: seq<nat>, view: View, k: nat)
    requires k <= |n.children|
    ensures Widened(n, width, path, view, k) <= 1
    ensures Widened(n, width, path, view, k) == 1 ==> path < view.cursor && view.cursor[|path|] < k
  {
    if k == 0 {
    } else {
      WidenedOnce(n, width, path, view, k - 1);
      if path + [k - 1] <= view.cursor { assert view.cursor[|path|] == (path + [k - 1])[|path|] == k - 1; }
    }
  }

  lemma NotYetWidened(n: Node, width: nat, path: seq<nat>, view: View, k: nat)
    requires k <= |n.children|
    ensures Widened(n, width, path, view, k) <= 1
    ensures path + [k] <= view.cursor ==> Widened(n, width, path, view, k) == 0
  {
    WidenedOnce(n, width, path, view, k);
    if path + [k] <= view.cursor { assert view.cursor[|path|] == (path + [k])[|path|] == k; }
  }

  lemma SumTake(cs: seq<Node>, k: nat)
    requires k < |cs|
    ensures Sum(cs[..k + 1]) == Sum(cs[..k]) + cs[k].samples
  {
    assert cs[..k + 1] == cs[..k] + [cs[k]];
    SumConcat(cs[..k], [cs[k]]);
  }

  /** The children fit their parent, and the one under the cursor has samples. */
  predicate Fits(n: Node, path: seq<nat>, view: View) {
    && Sum(n.children) <= n.samples
    && forall i :: 0 <= i < |n.children| && path + [i] <= view.cursor ==> n.children[i].samples > 0
  }

  /** The share a child is drawn with: its floor, or one column under the cursor. */
  function Earned(n: Node, width: nat, path: seq<nat>, view: View, k: nat): nat
    requires k < |n.children|
  {
    var f := Floor(n.children[k].samples, width, Total(n));
    if f == 0 && path + [k] <= view.cursor then 1 else f
  }

  /** Columns in use never exceed what the drawn samples earn, one widened column aside. */
  ghost predicate Budget(n: Node, width: nat, path: seq<nat>, view: View, k: nat)
    requires k <= |n.children|
  {
    var c, e := Consumed(n, width, path, view, k), Widened(n, width, path, view, k);
    var s, m := Sum(n.children[..k]), Narrow(n, width, path, view, k);
    e <= c && m + e <= s && (c - e) * Total(n) <= (s - m - e) * width
  }

  /** The arithmetic of one child, on plain numbers. */
  lemma BudgetStep(c: nat, e: nat, s: nat, m: nat, d: nat, width: nat, x: nat, cursor: bool)
    requires d > 0 && s + x <= d && e <= 1 && e <= c <= width && m + e <= s && 0 < width < U16
    requires (c - e) * d <= (s - m - e) * width
    requires cursor ==> e == 0 && x > 0
    ensures var f := Floor(x, width, d);
            && f + c <= width
            && (f == 0 && cursor ==> c < width)
            && (f > 0 ==> (c + f - e) * d <= (s + x - m - e) * width)
            && (f == 0 && cursor ==> (c + 1 - 1) * d <= (s + x - m - 1) * width)
  {
    var f := Floor(x, width, d);
    FloorBound(x, width, d);
    assert (c - e + f) * d == (c - e) * d + f * d;
    assert (s - m - e + x) * width == (s - m - e) * width + x * width;
    assert (c - e + f) * d <= (s - m - e + x) * width;
    if e == 0 {
      Monotone(s - m + x, d, width);
      assert d * width == width * d;
      Cancel(c + f, width, d);
    } else {
      Monotone(s - m - 1 + x, d - 1, width);
      assert (d - 1) * width == d * width - width == width * d - width;
      CancelStrict(c - 1 + f, width, d);
    }
    if f == 0 && cursor {
      Monotone(s - m, d - x, width);
      assert (d - x) * width == width * d - x * width;
      assert x * width > 0 by { Monotone(1, x, width); }
      CancelStrict(c, width, d);
      Monotone(s - m, s + x - m - 1, width);
    }
  }

  /** One more child within the budget gets what it earns and stays within it. */
  lemma ShareStep(n: Node, width: nat, path: seq<nat>, view: View, j: nat)
    requires Fits(n, path, view) && 0 < width < U16 && j < |n.children| && Budget(n, width, path, view, j)
    ensures Budget(n, width, path, view, j + 1)
    ensures Width(n, width, path, view, j) == Earned(n, width, path, view, j)
  {
    hide Floor, Sum;
    var x, cursor := n.children[j].samples, path + [j] <= view.cursor;
    SumTake(n.children, j);
    assert Sum(n.children[..j]) + x <= Total(n) by { SumPrefix(n.children, j + 1); }
    NotYetWidened(n, width, path, view, j);
    CastExact(x, width, Total(n));
    hide Cast;
    BudgetStep(Consumed(n, width, path, view, j), Widened(n, width, path, view, j), Sum(n.children[..j]),
               Narrow(n, width, path, view, j), Total(n), width, x, cursor);
  }

  /** On fitting children no share is clamped: each child gets exactly what it earns. */
  lemma {:induction false} ShareExact(n: Node, width: nat, path: seq<nat>, view: View, k: nat)
    requires Fits(n, path, view) && 0 < width < U16 && k <= |n.children|
    ensures Budget(n, width, path, view, k)
    ensures forall i :: 0 <= i < k ==> Width(n, width, path, view, i) == Earned(n, width, path, view, i)
  {
    if k == 0 {
    } else {
      hide Budget, Width, Earned, Fits;
      ShareExact(n, width, path, view, k - 1);
      ShareStep(n, width, path, view, k - 1);
    }
  }

  /** What the first k children earn together. */
  function Earnings(n: Node, width: nat, path: seq<nat>, view: View, k: nat): nat
    requires k <= |n.children|
  {
    if k == 0 then 0 else Earnings(n, width, path, view, k - 1) + Earned(n, width, path, view, k - 1)
  }

  /** While what the children earn is within the width, each gets it. */
  lemma {:induction false} EarningsPaid(n: Node, width: nat, path: seq<nat>, view: View, k: nat)
    requires Sum(n.children) <= n.samples && 0 < width < U16 && k <= |n.children|
    requires Earnings(n, width, path, view, k) <= width
    ensures Consumed(n, width, path, view, k) == Earnings(n, width, path, view, k)
    ensures forall i :: 0 <= i < k ==> Width(n, width, path, view, i) == Earned(n, width, path, view, i)
  {
    if k == 0 {
    } else {
      EarningsPaid(n, width, path, view, k - 1);
      SumTake(n.children, k - 1);
      SumPrefix(n.children, k);
      CastExact(n.children[k - 1].samples, width, Total(n));
    }
  }

  lemma {:induction false} PaidEarnings(n: Node, width: nat, path: seq<nat>, view: View, k: nat)
    requires k <= |n.children|
    requires forall i :: 0 <= i < k ==> Width(n, width, path, view, i) == Earned(n, width, path, view, i)
    ensures Earnings(n, width, path, view, k) == Consumed(n, width, path, view, k)
  {
    if k == 0 {
    } else {
      PaidEarnings(n, width, path, view, k - 1);
    }
  }

  /**
    Whatever is empty, also under the cursor: no share is clamped if and only if the shares and the cursor's column
    fit the width.
   */
  lemma ShareExactIff(n: Node, width: nat, path: seq<nat>, view: View)
    requires Sum(n.children) <= n.samples && 0 < width < U16
    ensures (forall i :: 0 <= i < |n.children| ==> Width(n, width, path, view, i) == Earned(n, width, path, view, i))
            <==> Earnings(n, width, path, view, |n.children|) <= width
  {
    hide Width, Earned, Earnings, Sum;
    if Earnings(n, width, path, view, |n.children|) <= width {
      EarningsPaid(n, width, path, view, |n.children|);
    }
    if forall i :: 0 <= i < |n.children| ==> Width(n, width, path, view, i) == Earned(n, width, path, view, i) {
      PaidEarnings(n, width, path, view, |n.children|);
    }
  }

  // ---- The whole layout ----

  /** The frames on the way down, as far as it leads, have samples. */
  predicate Sampled(n: Node, rest: seq<nat>)
    decreases |rest|
  {
    rest == [] || rest[0] >= |n.children|
    || (n.children[rest[0]].samples > 0 && Sampled(n.children[rest[0]], rest[1..]))
  }

  lemma {:induction false} PositiveSampled(n: Node, rest: seq<nat>)
    requires Positive(n)
    ensures Sampled(n, rest)
    decreases |rest|
  {
    if rest == [] || rest[0] >= |n.children| {
    } else {
      PositiveSampled(n.children[rest[0]], rest[1..]);
    }
  }

  /** A subtree of a valid tree with samples along the cursor. */
  ghost predicate Lit(n: Node, path: seq<nat>, view: View) {
    Valid(n) && (path <= view.cursor ==> Sampled(n, view.cursor[|path|..]))
  }

  lemma LitFits(n: Node, path: seq<nat>, view: View)
    requires Lit(n, path, view)
    ensures Fits(n, path, view)
    ensures forall i :: 0 <= i < |n.children| ==> Lit(n.children[i], path + [i], view)
  {
    forall i | 0 <= i < |n.children|
      ensures path + [i] <= view.cursor ==> n.children[i].samples > 0
      ensures Lit(n.children[i], path + [i], view)
    {
      if path + [i] <= view.cursor {
        assert view.cursor[|path|] == (path + [i])[|path|] == i;
        assert view.cursor[|path|..][1..] == view.cursor[|path + [i]|..];
      }
    }
  }

  lemma WidthAtMost(n: Node, width: nat, path: seq<nat>, view: View, k: nat)
    requires k < |n.children|
    ensures Consumed(n, width, path, view, k) + Width(n, width, path, view, k) <= width
  {
    assert Consumed(n, width, path, view, k + 1) ==
           Consumed(n, width, path, view, k) + Width(n, width, path, view, k);
  }

  /**
    Samples are needed: a frame without any, after siblings that take every column, is not drawn even under the
    cursor. Any root and first child of equal positive counts show it, at any width.
   */
  lemma EmptyFrameHidden(root: Node, width: nat, limit: nat)
    requires Valid(root) && |root.children| == 2 && root.children[1] == Node(root.children[1].name, 0, [])
    requires root.children[0].samples == root.samples > 0 && root.children[0].children == [] && 0 < width < U16 &&
             limit >= 2
    ensures forall c :: c in LayoutOf(root, width, limit, [1]).cells ==> c.path != [1]
    ensures LayoutOf(root, width, limit, [1]).hidden == 1
  {
    var view := View(limit, [1]);
    var n := root;
    CastExact(n.samples, width, Total(n));
    CastExact(0, width, Total(n));
    WholeShare(n.samples, width);
    EmptyShare(width, n.samples);
    assert [] + [0] == [0] && [] + [1] == [1];
    assert ([0])[0] == 0 && view.cursor[0] == 1;
    assert Width(n, width, [], view, 0) == width;
    assert Consumed(n, width, [], view, 1) == width;
    assert Width(n, width, [], view, 1) == 0;
    KidsNext(n, 0, width, 0, [], view, 2);
    KidsNext(n, 0, width, 0, [], view, 1);
    KidsNone(n, 0, width, 0, [], view);
    assert Place(n.children[0], 0, width, 1, [0], view) == Layout([Self(n.children[0], 0, width, 1, [0])], 0);
    assert NarrowFrames(n, width, [], view, 0) == 0 && NarrowFrames(n, width, [], view, 1) == 0;
  }

  lemma WholeShare(s: nat, w: nat)
    requires s > 0
    ensures Floor(s, w, s) == w
  {
    FloorBound(s, w, s);
    assert s * w == w * s;
    Cancel(Floor(s, w, s), w, s);
    CancelStrict(w, Floor(s, w, s) + 1, s);
  }

  lemma EmptyShare(w: nat, d: nat)
    requires d > 0
    ensures Floor(0, w, d) == 0
  {
  }

  // ---- What each drawn width is worth ----

  /** A cell is worth its share of the frame it hangs under. */
  predicate Worth(p: Placed, c: Placed, view: View) {
    p.folded == 0 &&
    if c.folded == 0 then
      && |c.path| > 0 && p.path == c.path[..|c.path| - 1] && p.depth + 1 == c.depth
      && (var f := Floor(c.samples, p.width, Max(p.samples, 1));
          c.width == if f == 0 && c.path <= view.cursor then 1 else f)
    else
      && p.path == c.path && p.depth + 1 == c.depth
      && p.x <= c.x < p.x + p.width
      && c.width == Min(Max(Floor(c.samples, p.width, Max(p.samples, 1)), 1), p.x + p.width - c.x)
  }

  ghost predicate AllWorth(cells: seq<Placed>, under: seq<Placed>, view: View) {
    forall c :: c in cells ==> exists p :: p in under && Worth(p, c, view)
  }

  lemma {:induction false} PlaceWorth(n: Node, x: nat, width: nat, depth: nat, path: seq<nat>, view: View)
    requires Lit(n, path, view) && 0 < width < U16
    ensures var cells := Place(n, x, width, depth, path, view).cells;
            cells != [] && cells[0] == Self(n, x, width, depth, path) && AllWorth(cells[1..], cells, view)
    decreases n, 1, 0
  {
    if Expanded(n, width, depth, view) {
      var self := Self(n, x, width, depth, path);
      var kids := PlaceKids(n, x, width, depth, path, view, |n.children|).cells;
      var tail := Tail(n, x, width, depth, path, view).cells;
      hide PlaceKids, Tail, AllWorth;
      KidsWorth(n, x, width, depth, path, view, |n.children|);
      TailWorth(n, x, width, depth, path, view);
      WorthAppend(self, kids, tail, view);
      assert Place(n, x, width, depth, path, view).cells == [self] + (kids + tail);
    } else {
      NothingWorth(Place(n, x, width, depth, path, view).cells, view);
    }
  }

  lemma NothingWorth(under: seq<Placed>, view: View)
    ensures AllWorth([], under, view)
  {
  }

  lemma {:induction false} NarrowWithin(n: Node, width: nat, path: seq<nat>, view: View, k: nat)
    requires k <= |n.children|
    ensures Narrow(n, width, path, view, k) <= Sum(n.children[..k])
  {
    hide Width;
    if k == 0 {
    } else {
      NarrowWithin(n, width, path, view, k - 1);
      SumTake(n.children, k - 1);
    }
  }

  /** A stand-in is worth the share of what it folds or a column, within what is left of its frame. */
  lemma TailWorth(n: Node, x: nat, width: nat, depth: nat, path: seq<nat>, view: View)
    requires 0 < width < U16 && Sum(n.children) <= n.samples
    ensures forall c :: c in Tail(n, x, width, depth, path, view).cells ==>
            Worth(Self(n, x, width, depth, path), c, view)
  {
    var k := |n.children|;
    NarrowWithin(n, width, path, view, k);
    assert n.children[..k] == n.children;
    hide Narrow, NarrowFrames, Consumed;
    CastExact(Narrow(n, width, path, view, k), width, Total(n));
    hide Floor, Cast;
  }

  lemma WorthAppend(self: Placed, kids: seq<Placed>, tail: seq<Placed>, view: View)
    requires AllWorth(kids, [self] + kids, view)
    requires forall c :: c in tail ==> Worth(self, c, view)
    ensures AllWorth(kids + tail, [self] + (kids + tail), view)
  {
    hide Worth;
    var all := [self] + (kids + tail);
    forall c | c in kids + tail ensures exists p :: p in all && Worth(p, c, view) {
      if c in kids {
        var p :| p in [self] + kids && Worth(p, c, view);
        assert p in all;
      } else {
        assert self in all;
      }
    }
  }

  /** A drawn child is worth what it earns of its parent. */
  lemma ChildWorth(n: Node, x: nat, width: nat, depth: nat, path: seq<nat>, view: View, j: nat)
    requires Fits(n, path, view) && 0 < width < U16 && j < |n.children| && Width(n, width, path, view, j) > 0
    ensures Worth(Self(n, x, width, depth, path),
                  Self(n.children[j], x + Consumed(n, width, path, view, j), Width(n, width, path, view, j),
                       depth + 1, path + [j]), view)
  {
    hide Width, Budget, Floor, Fits;
    ShareExact(n, width, path, view, j + 1);
    assert (path + [j])[..|path|] == path;
  }

  lemma {:induction false} KidsWorth(n: Node, x: nat, width: nat, depth: nat, path: seq<nat>, view: View, k: nat)
    requires Lit(n, path, view) && 0 < width < U16 && k <= |n.children|
    ensures var kids := PlaceKids(n, x, width, depth, path, view, k).cells;
            AllWorth(kids, [Self(n, x, width, depth, path)] + kids, view)
    decreases n, 0, k
  {
    hide Place, PlaceKids, Width, Consumed, AllWorth, Worth, Self, Lit, Fits;
    var self := Self(n, x, width, depth, path);
    if k == 0 {
      KidsNone(n, x, width, depth, path, view);
      NothingWorth([self] + [], view);
    } else {
      KidsWorth(n, x, width, depth, path, view, k - 1);
      KidsNext(n, x, width, depth, path, view, k);
      var x', w := x + Consumed(n, width, path, view, k - 1), Width(n, width, path, view, k - 1);
      if w > 0 {
        LitFits(n, path, view);
        WidthAtMost(n, width, path, view, k - 1);
        PlaceWorth(n.children[k - 1], x', w, depth + 1, path + [k - 1], view);
        ChildWorth(n, x, width, depth, path, view, k - 1);
        WorthConcat(self, PlaceKids(n, x, width, depth, path, view, k - 1).cells,
                    Place(n.children[k - 1], x', w, depth + 1, path + [k - 1], view).cells, view);
      }
    }
  }

  lemma KidsNone(n: Node, x: nat, width: nat, depth: nat, path: seq<nat>, view: View)
    ensures PlaceKids(n, x, width, depth, path, view, 0).cells == []
  {
  }

  lemma WorthConcat(self: Placed, a: seq<Placed>, b: seq<Placed>, view: View)
    requires AllWorth(a, [self] + a, view) && b != [] && AllWorth(b[1..], b, view) && Worth(self, b[0], view)
    ensures AllWorth(a + b, [self] + (a + b), view)
  {
    var all := [self] + (a + b);
    forall c | c in a + b ensures exists p :: p in all && Worth(p, c, view) {
      if c in a {
        var p :| p in [self] + a && Worth(p, c, view);
        assert p in all;
      } else if c == b[0] {
        assert self in all;
      } else {
        assert c in b[1..];
        var p :| p in b && Worth(p, c, view);
        assert p in all;
      }
    }
  }

  /**
    With samples along the cursor, whatever is empty elsewhere, every cell but the root's has exactly its floor share,
    one column under the cursor, or a stand-in's share.
   */
  lemma LayoutWorth(root: Node, width: nat, limit: nat, cursor: seq<nat>)
    requires Valid(root) && Sampled(root, cursor) && width < U16
    ensures var cells := LayoutOf(root, width, limit, cursor).cells;
            cells != [] ==>
              && cells[0] == Self(root, 0, width, 0, [])
              && AllWorth(cells[1..], cells, View(limit, cursor))
  {
    if width > 0 && limit > 0 && root.samples > 0 {
      PlaceWorth(root, 0, width, 0, [], View(limit, cursor));
    }
  }

  // ---- What a cell shows ----

  lemma {:induction false} ReachesSnoc(n: Node, at: seq<nat>, i: nat)
    requires Reaches(n, at) && i < |NodeAt(n, at).children|
    ensures Reaches(n, at + [i]) && NodeAt(n, at + [i]) == NodeAt(n, at).children[i]
  {
    if at == [] {
      assert [] + [i] == [i];
      assert [i][1..] == [];
    } else {
      assert (at + [i])[1..] == at[1..] + [i];
      ReachesSnoc(n.children[at[0]], at[1..], i);
    }
  }

  /** A cell shows the frame at its path; a stand-in hangs under it, for some of its children. */
  predicate Shows(root: Node, c: Placed) {
    && Reaches(root, c.path)
    && var n := NodeAt(root, c.path);
       if c.folded == 0 then c.title == Frame(n.name) && c.samples == n.samples
       else c.title == StandIn && c.folded <= |n.children|
  }

  lemma {:induction false} PlaceShows(root: Node, n: Node, x: nat, width: nat, depth: nat, path: seq<nat>, view: View)
    requires Reaches(root, path) && NodeAt(root, path) == n
    ensures forall c :: c in Place(n, x, width, depth, path, view).cells ==> Shows(root, c)
    decreases n, 1, 0
  {
    if Expanded(n, width, depth, view) {
      KidsShow(root, n, x, width, depth, path, view, |n.children|);
      NarrowAtMost(n, width, path, view, |n.children|);
      hide PlaceKids, Consumed, Narrow, NarrowFrames;
    }
  }

  lemma {:induction false} NarrowAtMost(n: Node, width: nat, path: seq<nat>, view: View, k: nat)
    requires k <= |n.children|
    ensures NarrowFrames(n, width, path, view, k) <= k
  {
    if k == 0 {
    } else {
      NarrowAtMost(n, width, path, view, k - 1);
    }
  }

  lemma {:induction false} KidsShow(root: Node, n: Node, x: nat, width: nat, depth: nat, path: seq<nat>, view: View,
                                    k: nat)
    requires Reaches(root, path) && NodeAt(root, path) == n && k <= |n.children|
    ensures forall c :: c in PlaceKids(n, x, width, depth, path, view, k).cells ==> Shows(root, c)
    decreases n, 0, k
  {
    hide Place, Width, Shows;
    if k == 0 {
      KidsNone(n, x, width, depth, path, view);
    } else {
      KidsNext(n, x, width, depth, path, view, k);
      hide PlaceKids, Consumed;
      KidsShow(root, n, x, width, depth, path, view, k - 1);
      ReachesSnoc(root, path, k - 1);
      PlaceShows(root, n.children[k - 1], x + Consumed(n, width, path, view, k - 1), Width(n, width, path, view, k - 1),
                 depth + 1, path + [k - 1], view);
    }
  }

  /** On every tree each cell carries the name and the samples of the frame at its path. */
  lemma LayoutShows(root: Node, width: nat, limit: nat, cursor: seq<nat>)
    ensures forall c :: c in LayoutOf(root, width, limit, cursor).cells ==> Shows(root, c)
  {
    PlaceShows(root, root, 0, width, 0, [], View(limit, cursor));
  }

  // ---- Every child of an expanded frame is drawn, folded or counted as hidden ----

  /** Children of a drawn frame that the layout had to account for. */
  function Fanout(root: Node, c: Placed, view: View): nat {
    if c.folded == 0 && c.depth + 1 < view.limit && c.width > 0 && Reaches(root, c.path)
    then |NodeAt(root, c.path).children| else 0
  }

  function Expected(root: Node, cells: seq<Placed>, view: View): nat {
    if cells == [] then 0 else Fanout(root, cells[0], view) + Expected(root, cells[1..], view)
  }

  function DrawnCount(cells: seq<Placed>): nat {
    if cells == [] then 0 else (if cells[0].folded == 0 then 1 else 0) + DrawnCount(cells[1..])
  }

  function FoldedCount(cells: seq<Placed>): nat {
    if cells == [] then 0 else cells[0].folded + FoldedCount(cells[1..])
  }

  function Surplus(root: Node, cells: seq<Placed>, view: View): int {
    Expected(root, cells, view) - DrawnCount(cells) - FoldedCount(cells)
  }

  lemma {:induction false} SurplusConcat(root: Node, a: seq<Placed>, b: seq<Placed>, view: View)
    ensures Surplus(root, a + b, view) == Surplus(root, a, view) + Surplus(root, b, view)
  {
    if a == [] { assert a + b == b; } else {
      assert (a + b)[1..] == a[1..] + b;
      SurplusConcat(root, a[1..], b, view);
    }
  }

  lemma SurplusOne(root: Node, c: Placed, view: View)
    ensures Surplus(root, [c], view) == Fanout(root, c, view) - (if c.folded == 0 then 1 else 0) - c.folded
  {
    var rest: seq<Placed> := [];
    assert [c][1..] == rest && [c][0] == c;
    assert Expected(root, rest, view) == 0 && DrawnCount(rest) == 0 && FoldedCount(rest) == 0;
    assert DrawnCount([c]) == (if c.folded == 0 then 1 else 0) + DrawnCount(rest);
    assert FoldedCount([c]) == c.folded + FoldedCount(rest);
  }

  lemma {:induction false} PlaceAccounts(root: Node, n: Node, x: nat, width: nat, depth: nat, path: seq<nat>,
                                         view: View)
    requires Reaches(root, path) && NodeAt(root, path) == n
    ensures var l := Place(n, x, width, depth, path, view); Surplus(root, l.cells, view) == l.hidden - 1
    decreases n, 1, 0
  {
    var self := Self(n, x, width, depth, path);
    SurplusOne(root, self, view);
    if Expanded(n, width, depth, view) {
      var k := |n.children|;
      var kids, tail := PlaceKids(n, x, width, depth, path, view, k), Tail(n, x, width, depth, path, view);
      KidsAccount(root, n, x, width, depth, path, view, k);
      SurplusConcat(root, [self] + kids.cells, tail.cells, view);
      SurplusConcat(root, [self], kids.cells, view);
      if tail.cells != [] {
        SurplusOne(root, tail.cells[0], view);
        assert tail.cells == [tail.cells[0]];
      }
    }
  }

  lemma {:induction false} KidsAccount(root: Node, n: Node, x: nat, width: nat, depth: nat, path: seq<nat>,
                                       view: View, k: nat)
    requires Reaches(root, path) && NodeAt(root, path) == n && k <= |n.children|
    ensures var l := PlaceKids(n, x, width, depth, path, view, k);
            Surplus(root, l.cells, view) == l.hidden - k + NarrowFrames(n, width, path, view, k)
    decreases n, 0, k
  {
    hide Surplus, Width, Place;
    if k == 0 {
      NoSurplus(root, view);
    } else {
      KidsNext(n, x, width, depth, path, view, k);
      KidsAccount(root, n, x, width, depth, path, view, k - 1);
      hide PlaceKids, Consumed;
      var w := Width(n, width, path, view, k - 1);
      if w > 0 {
        var x' := x + Consumed(n, width, path, view, k - 1);
        ReachesSnoc(root, path, k - 1);
        PlaceAccounts(root, n.children[k - 1], x', w, depth + 1, path + [k - 1], view);
        SurplusConcat(root, PlaceKids(n, x, width, depth, path, view, k - 1).cells,
                      Place(n.children[k - 1], x', w, depth + 1, path + [k - 1], view).cells, view);
      }
    }
  }

  lemma NoSurplus(root: Node, view: View)
    ensures Surplus(root, [], view) == 0
  {
  }

  /** Children of expanded frames = frames drawn below the root + folded + hidden, on every tree. */
  lemma LayoutAccounts(root: Node, width: nat, limit: nat, cursor: seq<nat>)
    requires width > 0 && limit > 0 && root.samples > 0
    ensures var l := LayoutOf(root, width, limit, cursor);
            Expected(root, l.cells, View(limit, cursor)) == DrawnCount(l.cells) - 1 + FoldedCount(l.cells) + l.hidden
  {
    PlaceAccounts(root, root, 0, width, 0, [], View(limit, cursor));
  }
}
