/** The icicle a comparison is drawn on: the layout of the union of two captures, without a cursor. */
module ComparisonLayout {
  import opened Wrappers
  import opened Numbers
  import opened Ordering
  import opened StackTree
  import opened CanonicalTree
  import opened Comparison
  import opened ComparisonMeaning
  import opened Union
  import opened Icicle
  import opened IcicleShares
  import opened IcicleHidden

  /** Shares and hidden frames of the drawn comparison, for any two valid captures, imported ones included. */
  lemma ComparisonDrawn(current: Capture, baseline: Capture, width: nat, limit: nat)
    requires Valid(current.root) && Valid(baseline.root) && width < U16
    ensures var u := ComparisonUnion(current, baseline);
            var l := LayoutOf(u, width, limit, []);
            && (forall c :: c in l.cells ==> Shows(u, c))
            && (l.cells != [] ==> AllWorth(l.cells[1..], l.cells, View(limit, [])))
            && l.hidden == Lost(u, width, limit)
  {
    var u := ComparisonUnion(current, baseline);
    UnionMeaning(current, baseline, []);
    hide LayoutOf, AllWorth, ComparisonUnion;
    LayoutShows(u, width, limit, []);
    LayoutWorth(u, width, limit, []);
    HiddenWithoutCursor(u, width, limit);
  }

  // ---- Which change a cell shows ----

  /** The names along a path of child indices, without the root's. */
  function Trail(n: Node, at: seq<nat>): Path
    requires Reaches(n, at)
    decreases |at|
  {
    if at == [] then []
    else
      var child := n.children[at[0]];
      [child.name] + Trail(child, at[1..])
  }

  lemma {:induction false} TrailLeads(n: Node, at: seq<nat>)
    requires Valid(n) && Reaches(n, at)
    ensures At(n, Trail(n, at)) == Some(NodeAt(n, at)) && |Trail(n, at)| == |at|
    decreases |at|
  {
    if at == [] {
    } else {
      var child := n.children[at[0]];
      FindIs(n.children, child.name, at[0]);
      TrailLeads(child, at[1..]);
      assert Trail(n, at)[1..] == Trail(child, at[1..]);
    }
  }

  /** The names along a drawn cell's path are the path of one change of the comparison, and of no other. */
  lemma CellHasChange(current: Capture, baseline: Capture, mode: Mode, width: nat, limit: nat, c: Placed)
    requires Usable(current, baseline) && c.folded == 0 && c.path != []
    requires c in LayoutOf(ComparisonUnion(current, baseline), width, limit, []).cells
    ensures var u := ComparisonUnion(current, baseline); Shows(u, c)
    ensures var names := Trail(ComparisonUnion(current, baseline), c.path);
            var changes := Compared(current, baseline, mode).value.changes;
            var b, a := Samples(baseline.root, names), Samples(current.root, names);
            forall x: Change :: x in changes && x.path == names <==>
                        x == Change(names, b, a, Delta(ScaleOf(current, baseline, mode), b, a))
  {
    var u := ComparisonUnion(current, baseline);
    LayoutShows(u, width, limit, []);
    assert Compared(current, baseline, mode).Ok?;
    hide LayoutOf, ComparisonUnion, Compared, Delta;
    var names := Trail(u, c.path);
    UnionMeaning(current, baseline, names);
    TrailLeads(u, c.path);
    forall x: Change | x.path == names
      ensures x in Compared(current, baseline, mode).value.changes <==>
              && x.before == Samples(baseline.root, names) && x.after == Samples(current.root, names)
              && x.delta == Delta(ScaleOf(current, baseline, mode), x.before, x.after)
    {
      CompareMeaning(current, baseline, mode, x);
    }
  }

  // ---- What is hidden ----

  /** Between captures without empty frames, as recorded ones are, a comparison hides nothing. */
  lemma RecordedNothingHidden(current: Capture, baseline: Capture, width: nat, limit: nat)
    requires Valid(current.root) && Valid(baseline.root) && width < U16
    requires Positive(current.root) && Positive(baseline.root)
    ensures LayoutOf(ComparisonUnion(current, baseline), width, limit, []).hidden == 0
  {
    var s := Roots(current, baseline);
    UnionIsJoin(s, "comparison");
    JoinValid(s, "comparison");
    JoinPositive(s, "comparison");
    hide LayoutOf;
    NoCursorNothingHidden(ComparisonUnion(current, baseline), width, limit);
  }

  lemma LeafJoin(s: Side, name: string)
    requires Kids(s.before) == [] && Kids(s.after) == []
    ensures Join(s, name) == Node(name, Max(OwnOf(s.before), OwnOf(s.after)), [])
  {
    assert Keys([], []) == [];
    assert JoinKids(s) == [];
  }

  /** An imported baseline whose second frame has no samples, against a capture without it: that frame is hidden. */
  lemma ImportedFrameHidden(current: Capture, baseline: Capture, x: Node, y: Node, width: nat, limit: nat)
    requires x.samples > 0 && x.children == [] && y.samples == 0 && y.children == [] && x.name != y.name
    requires current.root.children == [x] && current.root.samples == x.samples
    requires baseline.root.children == [x, y] && baseline.root.samples == x.samples
    requires 0 < width < U16 && limit >= 2
    ensures Valid(current.root) && Valid(baseline.root)
    ensures LayoutOf(ComparisonUnion(current, baseline), width, limit, []).hidden == 1
  {
    var s := Roots(current, baseline);
    Leaves(x, y);
    UnionIsJoin(s, "comparison");
    JoinedLeaves(s, x, y);
    JoinValid(s, "comparison");
    hide LayoutOf, Join, UnionOf;
    EmptySiblingHidden(ComparisonUnion(current, baseline), width, limit);
  }

  lemma Leaves(x: Node, y: Node)
    requires x.children == [] && y.children == [] && x.name != y.name && y.samples == 0
    ensures Valid(x) && Valid(y) && Sum([x]) == x.samples && Sum([x, y]) == x.samples
    ensures UniqueNames([x]) && UniqueNames([x, y])
  {
    var none: seq<Node> := [];
    assert [x][1..] == none && [y][1..] == none && [x, y][1..] == [y];
  }

  lemma JoinedLeaves(s: Side, x: Node, y: Node)
    requires x.samples > 0 && x.children == [] && y.samples == 0 && y.children == [] && x.name != y.name
    requires s.after.Some? && s.after.value.children == [x] && s.after.value.samples == x.samples
    requires s.before.Some? && s.before.value.children == [x, y] && s.before.value.samples == x.samples
    ensures Join(s, "comparison") == Node("comparison", x.samples, [x, y])
  {
    Leaves(x, y);
    var u := Join(s, "comparison");
    JoinKidsUnique(s);
    SortedSiblings(JoinKids(s));
    JoinOwn(s, "comparison");
    JoinValid(s, "comparison");
    HeavierOrder();
    hide Join, JoinKids, Assembled;
    forall c ensures c in u.children <==> c in [x, y] { JoinedLeaf(s, x, y, c); }
    IncreasingUnique(Heavier, u.children, [x, y]);
  }

  /** A leaf by the name of one of two. */
  function Either(x: Node, y: Node, name: string): Node { if name == x.name then x else y }

  lemma LeafPair(s: Side, x: Node, y: Node, k: nat)
    requires x.children == [] && y.samples == 0 && y.children == [] && x.name != y.name
    requires ValidSide(s) && Kids(s.before) == [x, y] && Kids(s.after) == [x] && k < |JoinOf(s)|
    ensures var key := Keys([x, y], [x])[k];
            key in [x.name, y.name] && JoinKids(s)[k] == Either(x, y, key)
  {
    hide Keys, Join, Pairs;
    var key := Keys([x, y], [x])[k];
    KeysOrdered([x, y], [x]);
    assert key in Keys([x, y], [x]);
    PairsSides([x, y], [x], k);
    JoinKid(s, k);
    LeafJoin(JoinOf(s)[k], key);
  }

  lemma JoinedLeaf(s: Side, x: Node, y: Node, c: Node)
    requires x.children == [] && y.samples == 0 && y.children == [] && x.name != y.name
    requires ValidSide(s) && Kids(s.before) == [x, y] && Kids(s.after) == [x]
    ensures c in Join(s, "comparison").children <==> c in [x, y]
  {
    hide Keys, Pairs, ValidSide, JoinKids;
    var keys := Keys([x, y], [x]);
    KeysOrdered([x, y], [x]);
    SortMembers(Heavier, JoinKids(s));
    forall k | 0 <= k < |keys| ensures keys[k] in [x.name, y.name] && JoinKids(s)[k] == Either(x, y, keys[k]) {
      LeafPair(s, x, y, k);
    }
    assert x in [x, y] && y in [x, y];
    if c in [x, y] {
      assert c.name in Names([x, y]);
      var k :| 0 <= k < |keys| && keys[k] == c.name;
      assert JoinKids(s)[k] == c;
    }
  }
}
