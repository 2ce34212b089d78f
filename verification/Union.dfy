/** The union tree a comparison is drawn on. */
module Union {
  import opened Wrappers
  import opened Numbers
  import opened Ordering
  import opened StackTree
  import opened CanonicalTree
  import opened Comparison
  import opened ComparisonMeaning

  function Assembled(s: Side, name: string, kids: seq<Node>): (n: Node)
    ensures n.name == name
  {
    Node(name, Max(OwnOf(s.before), OwnOf(s.after)) + Sum(kids), kids)
  }

  /** The general join: every child name once, own count the larger of both sides, heavier siblings first. */
  function Join(s: Side, name: string): (n: Node)
    ensures n.name == name
    decreases SideSize(s), 1
  {
    Assembled(s, name, Sort(Heavier, JoinKids(s)))
  }

  function JoinKids(s: Side): (r: seq<Node>)
    ensures |r| == |JoinOf(s)|
    decreases SideSize(s), 0
  {
    seq(|JoinOf(s)|, k requires 0 <= k < |JoinOf(s)| =>
      PairsSmaller(s, k); Join(JoinOf(s)[k], NameOf(JoinOf(s)[k])))
  }

  /** The union as it is computed: equal subtrees are cloned and sorted, chains skip the join table. */
  function UnionOf(s: Side, name: string): Node
    decreases SideSize(s), 1
  {
    if s.before.Some? && s.before == s.after then
      SortTree(Node(name, s.after.value.samples, s.after.value.children))
    else
      Assembled(s, name, Sort(Heavier, UnionKids(s)))
  }

  function UnionKids(s: Side): (r: seq<Node>)
    ensures |r| == |JoinOf(s)|
    decreases SideSize(s), 0
  {
    var b, a := Kids(s.before), Kids(s.after);
    if Chain(b, a) then
      SingleJoin(b, a);
      if b == [] && a == [] then []
      else
        var t := Side(Only(b), Only(a));
        assert t == JoinOf(s)[0];
        PairsSmaller(s, 0);
        [UnionOf(t, NameOf(t))]
    else
      seq(|JoinOf(s)|, k requires 0 <= k < |JoinOf(s)| =>
        PairsSmaller(s, k); UnionOf(JoinOf(s)[k], NameOf(JoinOf(s)[k])))
  }

  lemma UnionKid(s: Side, k: nat)
    requires k < |JoinOf(s)|
    ensures UnionKids(s)[k] == UnionOf(JoinOf(s)[k], NameOf(JoinOf(s)[k]))
  {
    if Chain(Kids(s.before), Kids(s.after)) { SingleJoin(Kids(s.before), Kids(s.after)); }
  }

  // ---- The joined children ----

  lemma JoinKid(s: Side, k: nat)
    requires ValidSide(s) && k < |JoinOf(s)|
    ensures JoinKids(s)[k] == Join(JoinOf(s)[k], Keys(Kids(s.before), Kids(s.after))[k])
    ensures JoinKids(s)[k].name == Keys(Kids(s.before), Kids(s.after))[k]
  {
    JoinSides(s, k);
  }

  lemma JoinKidsUnique(s: Side)
    requires ValidSide(s)
    ensures UniqueNames(JoinKids(s))
  {
    KeysOrdered(Kids(s.before), Kids(s.after));
    BeforeStrictTotal();
    var r := JoinKids(s);
    forall i, j | 0 <= i < j < |r| ensures r[i].name != r[j].name {
      JoinKid(s, i);
      JoinKid(s, j);
    }
  }

  lemma JoinOwn(s: Side, name: string)
    ensures Own(Join(s, name)) == Max(OwnOf(s.before), OwnOf(s.after))
  {
  }

  lemma {:induction false} JoinValid(s: Side, name: string)
    requires ValidSide(s)
    ensures Valid(Join(s, name))
    decreases SideSize(s)
  {
    JoinKidsUnique(s);
    SortedSiblings(JoinKids(s));
    forall c | c in Join(s, name).children ensures Valid(c) {
      var k :| 0 <= k < |JoinKids(s)| && JoinKids(s)[k] == c;
      JoinSides(s, k);
      JoinKid(s, k);
      JoinValid(JoinOf(s)[k], c.name);
    }
  }

  /** The union is sorted: heavier siblings first at every frame. */
  lemma {:induction false} JoinOrdered(s: Side, name: string)
    requires ValidSide(s)
    ensures HeaviestFirst(Join(s, name))
    decreases SideSize(s)
  {
    JoinKidsUnique(s);
    SortedSiblings(JoinKids(s));
    var ds := Join(s, name).children;
    forall i, j | 0 <= i < j < |ds|
      ensures ds[i].samples > ds[j].samples || (ds[i].samples == ds[j].samples && Before(ds[i].name, ds[j].name))
    {
      assert Heavier(ds[i], ds[j]);
    }
    forall c | c in ds ensures HeaviestFirst(c) {
      var k :| 0 <= k < |JoinKids(s)| && JoinKids(s)[k] == c;
      JoinSides(s, k);
      JoinKid(s, k);
      JoinOrdered(JoinOf(s)[k], c.name);
    }
  }

  ghost predicate PositiveSide(s: Side) {
    (s.before.Some? ==> Positive(s.before.value)) && (s.after.Some? ==> Positive(s.after.value))
  }

  /** A child of either side is in the join, in a pair with that side. */
  lemma PairOf(s: Side, c: Node) returns (k: nat)
    requires ValidSide(s) && PositiveSide(s) && (c in Kids(s.before) || c in Kids(s.after))
    ensures k < |JoinOf(s)| && JoinOf(s)[k].before.Some? == (c.name in Names(Kids(s.before)))
    ensures JoinOf(s)[k].after.Some? == (c.name in Names(Kids(s.after)))
  {
    var b, a := Kids(s.before), Kids(s.after);
    KeysOrdered(b, a);
    assert c.name in Names(b) || c.name in Names(a);
    k :| 0 <= k < |Keys(b, a)| && Keys(b, a)[k] == c.name;
    PairsSides(b, a, k);
  }

  lemma SideKids(s: Side, k: nat)
    requires ValidSide(s) && PositiveSide(s) && k < |JoinOf(s)|
    ensures PositiveSide(JoinOf(s)[k])
    ensures CountOf(JoinOf(s)[k].before) > 0 || CountOf(JoinOf(s)[k].after) > 0
  {
    PairsSides(Kids(s.before), Kids(s.after), k);
  }

  lemma {:induction false} SumPositive(cs: seq<Node>, c: Node)
    requires c in cs
    ensures Sum(cs) >= c.samples
  {
    if c == cs[0] {
    } else {
      SumPositive(cs[1..], c);
    }
  }

  /** A frame with samples on either side has samples in the join, its own or below. */
  lemma {:induction false} JoinWeighs(s: Side, name: string)
    requires ValidSide(s) && PositiveSide(s) && (CountOf(s.before) > 0 || CountOf(s.after) > 0)
    ensures Join(s, name).samples > 0
    decreases SideSize(s)
  {
    var b, a := Kids(s.before), Kids(s.after);
    if OwnOf(s.before) == 0 && OwnOf(s.after) == 0 {
      assert b != [] || a != [];
      var k := PairOf(s, if b != [] then b[0] else a[0]);
      var t := JoinOf(s)[k];
      SideKids(s, k);
      JoinSides(s, k);
      JoinKid(s, k);
      JoinWeighs(t, NameOf(t));
      SumSort(JoinKids(s));
      SumPositive(JoinKids(s), JoinKids(s)[k]);
    }
  }

  /** Without empty frames on either side there are none in the join. */
  lemma {:induction false} JoinPositive(s: Side, name: string)
    requires ValidSide(s) && PositiveSide(s)
    ensures Positive(Join(s, name))
    decreases SideSize(s)
  {
    SortMembers(Heavier, JoinKids(s));
    forall c | c in Join(s, name).children ensures c.samples > 0 && Positive(c) {
      var k :| 0 <= k < |JoinKids(s)| && JoinKids(s)[k] == c;
      JoinSides(s, k);
      JoinKid(s, k);
      SideKids(s, k);
      JoinWeighs(JoinOf(s)[k], c.name);
      JoinPositive(JoinOf(s)[k], c.name);
    }
  }

  /** A lookup in the join goes through the join of that child. */
  lemma JoinLookup(s: Side, name: string, k: nat, q: Path)
    requires ValidSide(s) && k < |JoinOf(s)|
    ensures var key := Keys(Kids(s.before), Kids(s.after))[k];
            At(Join(s, name), [key] + q) == At(Join(JoinOf(s)[k], key), q)
  {
    var key := Keys(Kids(s.before), Kids(s.after))[k];
    JoinKid(s, k);
    JoinKidsUnique(s);
    SortedSiblings(JoinKids(s));
    var cs := Join(s, name).children;
    assert JoinKids(s)[k] in cs;
    var j :| 0 <= j < |cs| && cs[j] == JoinKids(s)[k];
    FindIs(cs, key, j);
    assert ([key] + q)[1..] == q;
  }

  lemma JoinKidNames(s: Side, c: Node)
    requires ValidSide(s) && c in JoinKids(s)
    ensures c.name in Keys(Kids(s.before), Kids(s.after))
  {
    var k :| 0 <= k < |JoinKids(s)| && JoinKids(s)[k] == c;
    JoinKid(s, k);
  }

  lemma JoinMisses(s: Side, name: string, q: Path)
    requires ValidSide(s) && q != [] && q[0] !in Keys(Kids(s.before), Kids(s.after))
    ensures At(Join(s, name), q).None?
  {
    SortMembers(Heavier, JoinKids(s));
    var cs := Join(s, name).children;
    forall j | 0 <= j < |cs| ensures cs[j].name != q[0] {
      assert cs[j] in cs;
      JoinKidNames(s, cs[j]);
    }
    FindIs(cs, q[0], |cs|);
  }

  /** The union has exactly the paths of both sides, each with the larger own count. */
  lemma {:induction false} JoinMeaning(s: Side, name: string, p: Path)
    requires ValidSide(s) && (s.before.Some? || s.after.Some?)
    ensures At(Join(s, name), p).Some? <==> Present(s, p)
    ensures OwnAt(Join(s, name), p) == Max(OwnOf(Lookup(s.before, p)), OwnOf(Lookup(s.after, p)))
    decreases |p|
  {
    var keys := Keys(Kids(s.before), Kids(s.after));
    if p == [] {
      JoinOwn(s, name);
    } else if p[0] in keys {
      HeadTail([], p);
      var k :| 0 <= k < |keys| && keys[k] == p[0];
      JoinSides(s, k);
      LookupThroughJoin(s, k, p[1..]);
      JoinLookup(s, name, k, p[1..]);
      JoinMeaning(JoinOf(s)[k], p[0], p[1..]);
    } else {
      LookupOutsideJoin(s, p);
      JoinMisses(s, name, p);
    }
  }

  // ---- The shortcuts ----

  lemma SortedJoin(s: Side, name: string)
    requires ValidSide(s)
    ensures Increasing(Heavier, Join(s, name).children)
    ensures forall c :: c in Join(s, name).children <==> c in JoinKids(s)
  {
    JoinKidsUnique(s);
    SortedSiblings(JoinKids(s));
  }

  function Twice(n: Node): Side { Side(Some(n), Some(n)) }

  /** Joining a child list with itself pairs every child with itself. */
  lemma TwicePairs(n: Node, k: nat)
    requires Valid(n) && k < |JoinOf(Twice(n))|
    ensures exists c :: c in n.children && JoinOf(Twice(n))[k] == Twice(c) && Keys(n.children, n.children)[k] == c.name
  {
    JoinSides(Twice(n), k);
    PairsSides(n.children, n.children, k);
  }

  lemma TwiceCovers(n: Node, c: Node) returns (k: nat)
    requires Valid(n) && c in n.children
    ensures k < |JoinOf(Twice(n))| && JoinOf(Twice(n))[k] == Twice(c) && Keys(n.children, n.children)[k] == c.name
  {
    KeysOrdered(n.children, n.children);
    var keys := Keys(n.children, n.children);
    assert c.name in keys;
    k :| 0 <= k < |keys| && keys[k] == c.name;
    LastIsFind(n.children, c.name);
    var i :| 0 <= i < |n.children| && n.children[i] == c;
    FindIs(n.children, c.name, i);
  }

  /** Every joined child is a child of the sorted tree. */
  lemma {:induction false} TwiceSound(n: Node, z: Node)
    requires Valid(n) && z in JoinKids(Twice(n))
    ensures z in SortTree(n).children
    decreases n, 0
  {
    hide Join, SortTree, JoinKids;
    var s := Twice(n);
    var k :| 0 <= k < |JoinKids(s)| && JoinKids(s)[k] == z;
    JoinKid(s, k);
    TwicePairs(n, k);
    var c :| c in n.children && JoinOf(s)[k] == Twice(c) && Keys(n.children, n.children)[k] == c.name;
    JoinTwice(c, c.name);
    ToKid(n, c);
  }

  /** Every child of the sorted tree is joined. */
  lemma {:induction false} TwiceComplete(n: Node, z: Node)
    requires Valid(n) && z in SortTree(n).children
    ensures z in JoinKids(Twice(n))
    decreases n, 0
  {
    hide Join, SortTree, JoinKids;
    var c := FromKid(n, z);
    var k := TwiceCovers(n, c);
    JoinKid(Twice(n), k);
    JoinTwice(c, c.name);
  }

  /** Joining a valid tree with itself sorts it. */
  lemma {:induction false} JoinTwice(n: Node, name: string)
    requires Valid(n)
    ensures Join(Twice(n), name) == Node(name, n.samples, SortTree(n).children)
    decreases n, 1
  {
    hide SortTree, JoinKids, Heavier, Join;
    var s := Twice(n);
    SortedJoin(s, name);
    SortedSiblings(n.children);
    StrictKids(n);
    hide Valid, Increasing, Sort;
    forall z | z in JoinKids(s) ensures z in SortTree(n).children { TwiceSound(n, z); }
    forall z | z in SortTree(n).children ensures z in JoinKids(s) { TwiceComplete(n, z); }
    HeavierOrder();
    IncreasingUnique(Heavier, Join(s, name).children, SortTree(n).children);
    TwiceAssembled(n, name);
  }

  lemma TwiceAssembled(n: Node, name: string)
    requires Valid(n) && Join(Twice(n), name).children == SortTree(n).children
    ensures Join(Twice(n), name) == Node(name, n.samples, SortTree(n).children)
  {
    hide SortTree, JoinKids, Heavier, Sort;
    SortTreeOwn(n);
  }

  lemma SortTreeRenamed(n: Node, name: string)
    ensures SortTree(Node(name, n.samples, n.children)) == Node(name, n.samples, SortTree(n).children)
  {
    SortTreeKids(n);
    SortTreeKids(Node(name, n.samples, n.children));
  }

  /** The clone-and-sort and single-child shortcuts compute the general join. */
  lemma {:induction false} UnionIsJoin(s: Side, name: string)
    requires ValidSide(s)
    ensures UnionOf(s, name) == Join(s, name)
    decreases SideSize(s), 1
  {
    if s.before.Some? && s.before == s.after {
      JoinTwice(s.after.value, name);
      SortTreeRenamed(s.after.value, name);
    } else {
      UnionKidsJoin(s);
    }
  }

  lemma {:induction false} UnionKidsJoin(s: Side)
    requires ValidSide(s)
    ensures UnionKids(s) == JoinKids(s)
    decreases SideSize(s), 0
  {
    forall k | 0 <= k < |JoinOf(s)| ensures UnionKids(s)[k] == JoinKids(s)[k] {
      JoinSides(s, k);
      UnionKid(s, k);
      UnionIsJoin(JoinOf(s)[k], NameOf(JoinOf(s)[k]));
    }
  }

  lemma {:induction false} KidsCommute(s: Side, k: nat)
    requires ValidSide(s) && k < |JoinOf(s)| && |JoinOf(Swap(s))| == |JoinOf(s)| &&
             JoinOf(Swap(s))[k] == Swap(JoinOf(s)[k])
    ensures JoinKids(Swap(s))[k] == JoinKids(s)[k]
    decreases SideSize(s), 0
  {
    hide ValidSide, Join;
    JoinSides(s, k);
    PairsSmaller(s, k);
    JoinCommutes(JoinOf(s)[k], NameOf(JoinOf(s)[k]));
    assert NameOf(Swap(JoinOf(s)[k])) == NameOf(JoinOf(s)[k]);
  }

  /** The union does not depend on which capture is the baseline. */
  lemma {:induction false} JoinCommutes(s: Side, name: string)
    requires ValidSide(s)
    ensures Join(Swap(s), name) == Join(s, name)
    decreases SideSize(s), 1
  {
    SwapJoin(s);
    forall k | 0 <= k < |JoinOf(s)| ensures JoinKids(Swap(s))[k] == JoinKids(s)[k] {
      KidsCommute(s, k);
    }
    assert JoinKids(Swap(s)) == JoinKids(s);
  }

  // ---- Whole captures ----

  /** `Profile::comparison_union`: the root of the layout a comparison is drawn on. */
  function ComparisonUnion(current: Capture, baseline: Capture): Node {
    UnionOf(Roots(current, baseline), "comparison")
  }

  /** Valid, with exactly the paths of both captures, each at the larger of the two own counts. */
  lemma UnionMeaning(current: Capture, baseline: Capture, p: Path)
    requires Valid(current.root) && Valid(baseline.root)
    ensures var u := ComparisonUnion(current, baseline);
            && Valid(u) && HeaviestFirst(u) && u.name == "comparison"
            && (At(u, p).Some? <==> At(baseline.root, p).Some? || At(current.root, p).Some?)
            && OwnAt(u, p) == Max(OwnAt(baseline.root, p), OwnAt(current.root, p))
  {
    var s := Roots(current, baseline);
    UnionIsJoin(s, "comparison");
    JoinValid(s, "comparison");
    JoinOrdered(s, "comparison");
    JoinMeaning(s, "comparison", p);
  }

  lemma UnionSymmetric(current: Capture, baseline: Capture)
    requires Valid(current.root) && Valid(baseline.root)
    ensures ComparisonUnion(baseline, current) == ComparisonUnion(current, baseline)
  {
    var s := Roots(current, baseline);
    UnionIsJoin(s, "comparison");
    UnionIsJoin(Swap(s), "comparison");
    JoinCommutes(s, "comparison");
  }
}
