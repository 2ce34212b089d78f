/** Sorting a stack tree, its canonical form, and its folded entries. */
module CanonicalTree {
  import opened Wrappers
  import opened Ordering
  import opened StackTree

  /** Sibling order: more samples first, then by name. */
  predicate Heavier(x: Node, y: Node) {
    x.samples > y.samples || (x.samples == y.samples && Before(x.name, y.name))
  }

  /** `Node::sort`: siblings by weight and name, then every subtree. */
  function SortTree(n: Node): (m: Node)
    ensures m.name == n.name && m.samples == n.samples
  {
    var cs := Sort(Heavier, n.children);
    Node(n.name, n.samples, seq(|cs|, i requires 0 <= i < |cs| =>
      assert cs[i] in multiset(cs); assert cs[i] in n.children; SortTree(cs[i])))
  }

  lemma SortTreeKids(n: Node)
    ensures |SortTree(n).children| == |Sort(Heavier, n.children)|
    ensures forall i {:trigger SortTree(n).children[i]} :: 0 <= i < |SortTree(n).children| ==>
              SortTree(n).children[i] == SortTree(Sort(Heavier, n.children)[i])
  {
    var cs := Sort(Heavier, n.children);
    forall i | 0 <= i < |cs| ensures cs[i] in n.children { assert cs[i] in multiset(cs); }
  }

  lemma HeavierOrder()
    ensures forall x :: !Heavier(x, x)
    ensures forall x, y, z :: Heavier(x, y) && Heavier(y, z) ==> Heavier(x, z)
  {
    BeforeStrictTotal();
  }

  /** Distinct names make siblings comparable, so the sort is strict and keeps names distinct. */
  lemma SortedSiblings(cs: seq<Node>)
    requires UniqueNames(cs)
    ensures Increasing(Heavier, Sort(Heavier, cs)) && UniqueNames(Sort(Heavier, cs))
    ensures forall c :: c in Sort(Heavier, cs) <==> c in cs
  {
    HeavierOrder();
    BeforeStrictTotal();
    SortIncreasing(Heavier, cs);
    SortMembers(Heavier, cs);
    var ds := Sort(Heavier, cs);
    forall i, j | 0 <= i < j < |ds| ensures ds[i].name != ds[j].name {
      assert ds[i] in cs && ds[j] in cs && Heavier(ds[i], ds[j]);
    }
  }

  /** At every frame the children with more samples come first, equal ones by name. */
  ghost predicate HeaviestFirst(n: Node) {
    && (forall i, j :: 0 <= i < j < |n.children| ==>
          || n.children[i].samples > n.children[j].samples
          || (n.children[i].samples == n.children[j].samples && Before(n.children[i].name, n.children[j].name)))
    && forall c :: c in n.children ==> HeaviestFirst(c)
  }

  lemma {:induction false} SortTreeOrdered(n: Node)
    requires Valid(n)
    ensures HeaviestFirst(SortTree(n))
  {
    SortedSiblings(n.children);
    SortTreeKids(n);
    var cs, ds := Sort(Heavier, n.children), SortTree(n).children;
    hide SortTree;
    forall i, j | 0 <= i < j < |ds|
      ensures ds[i].samples > ds[j].samples || (ds[i].samples == ds[j].samples && Before(ds[i].name, ds[j].name))
    {
      assert Heavier(cs[i], cs[j]);
    }
    forall c | c in ds ensures HeaviestFirst(c) {
      var i :| 0 <= i < |ds| && ds[i] == c;
      assert cs[i] in cs && cs[i] in n.children;
      SortTreeOrdered(cs[i]);
    }
  }

  lemma {:induction false} SumPlace(x: Node, s: seq<Node>)
    ensures Sum(Place(Heavier, x, s)) == x.samples + Sum(s)
  {
    if s != [] && Heavier(s[0], x) { SumPlace(x, s[1..]); }
  }

  lemma {:induction false} SumSort(cs: seq<Node>)
    ensures Sum(Sort(Heavier, cs)) == Sum(cs)
  {
    if cs == [] {
    } else {
      SumSort(cs[1..]);
      SumPlace(cs[0], Sort(Heavier, cs[1..]));
    }
  }

  lemma {:induction false} SumSame(a: seq<Node>, b: seq<Node>)
    requires |a| == |b| && forall i :: 0 <= i < |a| ==> a[i].samples == b[i].samples
    ensures Sum(a) == Sum(b)
  {
    if a == [] {
    } else {
      SumSame(a[1..], b[1..]);
    }
  }

  lemma SortTreeOwn(n: Node)
    ensures Own(SortTree(n)) == Own(n) && Sum(SortTree(n).children) == Sum(n.children)
  {
    SortTreeKids(n);
    SumSort(n.children);
    SumSame(SortTree(n).children, Sort(Heavier, n.children));
  }

  /** Lookups in the sorted tree find the sorted subtrees of the same paths. */
  lemma {:induction false} SortTreeAt(n: Node, p: Path)
    requires Valid(n)
    ensures At(SortTree(n), p) == match At(n, p) case Some(m) => Some(SortTree(m)) case None => None
    decreases |p|
  {
    if p == [] {
    } else {
      var cs, ds := Sort(Heavier, n.children), SortTree(n).children;
      SortedSiblings(n.children);
      SortTreeKids(n);
      var i := Find(n.children, p[0]);
      if i < |n.children| {
        assert n.children[i] in cs;
        var j :| 0 <= j < |cs| && cs[j] == n.children[i];
        FindIs(ds, p[0], j);
        SortTreeAt(n.children[i], p[1..]);
      } else {
        forall j | 0 <= j < |ds| ensures ds[j].name != p[0] { assert cs[j] in n.children; }
        FindIs(ds, p[0], |ds|);
      }
    }
  }

  lemma SortTreeMeaning(n: Node, p: Path)
    requires Valid(n)
    ensures Samples(SortTree(n), p) == Samples(n, p) && OwnAt(SortTree(n), p) == OwnAt(n, p)
  {
    SortTreeAt(n, p);
    if At(n, p).Some? { SortTreeOwn(At(n, p).value); }
  }

  lemma {:induction false} SortTreeValid(n: Node)
    requires Valid(n)
    ensures Valid(SortTree(n))
    ensures Positive(n) ==> Positive(SortTree(n))
  {
    SortedSiblings(n.children);
    SortTreeOwn(n);
    SortTreeKids(n);
    var cs, m := Sort(Heavier, n.children), SortTree(n);
    forall c | c in m.children ensures Valid(c) && (Positive(n) ==> c.samples > 0 && Positive(c)) {
      var i :| 0 <= i < |cs| && c == SortTree(cs[i]);
      assert cs[i] in n.children;
      SortTreeValid(cs[i]);
    }
  }

  ghost predicate SameCounts(a: Node, b: Node) {
    forall p :: Samples(a, p) == Samples(b, p)
  }

  lemma LookupChild(n: Node, c: Node)
    requires UniqueNames(n.children) && c in n.children
    ensures forall p :: Samples(n, [c.name] + p) == Samples(c, p)
  {
    var i :| 0 <= i < |n.children| && n.children[i] == c;
    FindIs(n.children, c.name, i);
    forall p ensures Samples(n, [c.name] + p) == Samples(c, p) {
      assert ([c.name] + p)[1..] == p;
    }
  }

  /** A child of one tree has a counterpart with the same counts in the other. */
  lemma Counterpart(a: Node, b: Node, c: Node) returns (d: Node)
    requires Valid(a) && Valid(b) && Positive(a) && SameCounts(a, b) && c in a.children
    ensures d in b.children && d.name == c.name && SameCounts(c, d)
  {
    LookupChild(a, c);
    assert Samples(c, []) == Samples(a, [c.name] + []) == Samples(b, [c.name] + []);
    assert [c.name] + [] == [c.name];
    assert Samples(b, [c.name]) > 0;
    d := b.children[Find(b.children, c.name)];
    LookupChild(b, d);
    forall p ensures Samples(c, p) == Samples(d, p) {
      assert Samples(a, [c.name] + p) == Samples(b, [c.name] + p);
    }
  }

  /** Sorting is a canonical form: trees with equal counts at every path sort to the same tree. */
  lemma {:induction false} Canonical(a: Node, b: Node)
    requires Valid(a) && Valid(b) && Positive(a) && Positive(b)
    requires a.name == b.name && SameCounts(a, b)
    ensures SortTree(a) == SortTree(b)
    decreases a
  {
    assert Samples(a, []) == Samples(b, []);
    var x, y := SortTree(a).children, SortTree(b).children;
    ChildrenIncluded(a, b);
    SortedSiblings(a.children);
    SortedSiblings(b.children);
    HeavierOrder();
    StrictKids(a);
    StrictKids(b);
    IncreasingUnique(Heavier, x, y);
  }

  lemma StrictKids(n: Node)
    requires Increasing(Heavier, Sort(Heavier, n.children))
    ensures Increasing(Heavier, SortTree(n).children)
  {
    SortTreeKids(n);
    var cs, ds := Sort(Heavier, n.children), SortTree(n).children;
    forall i, j | 0 <= i < j < |ds| ensures Heavier(ds[i], ds[j]) {
      assert Heavier(cs[i], cs[j]);
    }
  }

  lemma FromKid(n: Node, z: Node) returns (c: Node)
    requires z in SortTree(n).children
    ensures c in n.children && z == SortTree(c)
  {
    SortTreeKids(n);
    SortMembers(Heavier, n.children);
    var i :| 0 <= i < |SortTree(n).children| && SortTree(n).children[i] == z;
    c := Sort(Heavier, n.children)[i];
  }

  lemma ToKid(n: Node, c: Node)
    requires c in n.children
    ensures SortTree(c) in SortTree(n).children
  {
    SortTreeKids(n);
    SortMembers(Heavier, n.children);
    var i :| 0 <= i < |n.children| && Sort(Heavier, n.children)[i] == c;
    assert SortTree(n).children[i] == SortTree(c);
  }

  lemma {:induction false} ChildrenIncluded(a: Node, b: Node)
    requires Valid(a) && Valid(b) && Positive(a) && Positive(b) && SameCounts(a, b)
    ensures forall z :: z in SortTree(a).children <==> z in SortTree(b).children
    decreases a, 0
  {
    forall z | z in SortTree(a).children ensures z in SortTree(b).children {
      var c := FromKid(a, z);
      var d := Counterpart(a, b, c);
      Canonical(c, d);
      ToKid(b, d);
    }
    forall z | z in SortTree(b).children ensures z in SortTree(a).children {
      var d := FromKid(b, z);
      var c := Counterpart(b, a, d);
      Canonical(c, d);
      ToKid(a, c);
    }
  }

  /** Two captures of the same stacks in any order sort to the same tree. */
  lemma InsertionOrderIsIrrelevant(a: seq<Stack>, b: seq<Stack>)
    requires multiset(a) == multiset(b)
    ensures SortTree(Build(a)) == SortTree(Build(b))
  {
    BuildValid(a);
    BuildValid(b);
    forall p ensures Samples(Build(a), p) == Samples(Build(b), p) {
      BuildMeaning(a, p);
      BuildMeaning(b, p);
      WeighPermutation(a, b, p, false);
    }
    BuildMeaning(a, []);
    BuildMeaning(b, []);
    Canonical(Build(a), Build(b));
  }

  // ---- Folded entries ----

  /** `Node::fold`: every path of the subtree with its own count, when positive. */
  function Entries(n: Node, path: Path): seq<Stack>
    decreases n, 1
  {
    (if Own(n) > 0 then [Stack(path, Own(n))] else []) + EntriesAll(n.children, path)
  }

  function EntriesAll(cs: seq<Node>, path: Path): seq<Stack>
    decreases cs, 0
  {
    if cs == [] then [] else Entries(cs[0], path + [cs[0].name]) + EntriesAll(cs[1..], path)
  }

  lemma {:induction false} EntriesAllSnoc(cs: seq<Node>, c: Node, path: Path)
    ensures EntriesAll(cs + [c], path) == EntriesAll(cs, path) + Entries(c, path + [c.name])
  {
    if cs != [] {
      assert (cs + [c])[1..] == cs[1..] + [c];
      EntriesAllSnoc(cs[1..], c, path);
    } else {
      assert (cs + [c])[1..] == [];
    }
  }

  /** Pushes the entries of a subtree onto `out`, as the recursive writer does. */
  method Fold(n: Node, path: Path, out: seq<Stack>) returns (r: seq<Stack>)
    ensures r == out + Entries(n, path)
    decreases n
  {
    r := out;
    if Own(n) > 0 {
      r := r + [Stack(path, Own(n))];
    }
    ghost var head := r;
    for i := 0 to |n.children|
      invariant r == head + EntriesAll(n.children[..i], path)
    {
      r := Fold(n.children[i], path + [n.children[i].name], r);
      EntriesAllSnoc(n.children[..i], n.children[i], path);
      assert n.children[..i + 1] == n.children[..i] + [n.children[i]];
    }
    assert n.children[..|n.children|] == n.children;
  }

  /** `Profile::folded`: the root frame itself is not an entry. */
  method Folded(root: Node) returns (out: seq<Stack>)
    ensures out == EntriesAll(root.children, [])
  {
    out := [];
    for i := 0 to |root.children|
      invariant out == EntriesAll(root.children[..i], [])
    {
      out := Fold(root.children[i], [root.children[i].name], out);
      EntriesAllSnoc(root.children[..i], root.children[i], []);
      assert [] + [root.children[i].name] == [root.children[i].name];
      assert root.children[..i + 1] == root.children[..i] + [root.children[i]];
    }
    assert root.children[..|root.children|] == root.children;
  }

  ghost predicate AllUnder(log: seq<Stack>, p: Path) {
    forall i :: 0 <= i < |log| ==> p <= log[i].frames && log[i].weight > 0
  }

  lemma {:induction false} EntriesUnder(n: Node, path: Path)
    ensures AllUnder(Entries(n, path), path)
    decreases n, 1
  {
    EntriesAllUnder(n.children, path);
  }

  lemma {:induction false} EntriesAllUnder(cs: seq<Node>, path: Path)
    ensures AllUnder(EntriesAll(cs, path), path)
    decreases cs, 0
  {
    if cs == [] {
    } else {
      EntriesUnder(cs[0], path + [cs[0].name]);
      EntriesAllUnder(cs[1..], path);
    }
  }

  lemma {:induction false} WeighForeign(log: seq<Stack>, p: Path, r: Path, exact: bool)
    requires AllUnder(log, p) && !(p <= r) && (exact || !(r <= p))
    ensures Weigh(log, r, exact) == 0
  {
    if log == [] {
    } else {
      assert p <= log[0].frames;
      if r <= log[0].frames {
        assert |r| <= |p| ==> r == log[0].frames[..|r|] == p[..|r|];
      }
      WeighForeign(log[1..], p, r, exact);
    }
  }

  function Count(n: Node, q: Path, exact: bool): nat { if exact then OwnAt(n, q) else Samples(n, q) }

  /** The entries of a subtree weigh what the subtree counts, path by path. */
  lemma {:induction false} EntriesWeigh(n: Node, path: Path, q: Path, exact: bool)
    requires Valid(n) && path != []
    ensures Weigh(Entries(n, path), path + q, exact) == Count(n, q, exact)
    decreases n, 1
  {
    var head := if Own(n) > 0 then [Stack(path, Own(n))] else [];
    WeighConcat(head, EntriesAll(n.children, path), path + q, exact);
    EntriesAllWeigh(n.children, path, q, exact);
    assert path + q == path <==> q == [];
    assert path + q <= path <==> q == [];
  }

  lemma {:induction false} EntriesAllWeigh(cs: seq<Node>, path: Path, q: Path, exact: bool)
    requires UniqueNames(cs) && forall c :: c in cs ==> Valid(c)
    ensures Weigh(EntriesAll(cs, path), path + q, exact) ==
            if q == [] then (if exact then 0 else Sum(cs))
            else if Find(cs, q[0]) < |cs| then Count(cs[Find(cs, q[0])], q[1..], exact) else 0
    decreases cs, 0
  {
    hide Valid, Count, Entries;
    if cs == [] {
    } else {
      WeighConcat(Entries(cs[0], path + [cs[0].name]), EntriesAll(cs[1..], path), path + q, exact);
      hide Weigh;
      ChildWeigh(cs[0], path, q, exact);
      EntriesAllWeigh(cs[1..], path, q, exact);
      if q != [] { FindHead(cs, q[0]); }
      hide Find, UniqueNames;
    }
  }

  lemma FindHead(cs: seq<Node>, name: string)
    requires cs != [] && UniqueNames(cs)
    ensures Find(cs, name) == if cs[0].name == name then 0 else 1 + Find(cs[1..], name)
    ensures cs[0].name == name ==> Find(cs[1..], name) == |cs[1..]|
  {
    if cs[0].name == name { FindIs(cs[1..], name, |cs[1..]|); }
  }

  lemma {:induction false} ChildWeigh(c: Node, path: Path, q: Path, exact: bool)
    requires Valid(c)
    ensures Weigh(Entries(c, path + [c.name]), path + q, exact) ==
            if q == [] then (if exact then 0 else c.samples)
            else if q[0] == c.name then Count(c, q[1..], exact) else 0
    decreases c, 2
  {
    var p := path + [c.name];
    EntriesUnder(c, p);
    if q == [] && !exact {
      WeighBelow(Entries(c, p), p, path + q);
      EntriesWeigh(c, p, [], false);
      assert p + [] == p;
    } else if q != [] && q[0] == c.name {
      EntriesWeigh(c, p, q[1..], exact);
      assert p + q[1..] == path + q;
    } else {
      assert p[|path|] == c.name;
      assert q != [] ==> (path + q)[|path|] == q[0];
      WeighForeign(Entries(c, p), p, path + q, exact);
    }
  }

  lemma {:induction false} WeighBelow(log: seq<Stack>, p: Path, r: Path)
    requires AllUnder(log, p) && r <= p
    ensures Weigh(log, r, false) == Weigh(log, p, false)
  {
    if log == [] {
    } else {
      WeighBelow(log[1..], p, r);
    }
  }

  /** The folded entries carry the counts of the tree at every path; the root's own samples are no entry. */
  lemma FoldedMeaning(root: Node, p: Path)
    requires Valid(root)
    ensures Extending(EntriesAll(root.children, []), p) == Samples(root, p) - if p == [] then Own(root) else 0
    ensures Exactly(EntriesAll(root.children, []), p) == OwnAt(root, p) - if p == [] then Own(root) else 0
  {
    EntriesAllWeigh(root.children, [], p, false);
    EntriesAllWeigh(root.children, [], p, true);
    assert [] + p == p;
  }

  /** Folding a tree and recording its entries again rebuilds it without the root's own samples, up to sibling order. */
  lemma FoldRoundTrip(root: Node)
    requires Valid(root) && Positive(root) && root.name == "all"
    ensures SortTree(Build(EntriesAll(root.children, []))) ==
            SortTree(Node(root.name, Sum(root.children), root.children))
    ensures Own(root) == 0 ==> SortTree(Build(EntriesAll(root.children, []))) == SortTree(root)
  {
    var log, bare := EntriesAll(root.children, []), Node(root.name, Sum(root.children), root.children);
    BuildValid(log);
    BuildMeaning(log, []);
    forall p ensures Samples(Build(log), p) == Samples(bare, p) {
      BuildMeaning(log, p);
      FoldedMeaning(bare, p);
    }
    Canonical(Build(log), bare);
    assert Own(root) == 0 ==> bare == root;
  }

  lemma {:induction false} NothingAtRoot(log: seq<Stack>)
    ensures Exactly(log, []) == 0
  {
    if log == [] {
    } else {
      NothingAtRoot(log[1..]);
    }
  }

  /** A built capture survives its folded form: the entries weigh what the log weighs, and rebuild the same tree. */
  lemma BuiltRoundTrip(log: seq<Stack>, p: Path)
    ensures var entries := EntriesAll(Build(log).children, []);
            && Extending(entries, p) == Extending(log, p) && Exactly(entries, p) == Exactly(log, p)
            && SortTree(Build(entries)) == SortTree(Build(log))
  {
    hide SortTree, Build;
    BuildValid(log);
    BuildMeaning(log, p);
    BuildMeaning(log, []);
    NothingAtRoot(log);
    FoldedMeaning(Build(log), p);
    FoldRoundTrip(Build(log));
  }

  ghost predicate Distinct(log: seq<Stack>) {
    forall i, j :: 0 <= i < j < |log| ==> log[i].frames != log[j].frames
  }

  lemma {:induction false} EntriesDistinct(n: Node, path: Path)
    requires Valid(n)
    ensures Distinct(Entries(n, path))
    decreases n, 1
  {
    EntriesAllDistinct(n.children, path);
  }

  lemma {:induction false} EntriesAllDistinct(cs: seq<Node>, path: Path)
    requires UniqueNames(cs) && forall c :: c in cs ==> Valid(c)
    ensures Distinct(EntriesAll(cs, path))
    ensures forall i :: 0 <= i < |EntriesAll(cs, path)| ==>
              |EntriesAll(cs, path)[i].frames| > |path| &&
              exists c :: c in cs && c.name == EntriesAll(cs, path)[i].frames[|path|]
    decreases cs, 0
  {
    if cs == [] {
    } else {
      var p := path + [cs[0].name];
      var a, b := Entries(cs[0], p), EntriesAll(cs[1..], path);
      EntriesDistinct(cs[0], p);
      EntriesUnder(cs[0], p);
      EntriesAllDistinct(cs[1..], path);
      forall i | 0 <= i < |a| ensures |a[i].frames| > |path| && a[i].frames[|path|] == cs[0].name {
        assert p <= a[i].frames && p[|path|] == cs[0].name;
      }
      hide Distinct, Entries, Valid;
      DistinctConcat(a, b, |path|, cs[0].name);
    }
  }

  lemma DistinctConcat(a: seq<Stack>, b: seq<Stack>, at: nat, name: string)
    requires Distinct(a) && Distinct(b)
    requires forall i :: 0 <= i < |a| ==> |a[i].frames| > at && a[i].frames[at] == name
    requires forall i :: 0 <= i < |b| ==> |b[i].frames| > at && b[i].frames[at] != name
    ensures Distinct(a + b)
  {
  }

  lemma {:induction false} DistinctMember(log: seq<Stack>, e: Stack)
    requires Distinct(log) && AllUnder(log, []) && e.frames != []
    ensures e in log <==> e.weight > 0 && Exactly(log, e.frames) == e.weight
    ensures (forall s :: s in log ==> s.frames != e.frames) ==> Exactly(log, e.frames) == 0
  {
    if log == [] {
    } else {
      DistinctMember(log[1..], e);
      assert log == [log[0]] + log[1..];
    }
  }

  /** Each path with an own count is one entry, exactly once, with that count; there are no others. */
  lemma FoldedExactlyOnce(root: Node, e: Stack)
    requires Valid(root) && e.frames != []
    ensures Distinct(EntriesAll(root.children, []))
    ensures e in EntriesAll(root.children, []) <==> e.weight > 0 && e.weight == OwnAt(root, e.frames)
  {
    EntriesAllDistinct(root.children, []);
    EntriesAllUnder(root.children, []);
    DistinctMember(EntriesAll(root.children, []), e);
    FoldedMeaning(root, e.frames);
  }
}
