/** The prefix tree of weighted stacks (`Node` of the flame module). */
module StackTree {
  import opened Wrappers
  import opened Ordering

  datatype Node = Node(name: string, samples: nat, children: seq<Node>)

  /** One observed stack, outermost frame first. */
  datatype Stack = Stack(frames: Path, weight: nat)

  function Sum(cs: seq<Node>): nat {
    if cs == [] then 0 else cs[0].samples + Sum(cs[1..])
  }

  /** Samples in this frame itself; the subtraction saturates. */
  function Own(n: Node): nat {
    if n.samples >= Sum(n.children) then n.samples - Sum(n.children) else 0
  }

  /** Position of the first child with that name, or the number of children. */
  function Find(cs: seq<Node>, name: string): (i: nat)
    ensures i <= |cs|
    ensures i < |cs| ==> cs[i].name == name
    ensures forall j :: 0 <= j < i ==> cs[j].name != name
  {
    if cs == [] || cs[0].name == name then 0 else 1 + Find(cs[1..], name)
  }

  /** The subtree at a path of names. */
  function At(n: Node, path: Path): Option<Node> {
    if path == [] then Some(n)
    else
      var i := Find(n.children, path[0]);
      if i == |n.children| then None else At(n.children[i], path[1..])
  }

  function Samples(n: Node, path: Path): nat {
    match At(n, path) case Some(m) => m.samples case None => 0
  }

  function OwnAt(n: Node, path: Path): nat {
    match At(n, path) case Some(m) => Own(m) case None => 0
  }

  /** A position in the tree, as child indices. */
  predicate Reaches(n: Node, at: seq<nat>) {
    at == [] || (at[0] < |n.children| && Reaches(n.children[at[0]], at[1..]))
  }

  function NodeAt(n: Node, at: seq<nat>): Node
    requires Reaches(n, at)
  {
    if at == [] then n else NodeAt(n.children[at[0]], at[1..])
  }

  ghost predicate UniqueNames(cs: seq<Node>) {
    forall i, j :: 0 <= i < j < |cs| ==> cs[i].name != cs[j].name
  }

  /** What validation accepts: distinct siblings that fit their parent. */
  ghost predicate Valid(n: Node) {
    && UniqueNames(n.children)
    && Sum(n.children) <= n.samples
    && forall c :: c in n.children ==> Valid(c)
  }

  /** No frame without an observation, as in every tree built by `Record`. */
  ghost predicate Positive(n: Node) {
    forall c :: c in n.children ==> c.samples > 0 && Positive(c)
  }

  // ---- Folding one stack into the tree ----

  function Insert(n: Node, path: Path, w: nat): (m: Node)
    ensures m.name == n.name && m.samples == n.samples + w
    decreases |path|
  {
    if path == [] then Node(n.name, n.samples + w, n.children)
    else
      var i := Find(n.children, path[0]);
      var kids := if i < |n.children| then n.children else n.children + [Node(path[0], 0, [])];
      Node(n.name, n.samples + w, kids[i := Insert(kids[i], path[1..], w)])
  }

  lemma {:induction false} SumUpdate(cs: seq<Node>, i: nat, c: Node)
    requires i < |cs|
    ensures Sum(cs[i := c]) == Sum(cs) - cs[i].samples + c.samples
  {
    var ds := cs[i := c];
    if i > 0 {
      assert ds[1..] == cs[1..][i - 1 := c];
      SumUpdate(cs[1..], i - 1, c);
    } else {
      assert ds[1..] == cs[1..];
    }
  }

  lemma {:induction false} SumConcat(a: seq<Node>, b: seq<Node>)
    ensures Sum(a + b) == Sum(a) + Sum(b)
  {
    if a == [] { assert a + b == b; } else {
      assert (a + b)[1..] == a[1..] + b;
      SumConcat(a[1..], b);
    }
  }

  lemma SumPrefix(cs: seq<Node>, k: nat)
    requires k <= |cs|
    ensures Sum(cs[..k]) <= Sum(cs)
  {
    assert cs == cs[..k] + cs[k..];
    SumConcat(cs[..k], cs[k..]);
  }

  /** The first match is the only index with these properties. */
  lemma FindIs(cs: seq<Node>, name: string, i: nat)
    requires i <= |cs|
    requires i < |cs| ==> cs[i].name == name
    requires forall j :: 0 <= j < i ==> cs[j].name != name
    ensures Find(cs, name) == i
  {
  }

  /** Where a lookup lands after an insertion: below the first frame of the stack, or where it did before. */
  lemma InsertLookup(n: Node, path: Path, w: nat, q: Path)
    requires path != [] && q != []
    ensures var m := Insert(n, path, w);
            var i := Find(n.children, path[0]);
            var c := if i < |n.children| then n.children[i] else Node(path[0], 0, []);
            At(m, q) == if q[0] == path[0] then At(Insert(c, path[1..], w), q[1..]) else At(n, q)
  {
    var m := Insert(n, path, w);
    var i := Find(n.children, path[0]);
    if q[0] == path[0] {
      FindIs(m.children, q[0], i);
    } else {
      var k := Find(n.children, q[0]);
      if k == |n.children| {
        FindIs(m.children, q[0], |m.children|);
      } else {
        FindIs(m.children, q[0], k);
      }
    }
  }

  /** Inserting adds the weight to exactly the prefixes of the stack. */
  lemma {:induction false} InsertSamples(n: Node, path: Path, w: nat, q: Path)
    ensures Samples(Insert(n, path, w), q) == Samples(n, q) + if q <= path then w else 0
    ensures At(Insert(n, path, w), q).Some? <==> At(n, q).Some? || q <= path
    decreases |path|
  {
    if path != [] && q != [] {
      InsertLookup(n, path, w, q);
      var i := Find(n.children, path[0]);
      var c := if i < |n.children| then n.children[i] else Node(path[0], 0, []);
      assert q <= path <==> q[0] == path[0] && q[1..] <= path[1..];
      if q[0] == path[0] {
        InsertSamples(c, path[1..], w, q[1..]);
        if i == |n.children| && q[1..] != [] { assert At(c, q[1..]).None?; }
      }
    }
  }

  lemma InsertSum(n: Node, path: Path, w: nat)
    requires path != []
    ensures Sum(Insert(n, path, w).children) == Sum(n.children) + w
  {
    var i := Find(n.children, path[0]);
    var kids := if i < |n.children| then n.children else n.children + [Node(path[0], 0, [])];
    SumConcat(n.children, [Node(path[0], 0, [])]);
    SumUpdate(kids, i, Insert(kids[i], path[1..], w));
  }

  lemma {:induction false} InsertValid(n: Node, path: Path, w: nat)
    requires Valid(n) && w > 0 && Positive(n)
    ensures Valid(Insert(n, path, w)) && Positive(Insert(n, path, w))
    decreases |path|
  {
    if path == [] {
    } else {
      InsertSum(n, path, w);
      var m := Insert(n, path, w);
      var i := Find(n.children, path[0]);
      var c := if i < |n.children| then n.children[i] else Node(path[0], 0, []);
      InsertValid(c, path[1..], w);
      forall d | d in m.children ensures Valid(d) && d.samples > 0 && Positive(d) {
        var k :| 0 <= k < |m.children| && m.children[k] == d;
        if k != i { assert d == n.children[k]; }
      }
    }
  }

  /** Inserting adds the weight to the own count of the stack itself, and to no other. */
  lemma {:induction false} InsertOwn(n: Node, path: Path, w: nat, q: Path)
    requires Valid(n)
    ensures OwnAt(Insert(n, path, w), q) == OwnAt(n, q) + if q == path then w else 0
    decreases |path|
  {
    if path != [] && q == [] {
      InsertSum(n, path, w);
    } else if path != [] {
      InsertLookup(n, path, w, q);
      var i := Find(n.children, path[0]);
      var c := if i < |n.children| then n.children[i] else Node(path[0], 0, []);
      assert q == path <==> q[0] == path[0] && q[1..] == path[1..];
      if q[0] == path[0] {
        InsertOwn(c, path[1..], w, q[1..]);
        if i == |n.children| && q[1..] != [] { assert At(c, q[1..]).None?; }
      }
    }
  }

  // ---- Meaning of a log of stacks ----

  /** `Profile::add` on the tree: empty stacks and zero weights are ignored. */
  function Record(n: Node, s: Stack): Node {
    if s.frames == [] || s.weight == 0 then n else Insert(n, s.frames, s.weight)
  }

  function RecordAll(n: Node, log: seq<Stack>): Node {
    if log == [] then n else Record(RecordAll(n, log[..|log| - 1]), log[|log| - 1])
  }

  const EMPTY := Node("all", 0, [])

  function Build(log: seq<Stack>): Node { RecordAll(EMPTY, log) }

  /** Weight of one stack at a path: as one that ends there, or as one that extends it. */
  function Share(s: Stack, p: Path, exact: bool): nat {
    if s.frames != [] && (if exact then p == s.frames else p <= s.frames) then s.weight else 0
  }

  function Weigh(log: seq<Stack>, p: Path, exact: bool): nat {
    if log == [] then 0 else Share(log[0], p, exact) + Weigh(log[1..], p, exact)
  }

  /** Total weight of the non-empty stacks that extend a path. */
  function Extending(log: seq<Stack>, p: Path): nat { Weigh(log, p, false) }

  /** Total weight of the non-empty stacks equal to a path. */
  function Exactly(log: seq<Stack>, p: Path): nat { Weigh(log, p, true) }

  lemma {:induction false} WeighConcat(a: seq<Stack>, b: seq<Stack>, p: Path, exact: bool)
    ensures Weigh(a + b, p, exact) == Weigh(a, p, exact) + Weigh(b, p, exact)
  {
    if a == [] { assert a + b == b; } else {
      assert (a + b)[1..] == a[1..] + b;
      WeighConcat(a[1..], b, p, exact);
    }
  }

  lemma {:induction false} BuildValid(log: seq<Stack>)
    ensures Valid(Build(log)) && Positive(Build(log))
  {
    if log == [] {
    } else {
      var s := log[|log| - 1];
      BuildValid(log[..|log| - 1]);
      if s.frames != [] && s.weight > 0 {
        InsertValid(Build(log[..|log| - 1]), s.frames, s.weight);
      }
    }
  }

  /** The tree counts, at every path, the stacks that extend it and those that end there. */
  lemma {:induction false} BuildMeaning(log: seq<Stack>, p: Path)
    ensures Samples(Build(log), p) == Extending(log, p)
    ensures OwnAt(Build(log), p) == Exactly(log, p)
    ensures Build(log).name == "all"
  {
    if log != [] {
      var init, s := log[..|log| - 1], log[|log| - 1];
      BuildMeaning(init, p);
      BuildValid(init);
      assert log == init + [s];
      WeighConcat(init, [s], p, false);
      WeighConcat(init, [s], p, true);
      if s.frames != [] && s.weight > 0 {
        InsertSamples(Build(init), s.frames, s.weight, p);
        InsertOwn(Build(init), s.frames, s.weight, p);
      }
    } else if p != [] {
      assert At(EMPTY, p).None?;
    }
  }

  function Without(b: seq<Stack>, k: nat): seq<Stack>
    requires k < |b|
  {
    b[..k] + b[k + 1..]
  }

  lemma WithoutOne(b: seq<Stack>, k: nat)
    requires k < |b|
    ensures multiset(b) == multiset{b[k]} + multiset(Without(b, k))
  {
    assert b == b[..k] + [b[k]] + b[k + 1..];
  }

  lemma WeighWithout(b: seq<Stack>, k: nat, p: Path, exact: bool)
    requires k < |b|
    ensures Weigh(b, p, exact) == Share(b[k], p, exact) + Weigh(Without(b, k), p, exact)
  {
    assert b == b[..k] + ([b[k]] + b[k + 1..]);
    WeighConcat(b[..k], [b[k]] + b[k + 1..], p, exact);
    WeighConcat([b[k]], b[k + 1..], p, exact);
    WeighConcat(b[..k], b[k + 1..], p, exact);
  }

  /** The meaning of a log does not depend on the order of its stacks. */
  lemma {:induction false} WeighPermutation(a: seq<Stack>, b: seq<Stack>, p: Path, exact: bool)
    requires multiset(a) == multiset(b)
    ensures Weigh(a, p, exact) == Weigh(b, p, exact)
  {
    if a == [] {
      assert |multiset(b)| == 0;
      assert b == a;
    } else {
      hide Weigh, Share, Without;
      var k := Elsewhere(a, b);
      WithoutOne(a, 0);
      WithoutOne(b, k);
      WeighWithout(a, 0, p, exact);
      WeighWithout(b, k, p, exact);
      var c, d := Without(a, 0), Without(b, k);
      assert multiset(c) == multiset(d) by {
        assert multiset(c) == multiset(a) - multiset{a[0]};
        assert multiset(d) == multiset(b) - multiset{a[0]};
      }
      WeighPermutation(c, d, p, exact);
    }
  }

  lemma Elsewhere(a: seq<Stack>, b: seq<Stack>) returns (k: nat)
    requires a != [] && multiset(a) == multiset(b)
    ensures k < |b| && b[k] == a[0]
  {
    assert a[0] in multiset(b);
    k :| 0 <= k < |b| && b[k] == a[0];
  }
}
