/** The change list against its definition path by path. */
module ComparisonMeaning {
  import opened Wrappers
  import opened Ordering
  import opened StackTree
  import opened Comparison

  ghost predicate ValidSide(s: Side) {
    (s.before.Some? ==> Valid(s.before.value)) && (s.after.Some? ==> Valid(s.after.value))
  }

  /** Both sides, when present, are the same frame. */
  ghost predicate Matched(s: Side) {
    (s.before.Some? || s.after.Some?) && (s.before.Some? && s.after.Some? ==> s.before.value.name == s.after.value.name)
  }

  function Lookup(n: Option<Node>, p: Path): Option<Node> {
    match n case Some(m) => At(m, p) case None => None
  }

  function LookupSide(s: Side, p: Path): Side { Side(Lookup(s.before, p), Lookup(s.after, p)) }

  predicate Present(s: Side, p: Path) { Lookup(s.before, p).Some? || Lookup(s.after, p).Some? }

  lemma {:induction false} LastIsFind(cs: seq<Node>, name: string)
    requires UniqueNames(cs)
    ensures Last(cs, name) == if Find(cs, name) < |cs| then Some(cs[Find(cs, name)]) else None
  {
    var i := Find(cs, name);
    if Last(cs, name).Some? {
      var j :| 0 <= j < |cs| && cs[j] == Last(cs, name).value;
      assert i == j;
    }
    assert i < |cs| ==> cs[i] in cs;
  }

  /** A lookup goes through the joined child of its first name. */
  lemma LookupThroughJoin(s: Side, k: nat, q: Path)
    requires ValidSide(s) && k < |JoinOf(s)|
    ensures var key := Keys(Kids(s.before), Kids(s.after))[k];
            LookupSide(s, [key] + q) == LookupSide(JoinOf(s)[k], q)
  {
    var key := Keys(Kids(s.before), Kids(s.after))[k];
    assert ([key] + q)[0] == key && ([key] + q)[1..] == q;
    LastIsFind(Kids(s.before), key);
    LastIsFind(Kids(s.after), key);
  }

  /** A path whose first name is no key is in neither tree. */
  lemma LookupOutsideJoin(s: Side, q: Path)
    requires ValidSide(s) && q != [] && q[0] !in Keys(Kids(s.before), Kids(s.after))
    ensures !Present(s, q)
  {
    KeysOrdered(Kids(s.before), Kids(s.after));
    NotNamed(Kids(s.before), q[0]);
    NotNamed(Kids(s.after), q[0]);
  }

  lemma NotNamed(cs: seq<Node>, name: string)
    requires name !in Names(cs)
    ensures Find(cs, name) == |cs|
  {
    assert forall i :: 0 <= i < |cs| ==> cs[i] in cs;
  }

  lemma JoinSides(s: Side, k: nat)
    requires ValidSide(s) && k < |JoinOf(s)|
    ensures var t := JoinOf(s)[k];
            && ValidSide(t) && Matched(t) && SideSize(t) < SideSize(s)
            && NameOf(t) == Keys(Kids(s.before), Kids(s.after))[k]
  {
    PairsSides(Kids(s.before), Kids(s.after), k);
    PairsSmaller(s, k);
  }

  /** The change at path q of the pair of subtrees. */
  function Expected(s: Side, path: Path, e: Scale, q: Path): Change { Head(LookupSide(s, q), path + q, e) }

  /** A visit lists its frame and every path below it, each with the counts of both sides. */
  lemma {:induction false} VisitComplete(s: Side, path: Path, e: Scale, q: Path)
    requires ValidSide(s) && Matched(s) && Present(s, q)
    ensures Expected(s, path + [NameOf(s)], e, q) in Visit(s, path, e)
    decreases SideSize(s), 1
  {
    var here := path + [NameOf(s)];
    if q == [] {
      assert here + [] == here;
      assert LookupSide(s, []) == s;
    } else {
      WalkComplete(s, here, e, q);
    }
  }

  lemma {:induction false} WalkComplete(s: Side, path: Path, e: Scale, q: Path)
    requires ValidSide(s) && q != [] && Present(s, q)
    ensures Expected(s, path, e, q) in Changes(s, path, e)
    decreases SideSize(s), 0
  {
    HeadTail(path, q);
    var k := KeyOf(s, q);
    JoinSides(s, k);
    LookupThroughJoin(s, k, q[1..]);
    VisitComplete(JoinOf(s)[k], path, e, q[1..]);
    var r := Branches(s, path, e);
    assert Expected(s, path, e, q) in r[k];
    FlattenMember(r, Expected(s, path, e, q));
  }

  lemma HeadTail(path: Path, q: Path)
    requires q != []
    ensures [q[0]] + q[1..] == q && path + [q[0]] + q[1..] == path + q
  {
  }

  lemma KeyOf(s: Side, q: Path) returns (k: nat)
    requires ValidSide(s) && q != [] && Present(s, q)
    ensures k < |JoinOf(s)| && Keys(Kids(s.before), Kids(s.after))[k] == q[0]
  {
    var keys := Keys(Kids(s.before), Kids(s.after));
    if q[0] !in keys { LookupOutsideJoin(s, q); }
    k :| 0 <= k < |keys| && keys[k] == q[0];
  }

  lemma {:induction false} FlattenMember<T>(ss: seq<seq<T>>, x: T)
    ensures x in Flatten(ss) <==> exists k :: 0 <= k < |ss| && x in ss[k]
  {
    if ss == [] {
    } else {
      FlattenMember(ss[..|ss| - 1], x);
    }
  }

  /** Everything a visit lists is the change of a present path at or below its frame. */
  lemma {:induction false} VisitSound(s: Side, path: Path, e: Scale, c: Change) returns (q: Path)
    requires ValidSide(s) && Matched(s) && c in Visit(s, path, e)
    ensures Present(s, q) && c == Expected(s, path + [NameOf(s)], e, q)
    decreases SideSize(s), 1
  {
    var here := path + [NameOf(s)];
    if c == Head(s, here, e) {
      q := [];
      assert here + [] == here;
      assert LookupSide(s, []) == s;
    } else {
      q := WalkSound(s, here, e, c);
    }
  }

  lemma {:induction false} WalkSound(s: Side, path: Path, e: Scale, c: Change) returns (q: Path)
    requires ValidSide(s) && c in Changes(s, path, e)
    ensures q != [] && Present(s, q) && c == Expected(s, path, e, q)
    decreases SideSize(s), 0, 1
  {
    var r := Branches(s, path, e);
    FlattenMember(r, c);
    var k :| 0 <= k < |r| && c in r[k];
    q := BranchSound(s, path, e, k, c);
  }

  /** Branch k lists paths through key k. */
  lemma {:induction false} BranchSound(s: Side, path: Path, e: Scale, k: nat, c: Change) returns (q: Path)
    requires ValidSide(s) && k < |JoinOf(s)| && c in Branches(s, path, e)[k]
    ensures q != [] && q[0] == Keys(Kids(s.before), Kids(s.after))[k]
    ensures Present(s, q) && c == Expected(s, path, e, q)
    decreases SideSize(s), 0, 0
  {
    JoinSides(s, k);
    var key := Keys(Kids(s.before), Kids(s.after))[k];
    var r := VisitSound(JoinOf(s)[k], path, e, c);
    LookupThroughJoin(s, k, r);
    q := [key] + r;
    Associative(path, [key], r);
  }

  // ---- Order ----

  ghost predicate PathsIncrease(cs: seq<Change>) {
    forall i, j :: 0 <= i < j < |cs| ==> PathBefore(cs[i].path, cs[j].path)
  }

  ghost predicate Apart(a: seq<Change>, b: seq<Change>) {
    forall c, d :: c in a && d in b ==> PathBefore(c.path, d.path)
  }

  ghost predicate Separate(ss: seq<seq<Change>>) {
    forall i, k :: 0 <= i < k < |ss| ==> Apart(ss[i], ss[k])
  }

  lemma {:induction false} FlattenIncreases(ss: seq<seq<Change>>)
    requires forall k :: 0 <= k < |ss| ==> PathsIncrease(ss[k])
    requires Separate(ss)
    ensures PathsIncrease(Flatten(ss))
  {
    if ss == [] {
    } else {
      var a, b := Flatten(ss[..|ss| - 1]), ss[|ss| - 1];
      FlattenIncreases(ss[..|ss| - 1]);
      forall c, d | c in a && d in b ensures PathBefore(c.path, d.path) {
        FlattenMember(ss[..|ss| - 1], c);
        var k :| 0 <= k < |ss| - 1 && c in ss[k];
        assert Apart(ss[k], b);
      }
      PathsIncreaseConcat(a, b);
    }
  }

  lemma PathsIncreaseConcat(a: seq<Change>, b: seq<Change>)
    requires PathsIncrease(a) && PathsIncrease(b)
    requires Apart(a, b)
    ensures PathsIncrease(a + b)
  {
  }

  /** Paths through an earlier key come before paths through a later one. */
  lemma BranchesSeparate(s: Side, path: Path, e: Scale, i: nat, k: nat, c: Change, d: Change)
    requires ValidSide(s) && i < k < |JoinOf(s)|
    requires c in Branches(s, path, e)[i] && d in Branches(s, path, e)[k]
    ensures PathBefore(c.path, d.path)
  {
    KeysOrdered(Kids(s.before), Kids(s.after));
    var q := BranchSound(s, path, e, i, c);
    var r := BranchSound(s, path, e, k, d);
    PathBeforePrefix(path, q, r);
  }

  lemma AllSeparate(s: Side, path: Path, e: Scale)
    requires ValidSide(s)
    ensures Separate(Branches(s, path, e))
  {
    var r := Branches(s, path, e);
    forall i, k | 0 <= i < k < |r| ensures Apart(r[i], r[k]) {
      forall c: Change, d: Change | c in r[i] && d in r[k] ensures PathBefore(c.path, d.path) {
        BranchesSeparate(s, path, e, i, k, c, d);
      }
    }
  }

  lemma {:induction false} WalkOrdered(s: Side, path: Path, e: Scale)
    requires ValidSide(s)
    ensures PathsIncrease(Changes(s, path, e))
    decreases SideSize(s), 0
  {
    var r := Branches(s, path, e);
    forall k | 0 <= k < |r| ensures PathsIncrease(r[k]) {
      JoinSides(s, k);
      VisitOrdered(JoinOf(s)[k], path, e);
    }
    AllSeparate(s, path, e);
    FlattenIncreases(r);
  }

  /** Everything below a frame comes after it. */
  lemma WalkAfter(s: Side, here: Path, e: Scale)
    requires ValidSide(s)
    ensures Apart([Head(s, here, e)], Changes(s, here, e))
  {
    forall d | d in Changes(s, here, e) ensures PathBefore(here, d.path) {
      var q := WalkSound(s, here, e, d);
      PrefixFirst(here, q);
    }
  }

  lemma PrefixFirst(p: Path, q: Path)
    requires q != []
    ensures PathBefore(p, p + q)
  {
    PathBeforePrefix(p, [], q);
    assert p + [] == p;
  }

  lemma {:induction false} VisitOrdered(s: Side, path: Path, e: Scale)
    requires ValidSide(s) && Matched(s)
    ensures PathsIncrease(Visit(s, path, e))
    decreases SideSize(s), 1
  {
    var here := path + [NameOf(s)];
    WalkOrdered(s, here, e);
    WalkAfter(s, here, e);
    PathsIncreaseConcat([Head(s, here, e)], Changes(s, here, e));
  }

  // ---- Swapping the sides ----

  function Swap(s: Side): Side { Side(s.after, s.before) }

  function SwapScale(e: Scale): Scale { Scale(e.mode, e.after, e.before) }

  function SwapChange(c: Change): Change { Change(c.path, c.after, c.before, -c.delta) }

  function SwapAll(cs: seq<Change>): (r: seq<Change>)
    ensures |r| == |cs| && forall i :: 0 <= i < |cs| ==> r[i] == SwapChange(cs[i])
  {
    if cs == [] then [] else [SwapChange(cs[0])] + SwapAll(cs[1..])
  }

  lemma SwapAllConcat(a: seq<Change>, b: seq<Change>)
    ensures SwapAll(a + b) == SwapAll(a) + SwapAll(b)
  {
  }

  lemma {:induction false} FlattenSwap(ss: seq<seq<Change>>, ts: seq<seq<Change>>)
    requires |ss| == |ts| && forall k :: 0 <= k < |ss| ==> ts[k] == SwapAll(ss[k])
    ensures Flatten(ts) == SwapAll(Flatten(ss))
  {
    if ss == [] {
    } else {
      FlattenSwap(ss[..|ss| - 1], ts[..|ts| - 1]);
      SwapAllConcat(Flatten(ss[..|ss| - 1]), ss[|ss| - 1]);
    }
  }

  lemma SwapJoin(s: Side)
    ensures |JoinOf(Swap(s))| == |JoinOf(s)|
    ensures forall k :: 0 <= k < |JoinOf(s)| ==> JoinOf(Swap(s))[k] == Swap(JoinOf(s)[k])
  {
    var b, a := Kids(s.before), Kids(s.after);
    KeysOrdered(b, a);
    KeysOrdered(a, b);
    BeforeStrictTotal();
    IncreasingUnique(Before, Keys(b, a), Keys(a, b));
  }

  lemma {:induction false} SwapWalk(s: Side, path: Path, e: Scale)
    requires ValidSide(s)
    ensures Changes(Swap(s), path, SwapScale(e)) == SwapAll(Changes(s, path, e))
    decreases SideSize(s), 0
  {
    var r, t := Branches(s, path, e), Branches(Swap(s), path, SwapScale(e));
    SwapJoin(s);
    forall k | 0 <= k < |r| ensures t[k] == SwapAll(r[k]) {
      JoinSides(s, k);
      SwapVisit(JoinOf(s)[k], path, e);
    }
    FlattenSwap(r, t);
  }

  lemma {:induction false} SwapVisit(s: Side, path: Path, e: Scale)
    requires ValidSide(s) && Matched(s)
    ensures Visit(Swap(s), path, SwapScale(e)) == SwapAll(Visit(s, path, e))
    decreases SideSize(s), 1
  {
    var here := path + [NameOf(s)];
    assert NameOf(Swap(s)) == NameOf(s);
    SwapWalk(s, here, e);
    SwapAllConcat([Head(s, here, e)], Changes(s, here, e));
    assert Head(Swap(s), here, SwapScale(e)) == SwapChange(Head(s, here, e));
  }

  // ---- Whole captures ----

  ghost predicate Usable(current: Capture, baseline: Capture) {
    Refused(current, baseline).None? && Valid(current.root) && Valid(baseline.root)
  }

  /** The changes are the frames of either capture, once each, in path order, with both counts and their delta. */
  lemma CompareMeaning(current: Capture, baseline: Capture, mode: Mode, c: Change)
    requires Usable(current, baseline)
    ensures var cs := Compared(current, baseline, mode).value.changes;
            && PathsIncrease(cs)
            && (c in cs <==>
                && c.path != []
                && (At(baseline.root, c.path).Some? || At(current.root, c.path).Some?)
                && c.before == Samples(baseline.root, c.path) && c.after == Samples(current.root, c.path)
                && c.delta == Delta(ScaleOf(current, baseline, mode), c.before, c.after))
  {
    var s, e := Roots(current, baseline), ScaleOf(current, baseline, mode);
    WalkOrdered(s, [], e);
    if c in Changes(s, [], e) {
      var q := WalkSound(s, [], e, c);
      assert [] + q == q;
    }
    if c.path != [] && Present(s, c.path) {
      WalkComplete(s, [], e, c.path);
      assert [] + c.path == c.path;
    }
  }

  /** Swapping the captures swaps the counts and negates every delta, in both modes. */
  lemma CompareAntisymmetric(current: Capture, baseline: Capture, mode: Mode)
    requires Usable(current, baseline)
    ensures Usable(baseline, current)
    ensures Compared(baseline, current, mode).value.changes == SwapAll(Compared(current, baseline, mode).value.changes)
  {
    SwapWalk(Roots(current, baseline), [], ScaleOf(current, baseline, mode));
  }
}
