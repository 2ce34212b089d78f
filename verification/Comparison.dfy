/** Comparing two captures path by path, and the union tree the comparison is drawn on. */
module Comparison {
  import opened Wrappers
  import opened Ordering
  import opened StackTree
  import Profiles

  datatype Side = Side(before: Option<Node>, after: Option<Node>)

  function Kids(n: Option<Node>): seq<Node> {
    match n case Some(m) => m.children case None => []
  }

  function CountOf(n: Option<Node>): nat {
    match n case Some(m) => m.samples case None => 0
  }

  function OwnOf(n: Option<Node>): nat {
    match n case Some(m) => Own(m) case None => 0
  }

  /** The last child of that name: a table filled in order keeps the last entry. */
  function Last(cs: seq<Node>, name: string): (r: Option<Node>)
    ensures r.Some? ==> r.value in cs && r.value.name == name
    ensures r.None? <==> forall c :: c in cs ==> c.name != name
  {
    if cs == [] then None
    else if cs[|cs| - 1].name == name then Some(cs[|cs| - 1])
    else Last(cs[..|cs| - 1], name)
  }

  /** No later child has the name. */
  lemma {:induction false} LastIsLast(cs: seq<Node>, name: string) returns (i: nat)
    ensures Last(cs, name).Some? ==>
              i < |cs| && Last(cs, name) == Some(cs[i]) && forall j :: i < j < |cs| ==> cs[j].name != name
  {
    i := 0;
    if cs == [] {
    } else {
      i := |cs| - 1;
      if cs[i].name != name { i := LastIsLast(cs[..i], name); }
    }
  }

  function Names(cs: seq<Node>): set<string> { set c | c in cs :: c.name }

  function NameSeq(cs: seq<Node>): (r: seq<string>)
    ensures forall x :: x in r <==> x in Names(cs)
  {
    if cs == [] then []
    else
      assert forall x :: x in cs <==> x == cs[0] || x in cs[1..];
      [cs[0].name] + NameSeq(cs[1..])
  }

  /** Drops repeats from a sequence of names, keeping the first of each. */
  function Once(s: seq<string>): (r: seq<string>)
    ensures forall x :: x in r <==> x in s
    ensures forall i, j :: 0 <= i < j < |r| ==> r[i] != r[j]
  {
    if s == [] then []
    else
      var r := Once(s[..|s| - 1]);
      if s[|s| - 1] in r then r else r + [s[|s| - 1]]
  }

  /** The keys of the join table in their iteration order. */
  function Keys(b: seq<Node>, a: seq<Node>): seq<string> {
    Sort(Before, Once(NameSeq(b) + NameSeq(a)))
  }

  lemma KeysOrdered(b: seq<Node>, a: seq<Node>)
    ensures Increasing(Before, Keys(b, a))
    ensures forall x :: x in Keys(b, a) <==> x in Names(b) || x in Names(a)
  {
    BeforeStrictTotal();
    var s := Once(NameSeq(b) + NameSeq(a));
    SortIncreasing(Before, s);
    SortMembers(Before, s);
  }

  /** The join of two sibling lists: every name once, in order, with its two sides. */
  function Pairs(b: seq<Node>, a: seq<Node>): (r: seq<Side>)
    ensures |r| == |Keys(b, a)|
    ensures forall i :: 0 <= i < |r| ==> r[i] == Side(Last(b, Keys(b, a)[i]), Last(a, Keys(b, a)[i]))
  {
    var keys := Keys(b, a);
    seq(|keys|, i requires 0 <= i < |keys| => Side(Last(b, keys[i]), Last(a, keys[i])))
  }

  /** A pair has a side exactly for each list with a child of its name, and that child is one of the list. */
  lemma PairsSides(b: seq<Node>, a: seq<Node>, i: nat)
    requires i < |Pairs(b, a)|
    ensures var s := Pairs(b, a)[i];
            && (s.before.Some? || s.after.Some?)
            && (s.before.Some? <==> Keys(b, a)[i] in Names(b))
            && (s.after.Some? <==> Keys(b, a)[i] in Names(a))
            && (s.before.Some? ==> s.before.value in b && s.before.value.name == Keys(b, a)[i])
            && (s.after.Some? ==> s.after.value in a && s.after.value.name == Keys(b, a)[i])
  {
    KeysOrdered(b, a);
    var key := Keys(b, a)[i];
    assert key in Keys(b, a);
    if key in Names(b) {
      var c :| c in b && c.name == key;
    } else {
      assert key in Names(a);
      var c :| c in a && c.name == key;
    }
  }

  // ---- Size of a side, for recursion over two trees at once ----

  function Size(n: Node): nat
    decreases n, 1
  {
    1 + SizeAll(n.children)
  }

  function SizeAll(cs: seq<Node>): nat
    decreases cs, 0
  {
    if cs == [] then 0 else Size(cs[0]) + SizeAll(cs[1..])
  }

  lemma {:induction false} SizeMember(cs: seq<Node>, c: Node)
    requires c in cs
    ensures Size(c) <= SizeAll(cs)
  {
    if c != cs[0] { SizeMember(cs[1..], c); }
  }

  function SizeOf(n: Option<Node>): nat {
    match n case Some(m) => Size(m) case None => 0
  }

  function SideSize(s: Side): nat { SizeOf(s.before) + SizeOf(s.after) }

  function JoinOf(s: Side): seq<Side> { Pairs(Kids(s.before), Kids(s.after)) }

  lemma PairsSmaller(s: Side, i: nat)
    requires i < |JoinOf(s)|
    ensures SideSize(JoinOf(s)[i]) < SideSize(s)
    ensures JoinOf(s)[i].before.Some? || JoinOf(s)[i].after.Some?
  {
    PairsSides(Kids(s.before), Kids(s.after), i);
    var t := JoinOf(s)[i];
    if t.before.Some? { SizeMember(Kids(s.before), t.before.value); }
    if t.after.Some? { SizeMember(Kids(s.after), t.after.value); }
  }

  // ---- The list of changes ----

  datatype Mode = Counts | Shares

  datatype Change = Change(path: Path, before: nat, after: nat, delta: real)

  /** How a pair of counts becomes a delta: with the totals of the two captures. */
  datatype Scale = Scale(mode: Mode, before: nat, after: nat)

  function Delta(e: Scale, before: nat, after: nat): real {
    match e.mode
    case Counts => (after - before) as real
    case Shares =>
      if e.before == 0 || e.after == 0 then 0.0
      else 100.0 * (after as real / e.after as real - before as real / e.before as real)
  }

  function NameOf(s: Side): string {
    match s.after case Some(n) => n.name case None => match s.before case Some(n) => n.name case None => ""
  }

  function Head(s: Side, path: Path, e: Scale): Change {
    Change(path, CountOf(s.before), CountOf(s.after), Delta(e, CountOf(s.before), CountOf(s.after)))
  }

  function Flatten<T>(ss: seq<seq<T>>): seq<T> {
    if ss == [] then [] else Flatten(ss[..|ss| - 1]) + ss[|ss| - 1]
  }

  /** A frame of either side, then everything below it. */
  function Visit(s: Side, path: Path, e: Scale): seq<Change>
    decreases SideSize(s), 1
  {
    var here := path + [NameOf(s)];
    [Head(s, here, e)] + Flatten(Branches(s, here, e))
  }

  /** The visits of the joined children, in name order. */
  function Branches(s: Side, path: Path, e: Scale): (r: seq<seq<Change>>)
    ensures |r| == |JoinOf(s)|
    decreases SideSize(s), 0
  {
    seq(|JoinOf(s)|, k requires 0 <= k < |JoinOf(s)| => PairsSmaller(s, k); Visit(JoinOf(s)[k], path, e))
  }

  function Changes(s: Side, path: Path, e: Scale): seq<Change> { Flatten(Branches(s, path, e)) }

  predicate Chain(b: seq<Node>, a: seq<Node>) {
    |b| <= 1 && |a| <= 1 && (b == [] || a == [] || b[0].name == a[0].name)
  }

  function Only(cs: seq<Node>): Option<Node> { if cs == [] then None else Some(cs[0]) }

  lemma ChainNames(b: seq<Node>, a: seq<Node>, names: seq<string>)
    requires Chain(b, a)
    requires names == if a != [] then [a[0].name] else if b != [] then [b[0].name] else []
    ensures forall x :: x in names <==> x in Names(b) || x in Names(a)
  {
    assert a == [] || a == [a[0]];
    assert b == [] || b == [b[0]];
    assert Names(a) == if a == [] then {} else {a[0].name};
    assert Names(b) == if b == [] then {} else {b[0].name};
  }

  lemma ChainKeys(b: seq<Node>, a: seq<Node>)
    requires Chain(b, a)
    ensures Keys(b, a) == if a != [] then [a[0].name] else if b != [] then [b[0].name] else []
  {
    var names := if a != [] then [a[0].name] else if b != [] then [b[0].name] else [];
    ChainNames(b, a, names);
    KeysOrdered(b, a);
    BeforeStrictTotal();
    IncreasingUnique(Before, Keys(b, a), names);
  }

  /** Chains need no join table: at most one child on either side, of one name. */
  lemma SingleJoin(b: seq<Node>, a: seq<Node>)
    requires Chain(b, a)
    ensures Pairs(b, a) == if b == [] && a == [] then [] else [Side(Only(b), Only(a))]
  {
    hide Keys;
    ChainKeys(b, a);
    hide Chain;
    if a != [] || b != [] {
      LastOnly(b, if a != [] then a[0].name else b[0].name);
      LastOnly(a, if a != [] then a[0].name else b[0].name);
      ChainShape(b, a);
    }
  }

  lemma LastOnly(cs: seq<Node>, name: string)
    ensures |cs| <= 1 && (cs == [] || cs[0].name == name) ==> Last(cs, name) == Only(cs)
  {
  }

  lemma ChainShape(b: seq<Node>, a: seq<Node>)
    requires Chain(b, a)
    ensures |b| <= 1 && |a| <= 1 && (b != [] && a != [] ==> b[0].name == a[0].name)
  {
  }

  lemma ChangesSingle(s: Side, path: Path, e: Scale)
    requires Chain(Kids(s.before), Kids(s.after))
    ensures Changes(s, path, e) ==
            if Kids(s.before) == [] && Kids(s.after) == [] then []
            else Visit(Side(Only(Kids(s.before)), Only(Kids(s.after))), path, e)
  {
    SingleJoin(Kids(s.before), Kids(s.after));
    var r := Branches(s, path, e);
    if r != [] {
      assert r == [r[0]];
      assert Flatten(r[..0]) == [];
    }
  }

  lemma Associative<T>(a: seq<T>, b: seq<T>, c: seq<T>)
    ensures (a + b) + c == a + (b + c)
  {
  }

  /** Pushes a frame's change and those below it onto `out`. */
  method VisitInto(s: Side, path: Path, e: Scale, out: seq<Change>) returns (r: seq<Change>)
    requires s.before.Some? || s.after.Some?
    ensures r == out + Visit(s, path, e)
    decreases SideSize(s), 1
  {
    var below := path + [NameOf(s)];
    r := out + [Head(s, below, e)];
    r := WalkInto(s, below, e, r);
  }

  /** The joined children in name order; chains skip the join table. */
  method WalkInto(s: Side, path: Path, e: Scale, out: seq<Change>) returns (r: seq<Change>)
    ensures r == out + Changes(s, path, e)
    decreases SideSize(s), 0, 1
  {
    var b, a := Kids(s.before), Kids(s.after);
    if !Chain(b, a) {
      r := WalkPairs(s, path, e, out);
    } else {
      SingleJoin(b, a);
      ChangesSingle(s, path, e);
      if b == [] && a == [] {
        return out;
      }
      PairsSmaller(s, 0);
      r := VisitInto(Side(Only(b), Only(a)), path, e, out);
    }
  }

  lemma FlattenNext<T>(ss: seq<seq<T>>, k: nat)
    requires k < |ss|
    ensures Flatten(ss[..k + 1]) == Flatten(ss[..k]) + ss[k]
  {
    assert ss[..k + 1][..k] == ss[..k];
  }

  lemma BranchAt(s: Side, path: Path, e: Scale, k: nat)
    requires k < |JoinOf(s)|
    ensures Branches(s, path, e)[k] == Visit(JoinOf(s)[k], path, e)
    ensures SideSize(JoinOf(s)[k]) < SideSize(s) && (JoinOf(s)[k].before.Some? || JoinOf(s)[k].after.Some?)
  {
    hide Visit, JoinOf;
    PairsSmaller(s, k);
  }

  method WalkPairs(s: Side, path: Path, e: Scale, out: seq<Change>) returns (r: seq<Change>)
    ensures r == out + Changes(s, path, e)
    decreases SideSize(s), 0, 0
  {
    hide Visit, Branches, Flatten;
    r := out;
    var pairs := JoinOf(s);
    hide JoinOf, SideSize;
    ghost var branches := Branches(s, path, e);
    NothingFlat(branches);
    for k := 0 to |pairs|
      invariant r == out + Flatten(branches[..k])
    {
      BranchAt(s, path, e, k);
      FlattenNext(branches, k);
      Associative(out, Flatten(branches[..k]), branches[k]);
      r := VisitInto(pairs[k], path, e, r);
    }
    assert branches[..|pairs|] == branches;
  }

  lemma NothingFlat<T>(ss: seq<seq<T>>)
    ensures Flatten(ss[..0]) == []
  {
  }

  // ---- Whole captures ----

  datatype Capture = Capture(kind: Profiles.Kind, unit: string, scope: string, elapsed: real, hz: nat, root: Node)

  datatype Refusal = UnknownProvenance | DifferentUnits | NoSamples

  datatype Warning = ScopesDiffer | DurationsDiffer | FrequenciesDiffer

  datatype Report = Report(mode: Mode, changes: seq<Change>, warnings: seq<Warning>)

  function ScaleOf(current: Capture, baseline: Capture, mode: Mode): Scale {
    Scale(mode, baseline.root.samples, current.root.samples)
  }

  function Roots(current: Capture, baseline: Capture): Side { Side(Some(baseline.root), Some(current.root)) }

  function Refused(current: Capture, baseline: Capture): Option<Refusal> {
    if current.kind == Profiles.Unknown || baseline.kind == Profiles.Unknown then Some(UnknownProvenance)
    else if current.kind != baseline.kind || current.unit != baseline.unit then Some(DifferentUnits)
    else if current.root.samples == 0 || baseline.root.samples == 0 then Some(NoSamples)
    else None
  }

  function Warnings(current: Capture, baseline: Capture): seq<Warning> {
    (if current.scope != baseline.scope then [ScopesDiffer] else [])
    + (if current.elapsed != baseline.elapsed then [DurationsDiffer] else [])
    + (if current.hz != baseline.hz then [FrequenciesDiffer] else [])
  }

  /** What a comparison reports, by the general join. */
  function Compared(current: Capture, baseline: Capture, mode: Mode): Result<Report, Refusal> {
    match Refused(current, baseline)
    case Some(why) => Err(why)
    case None =>
      Ok(Report(mode, Changes(Roots(current, baseline), [], ScaleOf(current, baseline, mode)),
                Warnings(current, baseline)))
  }

  /** `Profile::compare`: checks provenance, units and samples, then walks both trees. */
  method Compare(current: Capture, baseline: Capture, mode: Mode) returns (r: Result<Report, Refusal>)
    ensures r == Compared(current, baseline, mode)
  {
    if current.kind == Profiles.Unknown || baseline.kind == Profiles.Unknown {
      return Err(UnknownProvenance);
    }
    if current.kind != baseline.kind || current.unit != baseline.unit {
      return Err(DifferentUnits);
    }
    if current.root.samples == 0 || baseline.root.samples == 0 {
      return Err(NoSamples);
    }
    var changes := WalkInto(Roots(current, baseline), [], ScaleOf(current, baseline, mode), []);
    var warnings := [];
    if current.scope != baseline.scope {
      warnings := warnings + [ScopesDiffer];
    }
    if current.elapsed != baseline.elapsed {
      warnings := warnings + [DurationsDiffer];
    }
    if current.hz != baseline.hz {
      warnings := warnings + [FrequenciesDiffer];
    }
    assert changes == Changes(Roots(current, baseline), [], ScaleOf(current, baseline, mode));
    assert warnings == Warnings(current, baseline);
    r := Ok(Report(mode, changes, warnings));
  }
}
