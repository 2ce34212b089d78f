/** A capture: the stack tree with its quality counters, updated in place. */
module Profiles {
  import opened Wrappers
  import opened Ordering
  import opened StackTree

  /** Stacks at or below this length are counted as shallow. */
  const SHALLOW: nat := 2
  /** A walk of this many frames has reached the depth limit. */
  const DEPTH_LIMIT: nat := 127

  datatype Kind = Unknown | Syscalls | Cpu

  datatype Quality = Quality(userStacks: nat, kernelStacks: nat, partial: nat, failed: nat, depthLimit: nat,
                             attempted: nat, mapFailures: nat)

  /** Identity of one sampled task: thread group, thread, start time, exec generation. */
  datatype Task = Task(tgid: nat, tid: nat, start: nat, exec: nat)

  /** `raw` of each interned frame identity stands for its frame record. */
  datatype Data = Data(kind: Kind, tasks: map<Task, nat>, quality: Quality, raw: map<string, string>,
                       root: Node, shallow: nat, unresolved: nat)

  predicate NoCounts(q: Quality) {
    && q.userStacks == q.kernelStacks == q.partial == q.failed == q.depthLimit == 0
    && q.attempted == q.mapFailures == 0
  }

  /** A capture before its first sample. */
  predicate Fresh(d: Data) {
    d.tasks == map[] && NoCounts(d.quality) && d.root.samples == 0 && d.root.children == [] &&
    d.shallow == d.unresolved == 0
  }

  predicate Hex(s: string) { |s| >= 2 && s[..2] == "0x" }

  function When(b: bool, w: nat): nat { if b then w else 0 }

  /** The stack of one sample: user frames, then the kernel frames under a marker. */
  function Joined(user: Path, kernel: Path): Path {
    if kernel == [] then user else user + ["[kernel]"] + kernel
  }

  predicate Address(raw: map<string, string>, id: string) {
    if id in raw then Hex(raw[id]) else Hex(id)
  }

  predicate AnyHex(frames: Path) { exists f :: f in frames && Hex(f) }

  predicate AnyAddress(raw: map<string, string>, frames: Path) { exists f :: f in frames && Address(raw, f) }

  /** The quality counters after a sample of weight w. */
  function Counted(q: Quality, kind: Kind, user: Path, kernel: Path, w: nat): Quality {
    q.(userStacks := q.userStacks + When(user != [], w),
       kernelStacks := q.kernelStacks + When(kernel != [], w),
       depthLimit := q.depthLimit + When(|user| == DEPTH_LIMIT || |kernel| == DEPTH_LIMIT, w),
       failed := q.failed + When(user == [] && kernel == [], w),
       partial := q.partial + When(kind == Cpu && (user == []) != (kernel == []), w))
  }

  /** What one observation of weight w adds, in closed form. */
  function Observed(d: Data, user: Path, kernel: Path, w: nat): Data {
    var frames := Joined(user, kernel);
    Data(d.kind, d.tasks, Counted(d.quality, d.kind, user, kernel, w), d.raw,
         Record(d.root, Stack(frames, w)),
         d.shallow + When(0 < |user| <= SHALLOW, w),
         d.unresolved + When(AnyAddress(d.raw, frames), w))
  }

  /** Every sample is either in the tree or failed; stacks and partials balance the tree. */
  ghost predicate Balanced(d: Data) {
    2 * d.root.samples == d.quality.userStacks + d.quality.kernelStacks + d.quality.partial
  }

  lemma ObservedBalance(d: Data, user: Path, kernel: Path, w: nat)
    ensures var e := Observed(d, user, kernel, w);
            e.root.samples + e.quality.failed == d.root.samples + d.quality.failed + w
    ensures d.kind == Cpu && Balanced(d) ==> Balanced(Observed(d, user, kernel, w))
  {
    assert Joined(user, kernel) == [] <==> user == [] && kernel == [];
  }

  // ---- The exclusive reference that walks down while a stack is folded ----

  function Replace(n: Node, at: seq<nat>, sub: Node): Node
    requires Reaches(n, at)
  {
    if at == [] then sub
    else Node(n.name, n.samples, n.children[at[0] := Replace(n.children[at[0]], at[1..], sub)])
  }

  /** The position a lookup of the path reaches. */
  function Cursor(n: Node, p: Path): (at: seq<nat>)
    requires At(n, p).Some?
    ensures Reaches(n, at) && NodeAt(n, at) == At(n, p).value
  {
    if p == [] then []
    else var i := Find(n.children, p[0]); [i] + Cursor(n.children[i], p[1..])
  }

  /** The child of that name, added without samples when missing. */
  function WithChild(n: Node, name: string): Node {
    if Find(n.children, name) < |n.children| then n
    else Node(n.name, n.samples, n.children + [Node(name, 0, [])])
  }

  function Bump(n: Node, w: nat): Node { Node(n.name, n.samples + w, n.children) }

  lemma {:induction false} ReplaceInner(n: Node, at: seq<nat>, i: nat, m: Node, w: nat)
    requires Reaches(n, at) && i < |m.children|
    ensures var r := Replace(n, at, m);
            Reaches(r, at + [i]) && NodeAt(r, at + [i]) == m.children[i]
            && Replace(r, at + [i], Bump(m.children[i], w)) ==
               Replace(n, at, Node(m.name, m.samples, m.children[i := Bump(m.children[i], w)]))
  {
    if at == [] {
      assert [] + [i] == [i];
      assert [i][1..] == [];
    } else {
      assert (at + [i])[1..] == at[1..] + [i];
      ReplaceInner(n.children[at[0]], at[1..], i, m, w);
    }
  }

  lemma {:induction false} ReplaceSelf(n: Node, at: seq<nat>)
    requires Reaches(n, at)
    ensures Replace(n, at, NodeAt(n, at)) == n
  {
    if at == [] {
    } else {
      ReplaceSelf(n.children[at[0]], at[1..]);
    }
  }

  /** The node with its child of that name (added when missing) bumped. */
  function Grown(n: Node, f: string, w: nat): Node {
    var m, i := WithChild(n, f), Find(n.children, f);
    Node(m.name, m.samples, m.children[i := Bump(m.children[i], w)])
  }

  lemma InsertOne(n: Node, f: string, w: nat)
    ensures Insert(n, [f], w) == Grown(Bump(n, w), f, w)
  {
    var i := Find(n.children, f);
    var kids := if i < |n.children| then n.children else n.children + [Node(f, 0, [])];
    assert [f][1..] == [] && Insert(kids[i], [], w) == Bump(kids[i], w);
    assert WithChild(Bump(n, w), f).children == kids;
  }

  /** The children with one of that name, added without samples when missing. */
  function Room(n: Node, name: string): (r: seq<Node>)
    ensures Find(n.children, name) < |r|
  {
    if Find(n.children, name) < |n.children| then n.children else n.children + [Node(name, 0, [])]
  }

  /** An insertion below the first frame is an insertion into that child. */
  lemma InsertBelow(n: Node, q: Path, w: nat)
    requires q != []
    ensures var kids, i := Room(n, q[0]), Find(n.children, q[0]);
            && Insert(n, q, w) == Node(n.name, n.samples + w, kids[i := Insert(kids[i], q[1..], w)])
            && Find(Insert(n, q, w).children, q[0]) == i
  {
    var kids, i := Room(n, q[0]), Find(n.children, q[0]);
    RoomNamed(n, q[0]);
    FindIs(kids[i := Insert(kids[i], q[1..], w)], q[0], i);
  }

  lemma RoomNamed(n: Node, name: string)
    ensures var kids, i := Room(n, name), Find(n.children, name);
            kids[i].name == name && forall j :: 0 <= j < i ==> kids[j].name != name
  {
  }

  /** Working below child i is working in that child. */
  lemma BelowChild(m: Node, i: nat, at: seq<nat>, sub: Node)
    requires i < |m.children| && Reaches(m.children[i], at)
    ensures Reaches(m, [i] + at) && NodeAt(m, [i] + at) == NodeAt(m.children[i], at)
    ensures Replace(m, [i] + at, sub) == Node(m.name, m.samples, m.children[i := Replace(m.children[i], at, sub)])
  {
    assert ([i] + at)[1..] == at;
  }

  lemma LookupBelow(m: Node, p: Path, i: nat)
    requires p != [] && Find(m.children, p[0]) == i < |m.children| && At(m.children[i], p[1..]).Some?
    ensures At(m, p).Some? && Cursor(m, p) == [i] + Cursor(m.children[i], p[1..])
  {
  }

  /** The insertion at p, then one more frame below it. */
  ghost predicate StepsDown(m: Node, r: Node, p: Path, f: string, w: nat) {
    && At(m, p).Some? && At(r, p + [f]).Some?
    && var at := Cursor(m, p);
    && r == Replace(m, at, Grown(NodeAt(m, at), f, w))
    && Cursor(r, p + [f]) == at + [Find(NodeAt(m, at).children, f)]
  }

  lemma StepFirst(n: Node, f: string, w: nat)
    ensures StepsDown(Insert(n, [], w), Insert(n, [] + [f], w), [], f, w)
  {
    assert [] + [f] == [f] && [f][1..] == [];
    InsertOne(n, f, w);
    InsertBelow(n, [f], w);
  }

  /** One more frame: the tree changes only below the cursor, and the cursor moves to that child. */
  lemma {:induction false} StepDown(n: Node, p: Path, f: string, w: nat)
    ensures StepsDown(Insert(n, p, w), Insert(n, p + [f], w), p, f, w)
    decreases |p|
  {
    hide StepsDown, Insert, Find, Room;
    if p == [] {
      StepFirst(n, f, w);
    } else {
      var i := Find(n.children, p[0]);
      assert (p + [f])[0] == p[0] && (p + [f])[1..] == p[1..] + [f];
      InsertBelow(n, p, w);
      InsertBelow(n, p + [f], w);
      StepDown(Room(n, p[0])[i], p[1..], f, w);
      StepUp(n, p, f, w, Room(n, p[0]), i, Insert(Room(n, p[0])[i], p[1..], w),
             Insert(Room(n, p[0])[i], p[1..] + [f], w));
    }
  }

  /** A step in child i is a step in the node. */
  lemma StepUp(n: Node, p: Path, f: string, w: nat, kids: seq<Node>, i: nat, sub: Node, more: Node)
    requires p != [] && i < |kids| && StepsDown(sub, more, p[1..], f, w)
    requires Find(kids[i := sub], p[0]) == i && Find(kids[i := more], p[0]) == i
    ensures StepsDown(Node(n.name, n.samples + w, kids[i := sub]),
                      Node(n.name, n.samples + w, kids[i := more]), p, f, w)
  {
    hide Find, Grown, Replace, Cursor, At, NodeAt;
    var m, r := Node(n.name, n.samples + w, kids[i := sub]), Node(n.name, n.samples + w, kids[i := more]);
    assert (p + [f])[0] == p[0] && (p + [f])[1..] == p[1..] + [f];
    LookupBelow(m, p, i);
    LookupBelow(r, p + [f], i);
    var at := Cursor(sub, p[1..]);
    BelowChild(m, i, at, Grown(NodeAt(sub, at), f, w));
    assert [i] + at + [Find(NodeAt(sub, at).children, f)] == [i] + (at + [Find(NodeAt(sub, at).children, f)]);
    assert kids[i := sub][i := more] == kids[i := more];
  }

  /** Walks down from the root with one exclusive reference, adding missing frames on the way. */
  method FoldDown(n: Node, frames: Path, weight: nat) returns (root: Node)
    ensures root == Insert(n, frames, weight)
  {
    root := Bump(n, weight);
    var at: seq<nat> := [];
    for k := 0 to |frames|
      invariant root == Insert(n, frames[..k], weight)
      invariant At(root, frames[..k]).Some? && at == Cursor(root, frames[..k])
    {
      StepDown(n, frames[..k], frames[k], weight);
      assert frames[..k + 1] == frames[..k] + [frames[k]];
      var node := NodeAt(root, at);
      var i := Find(node.children, frames[k]);
      ReplaceSelf(root, at);
      ReplaceInner(root, at, i, WithChild(node, frames[k]), weight);
      if i == |node.children| {
        root := Replace(root, at, Node(node.name, node.samples, node.children + [Node(frames[k], 0, [])]));
      }
      at := at + [i];
      root := Replace(root, at, Bump(NodeAt(root, at), weight));
    }
    assert frames[..|frames|] == frames;
  }

  class Profile {
    var data: Data

    constructor ()
      ensures Fresh(data) && data.kind == Unknown && data.root == EMPTY && data.raw == map[]
    {
      data := Data(Unknown, map[], Quality(0, 0, 0, 0, 0, 0, 0), map[], EMPTY, 0, 0);
    }

    /** Fold one observed stack, outermost frame first. */
    method Add(frames: Path, weight: nat)
      modifies this
      ensures data == old(data).(
                root := Record(old(data).root, Stack(frames, weight)),
                shallow := old(data).shallow + When(0 < |frames| <= SHALLOW, weight),
                unresolved := old(data).unresolved + When(AnyHex(frames), weight))
    {
      if frames == [] || weight == 0 {
        return;
      }
      if |frames| <= SHALLOW {
        data := data.(shallow := data.shallow + weight);
      }
      if AnyHex(frames) {
        data := data.(unresolved := data.unresolved + weight);
      }
      var root := FoldDown(data.root, frames, weight);
      data := data.(root := root);
    }

    method Count(user: Path, kernel: Path, weight: nat)
      modifies this
      ensures data == old(data).(quality := Counted(old(data).quality, old(data).kind, user, kernel, weight))
    {
      var q := data.quality;
      if user != [] {
        q := q.(userStacks := q.userStacks + weight);
      }
      if kernel != [] {
        q := q.(kernelStacks := q.kernelStacks + weight);
      }
      if |user| == DEPTH_LIMIT || |kernel| == DEPTH_LIMIT {
        q := q.(depthLimit := q.depthLimit + weight);
      }
      if user == [] && kernel == [] {
        q := q.(failed := q.failed + weight);
      } else if data.kind == Cpu && (user == [] || kernel == []) {
        q := q.(partial := q.partial + weight);
      }
      data := data.(quality := q);
    }

    /** One sample: quality is counted before the stacks are joined and folded. */
    method Observe(user: Path, kernel: Path, weight: nat)
      modifies this
      ensures data == Observed(old(data), user, kernel, weight)
    {
      Count(user, kernel, weight);
      if user == [] && kernel == [] {
        assert Joined(user, kernel) == [];
        return;
      }
      var frames := user;
      if kernel != [] {
        frames := frames + ["[kernel]"] + kernel;
      }
      var before, unresolved := data.shallow, data.unresolved;
      Add(frames, weight);
      data := data.(shallow := before + if user != [] && |user| <= SHALLOW then weight else 0);
      data := data.(unresolved := unresolved + if AnyAddress(data.raw, frames) then weight else 0);
    }
  }

  // ---- Validation ----

  datatype Invalid = DuplicateSiblings | CountsOverflow | ChildrenExceedParent

  const U64_MAX: nat := 0xFFFF_FFFF_FFFF_FFFF

  /** Every stored count is a 64-bit counter. */
  ghost predicate Stored(n: Node) {
    n.samples <= U64_MAX && forall c :: c in n.children ==> Stored(c)
  }

  /** Accepts exactly the valid trees; names what is wrong at the first frame that is not. */
  method Validate(n: Node) returns (r: Result<(), Invalid>)
    requires Stored(n)
    ensures r.Ok? <==> Valid(n)
    ensures r == Err(ChildrenExceedParent) && (forall c :: c in n.children ==> Valid(c)) ==> Sum(n.children) > n.samples
    decreases n
  {
    var total, names := 0, {};
    for i := 0 to |n.children|
      invariant total == Sum(n.children[..i]) <= U64_MAX
      invariant forall x :: x in names <==> exists j :: 0 <= j < i && n.children[j].name == x
      invariant UniqueNames(n.children[..i])
      invariant forall j :: 0 <= j < i ==> Valid(n.children[j])
    {
      var child := n.children[i];
      if child.name in names {
        return Err(DuplicateSiblings);
      }
      names := names + {child.name};
      assert n.children[..i + 1] == n.children[..i] + [child];
      SumConcat(n.children[..i], [child]);
      SumPrefix(n.children, i + 1);
      if total + child.samples > U64_MAX {
        return Err(CountsOverflow);
      }
      total := total + child.samples;
      var inner := Validate(child);
      if inner.Err? {
        return inner;
      }
    }
    assert n.children[..|n.children|] == n.children;
    if total > n.samples {
      return Err(ChildrenExceedParent);
    }
    return Ok(());
  }
}
